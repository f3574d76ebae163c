/**
  The two URL migrations (backend/migrate_cloudinary_urls.js and backend/update_domain_urls.js):
  a document is traversed, the string leaves a pattern matches are rewritten, and the rewritten
  leaves are collected as dotted `$set` entries. The two scripts differ only in the pattern and
  the replacement, which stay abstract here.
*/
module UrlMigration {
  import opened Common
  import opened Documents
  import S = SettingsUpdate

  /** What the script makes of one string: the replacement where the pattern matches. */
  datatype Rewrite = Rewrite(matches: string -> bool, replace: string -> string) {
    function Of(t: string): string {
      if matches(t) then replace(t) else t
    }

    ghost predicate Idempotent() {
      forall t :: Of(Of(t)) == Of(t)
    }
  }

  /** The document with every string leaf rewritten. */
  function Replaced(f: Rewrite, d: Doc): Doc
    decreases d, 1
  {
    match d
    case Str(t) => Str(f.Of(t))
    case Arr(xs) => Arr(ReplacedItems(f, xs))
    case Obj(m) => Obj(ReplacedFields(f, d))
    case _ => d
  }

  function ReplacedItems(f: Rewrite, xs: seq<Doc>): (r: seq<Doc>)
    ensures |r| == |xs|
    decreases xs, 0
  {
    if xs == [] then [] else [Replaced(f, xs[0])] + ReplacedItems(f, xs[1..])
  }

  function ReplacedFields(f: Rewrite, d: Doc): map<string, Doc>
    requires d.Obj?
    decreases d, 0
  {
    map k | k in d.fields :: Replaced(f, d.fields[k])
  }

  lemma {:induction false} ReplacedItem(f: Rewrite, xs: seq<Doc>, i: nat)
    requires i < |xs|
    ensures ReplacedItems(f, xs)[i] == Replaced(f, xs[i])
    decreases |xs|
  {
    if i > 0 {
      ReplacedItem(f, xs[1..], i - 1);
    }
  }

  /** The node one component down, without any creation. */
  function Step(d: Doc, k: string): (r: Option<Doc>)
    ensures r.Some? ==> Slot(d, k) == r
  {
    match d
    case Obj(m) => if k in m then Some(m[k]) else None
    case Arr(xs) => (match IndexIn(k, |xs|) case Some(i) => Some(xs[i]) case None => None)
    case _ => None
  }

  lemma StepReplaced(f: Rewrite, d: Doc, k: string)
    ensures Step(Replaced(f, d), k) ==
              match Step(d, k) case Some(c) => Some(Replaced(f, c)) case None => None
  {
    if d.Arr? && IndexIn(k, |d.items|).Some? {
      ReplacedItem(f, d.items, IndexIn(k, |d.items|).value);
    }
  }

  lemma StepIsGet(d: Doc, k: string, q: Path)
    ensures Get(d, [k] + q) == match Step(d, k) case Some(c) => Get(c, q) case None => None
  {
    assert ([k] + q)[1..] == q;
  }

  /** Path by path: a string leaf the pattern matches reads its replacement, every other leaf reads as
      before, and rewriting neither adds nor removes a node. */
  lemma {:induction false} ReplacedReads(f: Rewrite, d: Doc, q: Path)
    ensures Get(Replaced(f, d), q).None? <==> Get(d, q).None?
    ensures forall t :: Get(d, q) == Some(Str(t)) ==>
              Get(Replaced(f, d), q) == Some(Str(if f.matches(t) then f.replace(t) else t))
    ensures Get(d, q).Some? && (Get(d, q).value.Null? || Get(d, q).value.Undefined? || Get(d, q).value.Leaf?) ==>
              Get(Replaced(f, d), q) == Get(d, q)
    decreases |q|
  {
    if q != [] {
      var k, r := q[0], q[1..];
      assert q == [k] + r;
      StepReplaced(f, d, k);
      StepIsGet(d, k, r);
      StepIsGet(Replaced(f, d), k, r);
      if Step(d, k).Some? {
        ReplacedReads(f, Step(d, k).value, r);
      }
    }
  }

  /** The update, if any, that the traversal records for the path `q` of a document. */
  function PatchAt(f: Rewrite, d: Doc, q: Path): Option<Doc>
    decreases |q|
  {
    if q == [] then (if d.Str? && f.Of(d.text) != d.text then Some(Str(f.Of(d.text))) else None)
    else match Step(d, q[0])
      case Some(c) => PatchAt(f, c, q[1..])
      case None => None
  }

  /** It records the replacement of exactly the string leaves that the pattern matches and the
      replacement changes. */
  lemma {:induction false} PatchAtMeaning(f: Rewrite, d: Doc, q: Path, w: Doc)
    ensures PatchAt(f, d, q) == Some(w) <==>
            exists t :: Get(d, q) == Some(Str(t)) && f.matches(t) && f.replace(t) != t && w == Str(f.replace(t))
    decreases |q|
  {
    if q == [] {
      if d.Str? {
        assert Get(d, q) == Some(Str(d.text));
      }
    } else {
      assert q == [q[0]] + q[1..];
      StepIsGet(d, q[0], q[1..]);
      if Step(d, q[0]).Some? {
        PatchAtMeaning(f, Step(d, q[0]).value, q[1..], w);
      }
    }
  }

  ghost predicate Patched(f: Rewrite, d: Doc) {
    exists q :: PatchAt(f, d, q).Some?
  }

  // ---------------------------------------------------------------- applying the updates

  lemma PatchBelow(f: Rewrite, d: Doc, k: string, q: Path)
    ensures PatchAt(f, d, [k] + q) == match Step(d, k) case Some(c) => PatchAt(f, c, q) case None => None
  {
    assert ([k] + q)[1..] == q;
  }

  /** Nothing is recorded exactly when rewriting changes nothing. */
  lemma {:induction false} UnpatchedIsUnchanged(f: Rewrite, d: Doc)
    requires !Patched(f, d)
    ensures Replaced(f, d) == d
    decreases d
  {
    assert PatchAt(f, d, []).None?;
    match d
    case Obj(m) =>
      forall k | k in m ensures Replaced(f, m[k]) == m[k] {
        forall q ensures PatchAt(f, m[k], q).None? {
          PatchBelow(f, d, k, q);
        }
        UnpatchedIsUnchanged(f, m[k]);
      }
      assert ReplacedFields(f, d) == m;
    case Arr(xs) =>
      forall i | 0 <= i < |xs| ensures ReplacedItems(f, xs)[i] == xs[i] {
        IndexInDecimal(i, |xs|);
        forall q ensures PatchAt(f, xs[i], q).None? {
          PatchBelow(f, d, Decimal(i), q);
        }
        UnpatchedIsUnchanged(f, xs[i]);
        ReplacedItem(f, xs, i);
      }
    case _ =>
  }

  lemma {:induction false} PatchedIsChanged(f: Rewrite, d: Doc, q: Path)
    requires PatchAt(f, d, q).Some?
    ensures Replaced(f, d) != d
    decreases |q|
  {
    if q != [] {
      StepReplaced(f, d, q[0]);
      PatchedIsChanged(f, Step(d, q[0]).value, q[1..]);
    }
  }

  /** `us` lists the recorded updates, in any order. */
  ghost predicate Lists(f: Rewrite, us: seq<Entry>, d: Doc) {
    forall q, w :: Entry(q, w) in us <==> PatchAt(f, d, q) == Some(w)
  }

  lemma ListedPatch(f: Rewrite, us: seq<Entry>, d: Doc, i: nat)
    requires Lists(f, us, d) && i < |us|
    ensures PatchAt(f, d, us[i].path) == Some(us[i].value)
  {
    assert us[i] == Entry(us[i].path, us[i].value);
    assert us[i] in us;
  }

  lemma ListsBelow(f: Rewrite, us: seq<Entry>, d: Doc, k: string)
    requires Lists(f, us, d) && Step(d, k).Some?
    ensures Lists(f, Under(us, k), Step(d, k).value)
    ensures k !in Heads(us) ==> !Patched(f, Step(d, k).value)
  {
    var c := Step(d, k).value;
    forall q, w ensures Entry(q, w) in Under(us, k) <==> PatchAt(f, c, q) == Some(w) {
      UnderMembers(us, k, q, w);
      PatchBelow(f, d, k, q);
    }
    if q :| PatchAt(f, c, q).Some? {
      assert Entry(q, PatchAt(f, c, q).value) in Under(us, k);
      UnderNone(us, k);
    }
  }

  /** Rewriting the touched nodes and leaving alone the others, which rewriting would not change. */
  lemma Reassemble(f: Rewrite, d: Doc, rs: map<string, Doc>)
    requires d.Obj? || d.Arr?
    requires forall k :: k in rs ==> Step(d, k).Some? && rs[k] == Replaced(f, Step(d, k).value)
    requires forall k :: Step(d, k).Some? && k !in rs ==> Replaced(f, Step(d, k).value) == Step(d, k).value
    ensures PutAll(d, rs) == Replaced(f, d)
  {
    if d.Obj? {
      forall k | k in d.fields ensures (d.fields + rs)[k] == Replaced(f, d.fields[k]) {
        assert Step(d, k) == Some(d.fields[k]);
      }
      assert d.fields + rs == ReplacedFields(f, d);
    } else {
      forall i | 0 <= i < |d.items| ensures PutAll(d, rs).items[i] == ReplacedItems(f, d.items)[i] {
        IndexInDecimal(i, |d.items|);
        ReplacedItem(f, d.items, i);
        assert Step(d, Decimal(i)) == Some(d.items[i]);
      }
      assert PutAll(d, rs).items == ReplacedItems(f, d.items);
    }
  }

  /** The node at `k` once the updates below it are applied. */
  lemma {:induction false} ChildReplaced(f: Rewrite, us: seq<Entry>, d: Doc, k: string)
    requires Lists(f, us, d) && Step(d, k).Some? && Step(d, k).value < d
    ensures Child(d, us, k) == Some(Replaced(f, Step(d, k).value))
    ensures k !in Heads(us) ==> Replaced(f, Step(d, k).value) == Step(d, k).value
    decreases d, 0
  {
    ListsBelow(f, us, d, k);
    UpdatesRewriteExactly(f, Step(d, k).value, Under(us, k));
    if k !in Heads(us) {
      UnpatchedIsUnchanged(f, Step(d, k).value);
    }
  }

  /**
    Applying the recorded updates in any order succeeds and yields the document with each string
    leaf rewritten and everything else untouched.
  */
  lemma {:induction false} UpdatesRewriteExactly(f: Rewrite, d: Doc, us: seq<Entry>)
    requires Lists(f, us, d)
    ensures SetAll(d, us) == Some(Replaced(f, d))
    decreases d, 1
  {
    if d.Obj? || d.Arr? {
      forall i | 0 <= i < |us| ensures us[i].path != [] && Step(d, us[i].path[0]).Some? {
        ListedPatch(f, us, d, i);
      }
      SetAllFactors(d, us);
      forall k | Step(d, k).Some?
        ensures Child(d, us, k) == Some(Replaced(f, Step(d, k).value))
        ensures k !in Heads(us) ==> Replaced(f, Step(d, k).value) == Step(d, k).value
      {
        ChildReplaced(f, us, d, k);
      }
      Reassemble(f, d, Results(d, us));
    } else {
      forall u | u in us ensures u == Entry([], Replaced(f, d)) {
        assert u == Entry(u.path, u.value);
      }
      S.SetAllConstant(d, us, Replaced(f, d));
      if d.Str? && f.Of(d.text) != d.text {
        assert Entry([], Str(f.Of(d.text))) in us;
      }
    }
  }

  /** No recorded path is a prefix of another: the server never sees conflicting updates. */
  lemma {:induction false} PatchesPrefixFree(f: Rewrite, d: Doc, p: Path, q: Path)
    requires PatchAt(f, d, p).Some? && PatchAt(f, d, q).Some? && p <= q
    ensures p == q
    decreases |p|
  {
    if p != [] {
      assert p[0] == q[0] && p[1..] <= q[1..];
      PatchesPrefixFree(f, Step(d, p[0]).value, p[1..], q[1..]);
      assert p == [p[0]] + p[1..] && q == [q[0]] + q[1..];
    }
  }

  /** A second run over a rewritten document records nothing, for an idempotent rewrite. */
  lemma {:induction false} SecondRunIsEmpty(f: Rewrite, d: Doc, q: Path)
    requires f.Idempotent()
    ensures PatchAt(f, Replaced(f, d), q).None?
    decreases |q|
  {
    if q != [] {
      StepReplaced(f, d, q[0]);
      if Step(d, q[0]).Some? {
        SecondRunIsEmpty(f, Step(d, q[0]).value, q[1..]);
      }
    }
  }

  // ---------------------------------------------------------------- the traversal

  /** `after` is `before` plus the updates recorded at and below `at`. */
  ghost predicate Recorded(f: Rewrite, before: map<Path, Doc>, after: map<Path, Doc>, at: Path, d: Doc) {
    forall p :: S.Look(after, p) ==
      if at <= p && PatchAt(f, d, p[|at|..]).Some? then PatchAt(f, d, p[|at|..]) else S.Look(before, p)
  }

  /** The same, restricted to some of the components below `at`. */
  ghost predicate RecordedBelow(f: Rewrite, before: map<Path, Doc>, after: map<Path, Doc>, at: Path, d: Doc, ks: set<string>) {
    forall p :: S.Look(after, p) ==
      if at < p && p[|at|] in ks && PatchAt(f, d, p[|at|..]).Some? then PatchAt(f, d, p[|at|..]) else S.Look(before, p)
  }

  lemma RecordedOneMore(f: Rewrite, before: map<Path, Doc>, mid: map<Path, Doc>, after: map<Path, Doc>, at: Path, d: Doc,
                        ks: set<string>, k: string)
    requires RecordedBelow(f, before, mid, at, d, ks) && Step(d, k).Some? && k !in ks
    requires Recorded(f, mid, after, at + [k], Step(d, k).value)
    ensures RecordedBelow(f, before, after, at, d, ks + {k})
  {
    forall p
      ensures S.Look(after, p) ==
        if at < p && p[|at|] in ks + {k} && PatchAt(f, d, p[|at|..]).Some? then PatchAt(f, d, p[|at|..]) else S.Look(before, p)
    {
      assert at + [k] <= p <==> at < p && p[|at|] == k;
      if at + [k] <= p {
        assert p[|at|..][1..] == p[|at + [k]|..];
      }
    }
  }

  lemma RecordedAll(f: Rewrite, before: map<Path, Doc>, after: map<Path, Doc>, at: Path, d: Doc, ks: set<string>)
    requires RecordedBelow(f, before, after, at, d, ks) && !d.Str?
    requires forall k :: Step(d, k).Some? ==> k in ks
    ensures Recorded(f, before, after, at, d)
  {
    forall p
      ensures S.Look(after, p) ==
        if at <= p && PatchAt(f, d, p[|at|..]).Some? then PatchAt(f, d, p[|at|..]) else S.Look(before, p)
    {
      if at <= p && PatchAt(f, d, p[|at|..]).Some? {
        assert p[|at|..] != [] && at < p;
        assert p[|at|..][0] == p[|at|];
      }
    }
  }

  lemma RecordedLeaf(f: Rewrite, before: map<Path, Doc>, at: Path, d: Doc)
    requires !d.Obj? && !d.Arr?
    ensures d.Str? && f.Of(d.text) != d.text ==> Recorded(f, before, before[at := Str(f.Of(d.text))], at, d)
    ensures !(d.Str? && f.Of(d.text) != d.text) ==> Recorded(f, before, before, at, d)
  {
    forall p | at <= p ensures p[|at|..] == [] <==> p == at {
      assert p == at + p[|at|..];
    }
  }

  /** The names of the first `n` elements of an array. */
  ghost function Numerals(n: nat): set<string> {
    set i | 0 <= i < n :: Decimal(i)
  }

  lemma NumeralsGrow(i: nat)
    ensures Decimal(i) !in Numerals(i) && Numerals(i + 1) == Numerals(i) + {Decimal(i)}
  {
    if Decimal(i) in Numerals(i) {
      var j :| 0 <= j < i && Decimal(j) == Decimal(i);
      DecimalInjective(i, j);
    }
  }

  lemma NumeralsCover(d: Doc)
    requires d.Arr?
    ensures forall k :: Step(d, k).Some? ==> k in Numerals(|d.items|)
  {
    forall k | Step(d, k).Some? ensures k in Numerals(|d.items|) {
      var i := IndexIn(k, |d.items|).value;
      assert Decimal(i) == k;
    }
  }

  class Migration {
    const f: Rewrite
    var updates: map<string, Doc>
    var modified: bool
    ghost var written: map<Path, Doc>

    constructor (f: Rewrite)
      ensures this.f == f
    {
      this.f := f;
    }

    /** `traverse(current, currentPath)`, where `currentPath` spells the path `at`. */
    method Traverse(current: Doc, currentPath: string, ghost at: Path)
      requires S.Spells(updates, written) && GoodNames(current)
      requires DotFreePath(at) && (currentPath == "" <==> at == []) && (at != [] ==> currentPath == Dotted(at))
      requires at == [] ==> !current.Str?
      modifies this`updates, this`modified, this`written
      ensures S.Spells(updates, written) && Recorded(f, old(written), written, at, current)
      ensures modified <==> old(modified) || Patched(f, current)
      decreases current
    {
      match current
      case Str(text) =>
        RecordedLeaf(f, written, at, current);
        assert PatchAt(f, current, []) == if f.Of(text) != text then Some(Str(f.Of(text))) else None;
        if f.matches(text) {
          var newStr := f.replace(text);
          if newStr != text {
            S.SpellsOneMore(updates, written, at, Str(newStr));
            updates := updates[currentPath := Str(newStr)];
            written := written[at := Str(newStr)];
            modified := true;
          }
        }
      case Arr(xs) =>
        TraverseItems(current, currentPath, at);
      case Obj(m) =>
        TraverseFields(current, currentPath, at);
      case _ =>
        RecordedLeaf(f, written, at, current);
    }

    method TraverseItems(current: Doc, currentPath: string, ghost at: Path)
      requires current.Arr? && S.Spells(updates, written) && GoodNames(current)
      requires DotFreePath(at) && (currentPath == "" <==> at == []) && (at != [] ==> currentPath == Dotted(at))
      modifies this`updates, this`modified, this`written
      ensures S.Spells(updates, written) && Recorded(f, old(written), written, at, current)
      ensures modified <==> old(modified) || Patched(f, current)
      decreases current, 0
    {
      var xs := current.items;
      ghost var before := written;
      for i := 0 to |xs|
        invariant S.Spells(updates, written)
        invariant RecordedBelow(f, before, written, at, current, Numerals(i))
        invariant modified <==> old(modified) || PatchedIn(f, current, Numerals(i))
      {
        ghost var mid := written;
        var name := Decimal(i);
        IndexInDecimal(i, |xs|);
        NumeralsGrow(i);
        JoinName(currentPath, at, name);
        Traverse(xs[i], if currentPath != "" then currentPath + "." + name else name, at + [name]);
        RecordedOneMore(f, before, mid, written, at, current, Numerals(i), name);
        PatchedAtChild(f, current, Numerals(i), name);
      }
      NumeralsCover(current);
      RecordedAll(f, before, written, at, current, Numerals(|xs|));
      PatchedAtSome(f, current, Numerals(|xs|));
    }

    method TraverseFields(current: Doc, currentPath: string, ghost at: Path)
      requires current.Obj? && S.Spells(updates, written) && GoodNames(current)
      requires DotFreePath(at) && (currentPath == "" <==> at == []) && (at != [] ==> currentPath == Dotted(at))
      modifies this`updates, this`modified, this`written
      ensures S.Spells(updates, written) && Recorded(f, old(written), written, at, current)
      ensures modified <==> old(modified) || Patched(f, current)
      decreases current, 0
    {
      var m := current.fields;
      var todo := m.Keys;
      ghost var before := written;
      while todo != {}
        invariant todo <= m.Keys && S.Spells(updates, written)
        invariant RecordedBelow(f, before, written, at, current, m.Keys - todo)
        invariant modified <==> old(modified) || PatchedIn(f, current, m.Keys - todo)
      {
        var key :| key in todo;
        ghost var mid, done := written, m.Keys - todo;
        todo := todo - {key};
        JoinName(currentPath, at, key);
        Traverse(m[key], if currentPath != "" then currentPath + "." + key else key, at + [key]);
        RecordedOneMore(f, before, mid, written, at, current, done, key);
        PatchedAtChild(f, current, done, key);
        assert m.Keys - todo == done + {key};
      }
      RecordedAll(f, before, written, at, current, m.Keys - todo);
      PatchedAtSome(f, current, m.Keys - todo);
    }

    /** `replaceCloudinaryUrls(doc)` and `replaceWrongDomains(doc)`. */
    method Replace(doc: Doc)
      requires doc.Obj? && GoodNames(doc)
      modifies this`updates, this`modified, this`written
      ensures S.Spells(updates, written) && Recorded(f, map[], written, [], doc)
      ensures modified <==> Replaced(f, doc) != doc
    {
      updates, modified, written := map[], false, map[];
      Traverse(doc, "", []);
      if modified {
        ghost var q :| PatchAt(f, doc, q).Some?;
        PatchedIsChanged(f, doc, q);
      } else {
        UnpatchedIsUnchanged(f, doc);
      }
    }
  }

  lemma JoinName(path: string, at: Path, k: string)
    requires GoodName(k) && DotFreePath(at) && (path == "" <==> at == []) && (at != [] ==> path == Dotted(at))
    ensures DotFreePath(at + [k]) && at + [k] != []
    ensures (if path != "" then path + "." + k else k) == Dotted(at + [k])
    ensures (if path != "" then path + "." + k else k) != ""
  {
    if at != [] {
      DottedSnoc(at, k);
    }
  }

  /** Some update is recorded below one of the components `ks`. */
  ghost predicate PatchedIn(f: Rewrite, d: Doc, ks: set<string>) {
    exists k :: k in ks && Step(d, k).Some? && Patched(f, Step(d, k).value)
  }

  lemma PatchedAtChild(f: Rewrite, d: Doc, ks: set<string>, k: string)
    requires Step(d, k).Some?
    ensures PatchedIn(f, d, ks + {k}) <==> PatchedIn(f, d, ks) || Patched(f, Step(d, k).value)
  {
    if Patched(f, Step(d, k).value) {
      assert k in ks + {k};
    }
    if j :| j in ks && Step(d, j).Some? && Patched(f, Step(d, j).value) {
      assert j in ks + {k};
    }
  }

  lemma PatchedAtSome(f: Rewrite, d: Doc, ks: set<string>)
    requires !d.Str? && forall k :: Step(d, k).Some? ==> k in ks
    ensures Patched(f, d) <==> PatchedIn(f, d, ks)
  {
    if q :| PatchAt(f, d, q).Some? {
      assert PatchAt(f, Step(d, q[0]).value, q[1..]).Some?;
      assert q[0] in ks;
    }
    if k :| k in ks && Step(d, k).Some? && Patched(f, Step(d, k).value) {
      var q :| PatchAt(f, Step(d, k).value, q).Some?;
      PatchBelow(f, d, k, q);
    }
  }

  /** The migration of one document end to end: whatever order the server takes the entries in. */
  lemma MigrationRewritesExactly(f: Rewrite, doc: Doc, updates: map<string, Doc>, written: map<Path, Doc>, names: seq<string>)
    requires S.Spells(updates, written) && Recorded(f, map[], written, [], doc)
    requires forall n :: n in names <==> n in updates
    ensures SetAll(doc, S.Entries(updates, names)) == Some(Replaced(f, doc))
  {
    var us := S.Entries(updates, names);
    forall q ensures S.Look(written, q) == PatchAt(f, doc, q) {
      assert q[0..] == q && [] <= q;
    }
    forall q, w | PatchAt(f, doc, q) == Some(w) ensures Entry(q, w) in us {
      assert q in written && Dotted(q) in names;
      var i :| 0 <= i < |names| && names[i] == Dotted(q);
      assert us[i] == Entry(q, w);
    }
    forall q, w | Entry(q, w) in us ensures PatchAt(f, doc, q) == Some(w) {
      var i :| 0 <= i < |us| && us[i] == Entry(q, w);
      assert names[i] in updates;
    }
    UpdatesRewriteExactly(f, doc, us);
  }
}
