/**
  The settings update (backend/app/controller/settingsController.js): a validated nested payload
  is flattened into dotted names and handed to `$set`.
*/
module SettingsUpdate {
  import opened Common
  import opened Documents

  // ---------------------------------------------------------------- what flattening means

  /** The value, if any, that flattening writes for the path `q` below a payload node. */
  function FlatAt(v: Doc, q: Path): Option<Doc>
    decreases |q|
  {
    match v
    case Undefined => None
    case Obj(m) =>
      if m == map[] then (if q == [] then Some(v) else None)
      else if q != [] && q[0] in m then FlatAt(m[q[0]], q[1..])
      else None
    case _ => if q == [] then Some(v) else None
  }

  /** Some value below the node is not `undefined`. */
  ghost predicate Mentions(v: Doc) {
    match v
    case Undefined => false
    case Obj(m) => m == map[] || exists k :: k in m && Mentions(m[k])
    case _ => true
  }

  /**
    The recursive deep merge: objects are merged field by field, anything else in the payload
    (arrays, nulls and empty objects included) replaces whole, `undefined` says nothing. None
    where the payload descends into a stored scalar.
  */
  ghost function DeepMerge(d: Doc, v: Doc): Option<Doc>
    decreases v, 1
  {
    match v
    case Undefined => Some(d)
    case Obj(m) =>
      if m == map[] then Some(v)
      else if forall k :: k in m && Mentions(m[k]) ==> k in MergedFields(d, v) then Some(PutAll(d, MergedFields(d, v)))
      else None
    case _ => Some(v)
  }

  /** The mentioned fields that can be merged into `d`, merged. */
  ghost function MergedFields(d: Doc, v: Doc): map<string, Doc>
    requires v.Obj?
    decreases v, 0
  {
    map k | k in v.fields && Mentions(v.fields[k]) && Slot(d, k).Some? && DeepMerge(Slot(d, k).value, v.fields[k]).Some?
      :: DeepMerge(Slot(d, k).value, v.fields[k]).value
  }

  lemma {:induction false} MentionedPath(v: Doc) returns (q: Path)
    requires Mentions(v)
    ensures FlatAt(v, q).Some?
    decreases v
  {
    if v.Obj? && v.fields != map[] {
      var k :| k in v.fields && Mentions(v.fields[k]);
      var r := MentionedPath(v.fields[k]);
      q := [k] + r;
      assert q[1..] == r;
    } else {
      q := [];
    }
  }

  lemma {:induction false} WrittenIsMentioned(v: Doc, q: Path)
    requires FlatAt(v, q).Some?
    ensures Mentions(v)
    decreases |q|
  {
    if v.Obj? && v.fields != map[] {
      WrittenIsMentioned(v.fields[q[0]], q[1..]);
    }
  }

  lemma MentionsMeaning(v: Doc)
    ensures Mentions(v) <==> exists q :: FlatAt(v, q).Some?
  {
    if Mentions(v) {
      var q := MentionedPath(v);
    }
    if q :| FlatAt(v, q).Some? {
      WrittenIsMentioned(v, q);
    }
  }

  /** No written path is a prefix of another: the server never sees conflicting updates. */
  lemma {:induction false} PathsPrefixFree(v: Doc, p: Path, q: Path)
    requires FlatAt(v, p).Some? && FlatAt(v, q).Some? && p <= q
    ensures p == q
    decreases |p|
  {
    if v.Obj? && v.fields != map[] {
      assert p[0] == q[0] && p[1..] <= q[1..];
      PathsPrefixFree(v.fields[p[0]], p[1..], q[1..]);
      assert p == [p[0]] + p[1..] && q == [q[0]] + q[1..];
    }
  }

  // ---------------------------------------------------------------- applying = merging

  /** `us` lists the flattened payload, in any order. */
  ghost predicate Lists(us: seq<Entry>, v: Doc) {
    forall q, w :: Entry(q, w) in us <==> FlatAt(v, q) == Some(w)
  }

  lemma FlatAtBelow(m: map<string, Doc>, k: string, q: Path)
    requires m != map[]
    ensures FlatAt(Obj(m), [k] + q) == if k in m then FlatAt(m[k], q) else None
  {
    assert ([k] + q)[1..] == q;
  }

  lemma ListedPaths(us: seq<Entry>, m: map<string, Doc>, i: nat)
    requires m != map[] && Lists(us, Obj(m)) && i < |us|
    ensures us[i].path != [] && us[i].path[0] in m && FlatAt(m[us[i].path[0]], us[i].path[1..]) == Some(us[i].value)
  {
    assert us[i] == Entry(us[i].path, us[i].value);
    assert us[i] in us;
  }

  lemma ListsBelow(us: seq<Entry>, m: map<string, Doc>, k: string)
    requires m != map[] && Lists(us, Obj(m)) && k in m
    ensures Lists(Under(us, k), m[k])
  {
    forall q, w ensures Entry(q, w) in Under(us, k) <==> FlatAt(m[k], q) == Some(w) {
      UnderMembers(us, k, q, w);
      FlatAtBelow(m, k, q);
    }
  }

  lemma HeadsListed(us: seq<Entry>, m: map<string, Doc>, k: string)
    requires m != map[] && Lists(us, Obj(m))
    ensures k in Heads(us) <==> k in m && Mentions(m[k])
  {
    if k in m {
      MentionsMeaning(m[k]);
      if Mentions(m[k]) {
        var q :| FlatAt(m[k], q).Some?;
        FlatAtBelow(m, k, q);
        var i :| 0 <= i < |us| && us[i] == Entry([k] + q, FlatAt(m[k], q).value);
        assert us[i].path[0] == k;
      }
    }
    if k in Heads(us) {
      var i :| 0 <= i < |us| && us[i].path != [] && us[i].path[0] == k;
      ListedPaths(us, m, i);
    }
  }

  lemma {:induction false} SetAllConstant(d: Doc, us: seq<Entry>, v: Doc)
    requires forall u :: u in us ==> u == Entry([], v)
    ensures SetAll(d, us) == Some(if us == [] then d else v)
    decreases |us|
  {
    if us != [] {
      assert us[0] in us;
      forall u | u in us[1..] ensures u == Entry([], v) {
        assert u in us;
      }
      SetAllConstant(v, us[1..], v);
    }
  }

  /** The merge of an object, from the merges of the fields it mentions. */
  lemma MergeFromFields(d: Doc, m: map<string, Doc>, heads: set<string>, rs: map<string, Doc>)
    requires m != map[] && rs.Keys <= heads
    requires forall k :: k in heads <==> k in m && Mentions(m[k])
    requires forall k :: k in heads ==>
               (if Slot(d, k).Some? then DeepMerge(Slot(d, k).value, m[k]) else None)
               == (if k in rs then Some(rs[k]) else None)
    ensures DeepMerge(d, Obj(m)) == if rs.Keys == heads then Some(PutAll(d, rs)) else None
  {
    assert MergedFields(d, Obj(m)) == rs;
  }

  /**
    Applying the flattened payload in any order is the deep merge, down to the cases in which
    the server refuses the update.
  */
  lemma {:induction false} ApplyIsMerge(d: Doc, v: Doc, us: seq<Entry>)
    requires Lists(us, v)
    ensures SetAll(d, us) == DeepMerge(d, v)
    decreases v
  {
    if v.Obj? && v.fields != map[] {
      var m := v.fields;
      forall i | 0 <= i < |us| ensures us[i].path != [] {
        ListedPaths(us, m, i);
      }
      SetAllFactors(d, us);
      forall k ensures k in Heads(us) <==> k in m && Mentions(m[k]) {
        HeadsListed(us, m, k);
      }
      forall k | k in m && Slot(d, k).Some? ensures Child(d, us, k) == DeepMerge(Slot(d, k).value, m[k]) {
        ListsBelow(us, m, k);
        ApplyIsMerge(Slot(d, k).value, m[k], Under(us, k));
      }
      assert SetAll(d, us).Some? <==> Results(d, us).Keys == Heads(us);
      MergeFromFields(d, m, Heads(us), Results(d, us));
    } else {
      forall u | u in us ensures u == Entry([], v) && !v.Undefined? {
        assert u == Entry(u.path, u.value);
      }
      SetAllConstant(d, us, v);
      if !v.Undefined? {
        assert FlatAt(v, []) == Some(v);
        assert Entry([], v) in us;
      }
    }
  }

  /** Neither path is a prefix of the other. */
  predicate Apart(p: Path, q: Path) {
    !(p <= q) && !(q <= p)
  }

  /**
    Reading the merged document: a written path holds the written value, and a path apart from
    every written one reads as before, so unmentioned siblings are intact at every depth.
  */
  lemma {:induction false} MergeReads(d: Doc, v: Doc, q: Path)
    requires DeepMerge(d, v).Some?
    ensures FlatAt(v, q).Some? ==> Get(DeepMerge(d, v).value, q) == FlatAt(v, q)
    ensures (forall p :: FlatAt(v, p).Some? ==> Apart(p, q)) ==> Get(DeepMerge(d, v).value, q) == Get(d, q)
    decreases |q|
  {
    if v.Obj? && v.fields != map[] {
      var m := v.fields;
      var cs := MergedFields(d, v);
      if q == [] {
        if Mentions(v) {
          MentionsMeaning(v);
          var p :| FlatAt(v, p).Some?;
          assert !Apart(p, q);
        } else {
          assert cs == map[];
          PutNothing(d);
        }
      } else {
        var k, r := q[0], q[1..];
        assert q == [k] + r;
        if k in m {
          MentionsMeaning(m[k]);
        }
        if k in cs {
          MergeReads(Slot(d, k).value, m[k], r);
          if forall p :: FlatAt(v, p).Some? ==> Apart(p, q) {
            forall p | FlatAt(m[k], p).Some? ensures Apart(p, r) {
              assert ([k] + p)[1..] == p;
              assert FlatAt(v, [k] + p).Some?;
            }
            GetBelow(d, k, r);
          }
        } else {
          FlatAtBelow(m, k, r);
        }
      }
    } else if !v.Undefined? {
      assert FlatAt(v, []).Some? && !Apart([], q);
    }
  }

  // ---------------------------------------------------------------- refusals

  /** The merge is refused exactly when the way to some written path is blocked. */
  lemma {:induction false} MergeRefusedIff(d: Doc, v: Doc)
    ensures DeepMerge(d, v).None? <==> exists p :: FlatAt(v, p).Some? && Blocked(d, p)
    decreases v
  {
    if v.Obj? && v.fields != map[] {
      var m := v.fields;
      if DeepMerge(d, v).None? {
        var k :| k in m && Mentions(m[k]) && k !in MergedFields(d, v);
        var q := BlockedField(d, m, k);
        FlatAtBelow(m, k, q);
      }
      if p :| FlatAt(v, p).Some? && Blocked(d, p) {
        var k, q := p[0], p[1..];
        assert p == [k] + q;
        BlockedBelow(d, k, q);
        FlatAtBelow(m, k, q);
        WrittenIsMentioned(m[k], q);
        if Slot(d, k).Some? {
          MergeRefusedIff(Slot(d, k).value, m[k]);
        }
        assert k in m && Mentions(m[k]) && k !in MergedFields(d, v);
      }
    }
  }

  lemma {:induction false} BlockedField(d: Doc, m: map<string, Doc>, k: string) returns (q: Path)
    requires k in m && Mentions(m[k]) && k !in MergedFields(d, Obj(m))
    ensures FlatAt(m[k], q).Some? && Blocked(d, [k] + q)
    decreases Obj(m), 0
  {
    MentionsMeaning(m[k]);
    if Slot(d, k).None? {
      q :| FlatAt(m[k], q).Some?;
    } else {
      MergeRefusedIff(Slot(d, k).value, m[k]);
      q :| FlatAt(m[k], q).Some? && Blocked(Slot(d, k).value, q);
    }
    BlockedBelow(d, k, q);
  }

  /**
    The flattened payload, in any order, is refused if and only if on the way to a written path
    something stored is neither an object nor an array with the element named next; otherwise every
    written path reads its value, those included that the document did not have, and every path
    apart from them reads as before.
  */
  lemma WrittenOrRefused(d: Doc, v: Doc, us: seq<Entry>)
    requires Lists(us, v)
    ensures SetAll(d, us).None? <==> exists u :: u in us && Blocked(d, u.path)
    ensures SetAll(d, us).Some? ==>
              && (forall u :: u in us ==> Get(SetAll(d, us).value, u.path) == Some(u.value))
              && (forall q :: (forall u :: u in us ==> Apart(u.path, q)) ==> Get(SetAll(d, us).value, q) == Get(d, q))
  {
    ApplyIsMerge(d, v, us);
    MergeRefusedIff(d, v);
    forall u | u in us ensures FlatAt(v, u.path) == Some(u.value) {
      assert u == Entry(u.path, u.value);
    }
    if p :| FlatAt(v, p).Some? && Blocked(d, p) {
      assert Entry(p, FlatAt(v, p).value) in us;
    }
    if SetAll(d, us).Some? {
      forall u | u in us ensures Get(SetAll(d, us).value, u.path) == Some(u.value) {
        MergeReads(d, v, u.path);
      }
      forall q | forall u :: u in us ==> Apart(u.path, q) ensures Get(SetAll(d, us).value, q) == Get(d, q) {
        forall p | FlatAt(v, p).Some? ensures Apart(p, q) {
          assert Entry(p, FlatAt(v, p).value) in us;
        }
        MergeReads(d, v, q);
      }
    }
  }

  // ---------------------------------------------------------------- the flattening itself

  function Look(m: map<Path, Doc>, p: Path): Option<Doc> {
    if p in m then Some(m[p]) else None
  }

  /** The dotted `$set` object says, for the server's reading of its names, what `written` says for paths. */
  ghost predicate Spells(target: map<string, Doc>, written: map<Path, Doc>) {
    && (forall n :: n in target ==>
          Dotted(Components(n)) == n && Components(n) in written && target[n] == written[Components(n)])
    && (forall p :: p in written ==> p != [] && Components(Dotted(p)) == p && Dotted(p) in target)
  }

  lemma SpellsPut(target: map<string, Doc>, written: map<Path, Doc>, n: string, p: Path, v: Doc)
    requires Spells(target, written) && p != [] && n == Dotted(p) && Components(n) == p
    ensures Spells(target[n := v], written[p := v])
  {
    var t, w := target[n := v], written[p := v];
    forall x | x in t ensures Dotted(Components(x)) == x && Components(x) in w && t[x] == w[Components(x)] {
      if x != n {
        assert x in target;
      }
    }
  }

  lemma SpellsOneMore(target: map<string, Doc>, written: map<Path, Doc>, p: Path, v: Doc)
    requires Spells(target, written) && p != [] && DotFreePath(p)
    ensures Spells(target[Dotted(p) := v], written[p := v])
  {
    assert Components(Dotted(p)) == p by {
      assert p == p[..|p| - 1] + [p[|p| - 1]];
      ComponentsOfDotted(p[..|p| - 1], p[|p| - 1]);
    }
    SpellsPut(target, written, Dotted(p), p, v);
  }

  /** `after` is `before` overwritten by the flattened value at and below `at`. */
  ghost predicate Wrote(before: map<Path, Doc>, after: map<Path, Doc>, at: Path, v: Doc) {
    forall p :: Look(after, p) ==
      if at <= p && FlatAt(v, p[|at|..]).Some? then FlatAt(v, p[|at|..]) else Look(before, p)
  }

  /** The same for some of the fields of an object. */
  ghost predicate WroteFields(before: map<Path, Doc>, after: map<Path, Doc>, at: Path, m: map<string, Doc>, keys: set<string>)
    requires keys <= m.Keys
  {
    forall p :: Look(after, p) ==
      if at < p && p[|at|] in keys && FlatAt(m[p[|at|]], p[|at| + 1..]).Some?
      then FlatAt(m[p[|at|]], p[|at| + 1..]) else Look(before, p)
  }

  class SetBuilder {
    var target: map<string, Doc>
    ghost var written: map<Path, Doc>

    constructor ()
      ensures Spells(target, written) && written == map[]
    {
      target := map[];
      written := map[];
    }

    /** `flattenForMongoSet(prefix, value, target)`, where `prefix` spells the path `at`. */
    method FlattenForMongoSet(prefix: string, ghost at: Path, value: Doc)
      requires Spells(target, written)
      requires at != [] && DotFreePath(at) && prefix == Dotted(at) && GoodNames(value)
      modifies this
      ensures Spells(target, written) && Wrote(old(written), written, at, value)
      decreases value
    {
      if value.Undefined? {
        return;
      }
      if !value.Obj? || value.fields == map[] {
        SpellsOneMore(target, written, at, value);
        WroteLeaf(written, at, value);
        target := target[prefix := value];
        written := written[at := value];
        return;
      }
      var m := value.fields;
      var todo := m.Keys;
      ghost var before := written;
      while todo != {}
        invariant todo <= m.Keys && Spells(target, written)
        invariant WroteFields(before, written, at, m, m.Keys - todo)
      {
        var key :| key in todo;
        ghost var done, mid := m.Keys - todo, written;
        todo := todo - {key};
        DottedSnoc(at, key);
        FlattenForMongoSet(prefix + "." + key, at + [key], m[key]);
        assert m.Keys - todo == done + {key};
      }
      WroteWhole(before, written, at, m, m.Keys - todo);
    }

    /** The loop of `updateSettings` over the validated payload. */
    method CollectUpdates(payload: map<string, Doc>)
      requires GoodNames(Obj(payload))
      modifies this
      ensures Spells(target, written)
      ensures WroteFields(map[], written, [], payload, payload.Keys)
    {
      target, written := map[], map[];
      var todo := payload.Keys;
      while todo != {}
        invariant todo <= payload.Keys && Spells(target, written)
        invariant WroteFields(map[], written, [], payload, payload.Keys - todo)
      {
        var key :| key in todo;
        ghost var done, mid := payload.Keys - todo, written;
        todo := todo - {key};
        FlattenForMongoSet(key, [key], payload[key]);
        assert [] + [key] == [key];
        assert payload.Keys - todo == done + {key};
      }
      assert payload.Keys - todo == payload.Keys;
    }
  }

  lemma WroteLeaf(before: map<Path, Doc>, at: Path, v: Doc)
    requires !v.Undefined? && (v.Obj? ==> v.fields == map[])
    ensures Wrote(before, before[at := v], at, v)
  {
    forall p
      ensures Look(before[at := v], p) ==
        if at <= p && FlatAt(v, p[|at|..]).Some? then FlatAt(v, p[|at|..]) else Look(before, p)
    {
      if at <= p {
        assert p == at + p[|at|..];
        assert p[|at|..] == [] <==> p == at;
      }
    }
  }

  lemma WroteWhole(before: map<Path, Doc>, after: map<Path, Doc>, at: Path, m: map<string, Doc>, keys: set<string>)
    requires m != map[] && keys == m.Keys && WroteFields(before, after, at, m, keys)
    ensures Wrote(before, after, at, Obj(m))
  {
    forall p
      ensures Look(after, p) ==
        if at <= p && FlatAt(Obj(m), p[|at|..]).Some? then FlatAt(Obj(m), p[|at|..]) else Look(before, p)
    {
      if at < p {
        assert p[|at|..] == [p[|at|]] + p[|at| + 1..];
        FlatAtBelow(m, p[|at|], p[|at| + 1..]);
      }
    }
  }

  /** The server's reading of a `$set` object, its entries taken in the order of `names`. */
  function Entries(toSet: map<string, Doc>, names: seq<string>): seq<Entry>
    requires forall n :: n in names ==> n in toSet
  {
    seq(|names|, i requires 0 <= i < |names| => Entry(Components(names[i]), toSet[names[i]]))
  }

  /**
    The settings update end to end: whatever order the server takes the collected entries in,
    the stored document becomes its deep merge with the payload.
  */
  lemma SettingsUpdateIsMerge(d: Doc, payload: map<string, Doc>, toSet: map<string, Doc>, written: map<Path, Doc>,
                              names: seq<string>)
    requires payload != map[]
    requires Spells(toSet, written) && WroteFields(map[], written, [], payload, payload.Keys)
    requires forall n :: n in names <==> n in toSet
    ensures SetAll(d, Entries(toSet, names)) == DeepMerge(d, Obj(payload))
    ensures SetAll(d, Entries(toSet, names)).None? <==> exists p :: p in written && Blocked(d, p)
    ensures SetAll(d, Entries(toSet, names)).Some? ==>
              forall p :: p in written ==> Get(SetAll(d, Entries(toSet, names)).value, p) == Some(written[p])
  {
    var us := Entries(toSet, names);
    WroteWhole(map[], written, [], payload, payload.Keys);
    forall q ensures Look(written, q) == FlatAt(Obj(payload), q) {
      assert q[0..] == q;
    }
    forall q, w | FlatAt(Obj(payload), q) == Some(w) ensures Entry(q, w) in us {
      assert q in written && Dotted(q) in names;
      var i :| 0 <= i < |names| && names[i] == Dotted(q);
      assert us[i] == Entry(q, w);
    }
    forall q, w | Entry(q, w) in us ensures FlatAt(Obj(payload), q) == Some(w) {
      var i :| 0 <= i < |us| && us[i] == Entry(q, w);
      assert names[i] in toSet;
    }
    ApplyIsMerge(d, Obj(payload), us);
    MergeRefusedIff(d, Obj(payload));
    if SetAll(d, us).Some? {
      forall p | p in written ensures Get(SetAll(d, us).value, p) == Some(written[p]) {
        MergeReads(d, Obj(payload), p);
      }
    }
  }
}
