/**
  Stored documents and MongoDB's `$set` with dotted paths, as the settings update and the two
  URL migrations use it. A document is a tree; a dotted path names one node of it.
*/
module Documents {
  import opened Common

  datatype Doc =
    | Undefined
    | Null
    | Leaf(tag: int)               // numbers, booleans, dates, object ids: never looked into
    | Str(text: string)
    | Arr(items: seq<Doc>)
    | Obj(fields: map<string, Doc>)

  type Path = seq<string>

  /** One `$set` entry. */
  datatype Entry = Entry(path: Path, value: Doc)

  // ---------------------------------------------------------------- names

  function Digit(d: nat): (c: char)
    requires d < 10
    ensures c != '.' && c as int == 48 + d
  {
    (48 + d) as char
  }

  /** Decimal numerals name array elements. */
  function Decimal(n: nat): (s: string)
    ensures s != "" && forall i :: 0 <= i < |s| ==> s[i] != '.'
  {
    if n < 10 then [Digit(n)] else Decimal(n / 10) + [Digit(n % 10)]
  }

  lemma DecimalLast(n: nat)
    ensures var s := Decimal(n);
            && s[|s| - 1] == Digit(n % 10)
            && (n >= 10 ==> s[..|s| - 1] == Decimal(n / 10) && |s| > 1)
            && (n < 10 ==> |s| == 1)
  {
    if n >= 10 {
      var t := Decimal(n / 10);
      assert (t + [Digit(n % 10)])[..|t|] == t;
    }
  }

  lemma {:induction false} DecimalInjective(i: nat, j: nat)
    requires Decimal(i) == Decimal(j)
    ensures i == j
    decreases i
  {
    DecimalLast(i);
    DecimalLast(j);
    if i >= 10 {
      DecimalInjective(i / 10, j / 10);
    }
  }

  /** The array position, if any, that a path component names in an array of length `n`. */
  function IndexIn(k: string, n: nat): (r: Option<nat>)
    ensures r.Some? ==> r.value < n && Decimal(r.value) == k
    ensures r.None? ==> forall i :: 0 <= i < n ==> Decimal(i) != k
  {
    if n == 0 then None else if Decimal(n - 1) == k then Some(n - 1) else IndexIn(k, n - 1)
  }

  lemma IndexInDecimal(i: nat, n: nat)
    requires i < n
    ensures IndexIn(Decimal(i), n) == Some(i)
  {
    var r := IndexIn(Decimal(i), n);
    DecimalInjective(i, r.value);
  }

  // ---------------------------------------------------------------- one update

  /** The node a path component leads to: a missing field of an object counts as an empty object
      about to be created; scalars and absent array positions lead nowhere. */
  function Slot(d: Doc, k: string): Option<Doc> {
    match d
    case Obj(m) => Some(if k in m then m[k] else Obj(map[]))
    case Arr(xs) => (match IndexIn(k, |xs|) case Some(i) => Some(xs[i]) case None => None)
    case _ => None
  }

  function Put(d: Doc, k: string, v: Doc): Doc
    requires Slot(d, k).Some?
  {
    match d
    case Obj(m) => Obj(m[k := v])
    case Arr(xs) => Arr(xs[IndexIn(k, |xs|).value := v])
  }

  /** `$set: { path: v }`; None when the server refuses because the path runs through a scalar. */
  function SetAt(d: Doc, p: Path, v: Doc): Option<Doc>
    decreases |p|
  {
    if p == [] then Some(v)
    else match Slot(d, p[0])
      case None => None
      case Some(c) =>
        match SetAt(c, p[1..], v)
        case None => None
        case Some(c') => Some(Put(d, p[0], c'))
  }

  function SetAll(d: Doc, us: seq<Entry>): Option<Doc>
    decreases |us|
  {
    if us == [] then Some(d)
    else match SetAt(d, us[0].path, us[0].value)
      case None => None
      case Some(d') => SetAll(d', us[1..])
  }

  /** The plain read of a path, with no creation on the way. */
  function Get(d: Doc, p: Path): Option<Doc>
    decreases |p|
  {
    if p == [] then Some(d)
    else if d.Obj? && p[0] in d.fields then Get(d.fields[p[0]], p[1..])
    else if d.Arr? && IndexIn(p[0], |d.items|).Some? then Get(d.items[IndexIn(p[0], |d.items|).value], p[1..])
    else None
  }

  /** On its way down, `p` meets something that is stored and neither an object nor an array with
      the element named next. */
  ghost predicate Blocked(d: Doc, p: Path) {
    exists i :: 0 <= i < |p| && Get(d, p[..i]).Some? && !Get(d, p[..i]).value.Obj? && Get(d, p[..i + 1]).None?
  }

  /** The component names something that is stored. */
  predicate Has(d: Doc, k: string) {
    (d.Obj? && k in d.fields) || (d.Arr? && IndexIn(k, |d.items|).Some?)
  }

  lemma GetBelow(d: Doc, k: string, q: Path)
    ensures Has(d, k) ==> Slot(d, k).Some? && Get(d, [k] + q) == Get(Slot(d, k).value, q)
    ensures !Has(d, k) ==> Get(d, [k] + q).None? && Slot(d, k) == if d.Obj? then Some(Obj(map[])) else None
  {
    assert ([k] + q)[1..] == q;
  }

  lemma GetOne(d: Doc, k: string)
    ensures Get(d, [k]).Some? <==> Has(d, k)
  {
    assert [k] == [k] + [];
    GetBelow(d, k, []);
  }

  /** Nothing blocks the way through an object that is only about to be created. */
  lemma NothingBlocks(q: Path)
    ensures !Blocked(Obj(map[]), q)
  {
    forall i | 0 <= i < |q| && Get(Obj(map[]), q[..i]).Some? ensures i == 0 {
    }
  }

  lemma BlockedBelow(d: Doc, k: string, q: Path)
    ensures Blocked(d, [k] + q) <==> Slot(d, k).None? || Blocked(Slot(d, k).value, q)
  {
    var p := [k] + q;
    assert p[..0] == [] && p[..1] == [k];
    forall i | 1 <= i <= |p| ensures p[..i] == [k] + q[..i - 1] {
    }
    if Blocked(d, p) && Slot(d, k).Some? {
      var i :| 0 <= i < |p| && Get(d, p[..i]).Some? && !Get(d, p[..i]).value.Obj? && Get(d, p[..i + 1]).None?;
      GetOne(d, k);
      assert i > 0;
      GetBelow(d, k, q[..i - 1]);
      GetBelow(d, k, q[..i]);
      assert Blocked(Slot(d, k).value, q);
    }
    if Slot(d, k).None? {
      GetOne(d, k);
      assert !d.Obj? && Get(d, p[..0]) == Some(d) && Get(d, p[..0 + 1]).None?;
    } else if Blocked(Slot(d, k).value, q) {
      var c := Slot(d, k).value;
      var j :| 0 <= j < |q| && Get(c, q[..j]).Some? && !Get(c, q[..j]).value.Obj? && Get(c, q[..j + 1]).None?;
      if !Has(d, k) {
        NothingBlocks(q);
      }
      GetBelow(d, k, q[..j]);
      GetBelow(d, k, q[..j + 1]);
      assert p[..j + 1] == [k] + q[..j] && p[..j + 1 + 1] == [k] + q[..j + 1];
    }
  }

  /** One `$set` is refused exactly when its path is blocked, creates what is missing on the way
      otherwise, and then the path reads the value. */
  lemma {:induction false} SetAtWrites(d: Doc, p: Path, v: Doc)
    ensures SetAt(d, p, v).None? <==> Blocked(d, p)
    ensures SetAt(d, p, v).Some? ==> Get(SetAt(d, p, v).value, p) == Some(v)
    decreases |p|
  {
    if p != [] {
      var k, q := p[0], p[1..];
      assert p == [k] + q;
      BlockedBelow(d, k, q);
      if Slot(d, k).Some? {
        SetAtWrites(Slot(d, k).value, q, v);
        if SetAt(d, p, v).Some? {
          var c := SetAt(Slot(d, k).value, q, v).value;
          SlotAfterPut(d, k, c, k);
          GetBelow(Put(d, k, c), k, q);
        }
      }
    }
  }

  lemma SlotAfterPut(d: Doc, k: string, v: Doc, j: string)
    requires Slot(d, k).Some?
    ensures Slot(Put(d, k, v), j) == if j == k then Some(v) else Slot(d, j)
  {
  }

  // ---------------------------------------------------------------- many updates at once

  /** The updates below component `k`, with that component taken off. */
  function Under(us: seq<Entry>, k: string): seq<Entry> {
    if us == [] then []
    else if us[0].path != [] && us[0].path[0] == k then [Entry(us[0].path[1..], us[0].value)] + Under(us[1..], k)
    else Under(us[1..], k)
  }

  lemma {:induction false} UnderMembers(us: seq<Entry>, k: string, q: Path, v: Doc)
    ensures Entry(q, v) in Under(us, k) <==> Entry([k] + q, v) in us
    decreases |us|
  {
    if us != [] {
      UnderMembers(us[1..], k, q, v);
      if us[0].path != [] && us[0].path[0] == k {
        assert us[0].path == [k] + us[0].path[1..];
        assert ([k] + q)[1..] == q;
      }
      assert us == [us[0]] + us[1..];
    }
  }

  /** The first components in use. */
  function Heads(us: seq<Entry>): set<string> {
    set i | 0 <= i < |us| && us[i].path != [] :: us[i].path[0]
  }

  /** What the updates below `k` make of the node at `k`. */
  function Child(d: Doc, us: seq<Entry>, k: string): Option<Doc> {
    match Slot(d, k) case None => None case Some(c) => SetAll(c, Under(us, k))
  }

  /** Several nodes of one object or array replaced together. */
  function PutAll(d: Doc, cs: map<string, Doc>): Doc {
    match d
    case Obj(m) => Obj(m + cs)
    case Arr(xs) => Arr(seq(|xs|, i requires 0 <= i < |xs| => if Decimal(i) in cs then cs[Decimal(i)] else xs[i]))
    case _ => d
  }

  lemma PutThenPutAll(d: Doc, k: string, v: Doc, cs: map<string, Doc>)
    requires Slot(d, k).Some?
    ensures PutAll(Put(d, k, v), cs) == PutAll(d, if k in cs then cs else cs[k := v])
  {
    if d.Obj? {
      assert d.fields[k := v] + cs == d.fields + if k in cs then cs else cs[k := v];
    } else {
      var j := IndexIn(k, |d.items|).value;
      var l, r := PutAll(Put(d, k, v), cs), PutAll(d, if k in cs then cs else cs[k := v]);
      forall i | 0 <= i < |d.items| ensures l.items[i] == r.items[i] {
        if i != j && Decimal(i) == k {
          DecimalInjective(i, j);
        }
      }
      assert l.items == r.items;
    }
  }

  lemma PutNothing(d: Doc)
    ensures PutAll(d, map[]) == d
  {
    if d.Obj? {
      assert d.fields + map[] == d.fields;
    } else if d.Arr? {
      assert PutAll(d, map[]).items == d.items;
    }
  }

  /**
    Updates with non-empty paths act on each first component separately: they go through iff
    they go through below every component in use, and then each such node holds its own result
    while every other node is untouched. Nothing on the right depends on how updates of
    different components are interleaved.
  */
  lemma {:induction false} SetAllFactors(d: Doc, us: seq<Entry>)
    requires forall i :: 0 <= i < |us| ==> us[i].path != []
    ensures SetAll(d, us).Some? <==> forall k :: k in Heads(us) ==> Child(d, us, k).Some?
    ensures SetAll(d, us).Some? ==> SetAll(d, us).value == PutAll(d, Results(d, us))
    decreases |us|
  {
    if us == [] {
      PutNothing(d);
      assert Results(d, us) == map[];
    } else {
      var k0, rest := us[0].path[0], us[1..];
      HeadsCons(us);
      var one := SetAt(d, us[0].path, us[0].value);
      if one.Some? {
        var d1 := one.value;
        SetAllFactors(d1, rest);
        forall k ensures Child(d1, rest, k) == Child(d, us, k) {
          ChildCons(d, us, k);
        }
        var c0 := SetAt(Slot(d, k0).value, us[0].path[1..], us[0].value).value;
        SlotAfterPut(d, k0, c0, k0);
        IdleChild(d1, rest, k0);
        if SetAll(d, us).Some? {
          PutThenResults(d, k0, c0, Results(d1, rest), Results(d, us));
        }
      } else {
        assert Child(d, us, k0).None?;
      }
    }
  }

  /** The new nodes, for every component below which the updates go through. */
  function Results(d: Doc, us: seq<Entry>): map<string, Doc> {
    map k | k in Heads(us) && Child(d, us, k).Some? :: Child(d, us, k).value
  }

  lemma HeadsCons(us: seq<Entry>)
    requires us != [] && us[0].path != []
    ensures Heads(us) == {us[0].path[0]} + Heads(us[1..])
  {
    var rest := us[1..];
    forall k | k in Heads(us) ensures k in {us[0].path[0]} + Heads(rest) {
      var i :| 0 <= i < |us| && us[i].path != [] && us[i].path[0] == k;
      assert i > 0 ==> rest[i - 1] == us[i];
    }
    forall k | k in Heads(rest) ensures k in Heads(us) {
      var i :| 0 <= i < |rest| && rest[i].path != [] && rest[i].path[0] == k;
      assert us[i + 1] == rest[i];
    }
  }

  /** Doing the first update and then the rest below `k` is doing all of them below `k`. */
  lemma ChildCons(d: Doc, us: seq<Entry>, k: string)
    requires us != [] && us[0].path != [] && SetAt(d, us[0].path, us[0].value).Some?
    ensures Child(SetAt(d, us[0].path, us[0].value).value, us[1..], k) == Child(d, us, k)
  {
    var k0 := us[0].path[0];
    SlotAfterPut(d, k0, SetAt(Slot(d, k0).value, us[0].path[1..], us[0].value).value, k);
    if k == k0 {
      assert Under(us, k)[1..] == Under(us[1..], k);
    }
  }

  lemma PutThenResults(d: Doc, k0: string, c0: Doc, rest: map<string, Doc>, all: map<string, Doc>)
    requires Slot(d, k0).Some?
    requires all.Keys == rest.Keys + {k0}
    requires forall k :: k in rest ==> all[k] == rest[k]
    requires k0 !in rest ==> all[k0] == c0
    ensures PutAll(Put(d, k0, c0), rest) == PutAll(d, all)
  {
    PutThenPutAll(d, k0, c0, rest);
    assert all == if k0 in rest then rest else rest[k0 := c0];
  }

  /** A component no update starts with keeps its node. */
  lemma IdleChild(d: Doc, us: seq<Entry>, k: string)
    ensures k !in Heads(us) ==> Child(d, us, k) == Slot(d, k)
  {
    UnderNone(us, k);
  }

  lemma {:induction false} UnderNone(us: seq<Entry>, k: string)
    ensures k in Heads(us) <==> Under(us, k) != []
    decreases |us|
  {
    if us != [] {
      UnderNone(us[1..], k);
      if k in Heads(us) && !(us[0].path != [] && us[0].path[0] == k) {
        var i :| 0 <= i < |us| && us[i].path != [] && us[i].path[0] == k;
        assert us[1..][i - 1] == us[i];
        assert k in Heads(us[1..]);
      }
      if k in Heads(us[1..]) {
        var i :| 0 <= i < |us[1..]| && us[1..][i].path != [] && us[1..][i].path[0] == k;
        assert us[i + 1] == us[1..][i];
      }
      if us[0].path != [] && us[0].path[0] == k {
        assert k in Heads(us);
      }
    }
  }

  // ---------------------------------------------------------------- dotted names

  predicate DotFree(k: string) {
    forall i :: 0 <= i < |k| ==> k[i] != '.'
  }

  predicate DotFreePath(p: Path) {
    forall i :: 0 <= i < |p| ==> DotFree(p[i])
  }

  /** Field names the drivers accept in a dotted path: no dot inside, not empty. */
  predicate GoodName(k: string) {
    k != "" && DotFree(k)
  }

  ghost predicate GoodNames(d: Doc) {
    match d
    case Obj(m) => forall k :: k in m ==> GoodName(k) && GoodNames(m[k])
    case Arr(xs) => forall i :: 0 <= i < |xs| ==> GoodNames(xs[i])
    case _ => true
  }

  function Dotted(p: Path): string
    requires p != []
  {
    if |p| == 1 then p[0] else Dotted(p[..|p| - 1]) + "." + p[|p| - 1]
  }

  /** How the server reads a dotted name: split at every dot. */
  function Components(s: string): (p: Path)
    ensures p != []
  {
    if s == "" then [""]
    else
      var p := Components(s[..|s| - 1]);
      if s[|s| - 1] == '.' then p + [""]
      else p[..|p| - 1] + [p[|p| - 1] + [s[|s| - 1]]]
  }

  lemma ComponentsPush(s: string, c: char)
    requires c != '.'
    ensures var p := Components(s); Components(s + [c]) == p[..|p| - 1] + [p[|p| - 1] + [c]]
  {
    assert (s + [c])[..|s|] == s;
  }

  lemma {:induction false} ComponentsAppend(s: string, k: string)
    requires DotFree(k)
    ensures var p := Components(s); Components(s + k) == p[..|p| - 1] + [p[|p| - 1] + k]
    decreases |k|
  {
    var p := Components(s);
    var front, last := p[..|p| - 1], p[|p| - 1];
    if k == "" {
      assert s + k == s && last + k == last && p == front + [last];
    } else {
      var k', c := k[..|k| - 1], k[|k| - 1];
      ComponentsAppend(s, k');
      ComponentsPush(s + k', c);
      var t := front + [last + k'];
      assert t[..|t| - 1] == front && t[|t| - 1] == last + k';
      assert s + k == s + k' + [c] && last + k' + [c] == last + k;
    }
  }

  lemma ComponentsExtend(front: Path, s: string, k: string)
    requires DotFree(k) && Components(s) == front
    ensures Components(s + "." + k) == front + [k]
  {
    ComponentsAppend(s + ".", k);
    var p := front + [""];
    assert p[..|p| - 1] == front && p[|p| - 1] + k == k;
  }

  lemma ComponentsSingle(k: string)
    requires DotFree(k)
    ensures Components(k) == [k]
  {
    ComponentsAppend("", k);
    assert "" + k == k;
  }

  lemma DottedSnoc(front: Path, k: string)
    requires front != []
    ensures Dotted(front + [k]) == Dotted(front) + "." + k
  {
    assert (front + [k])[..|front|] == front;
  }

  /** Dot-free names survive the round trip through a dotted name. */
  lemma {:induction false} ComponentsOfDotted(front: Path, k: string)
    requires DotFreePath(front) && DotFree(k)
    ensures Components(Dotted(front + [k])) == front + [k]
    decreases |front|
  {
    if front == [] {
      ComponentsSingle(k);
    } else {
      var f, j := front[..|front| - 1], front[|front| - 1];
      assert front == f + [j];
      ComponentsOfDotted(f, j);
      DottedSnoc(front, k);
      ComponentsExtend(front, Dotted(front), k);
    }
  }
}
