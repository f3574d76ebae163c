/**
  What the category handlers accept and what they store, as functions of the collection, and
  the properties of every sequence of requests.
*/
module CategoryRequests {
  import opened Common
  import opened CategoryForest

  /** The request's `type`: left out, one of the three, or any other text. */
  datatype KindArg = NoKind | Named(kind: Kind) | Unknown

  /** The request's `parentId` after `normalizeParentId`; `Given(None)` is null. */
  datatype ParentArg = NoParent | Given(parent: Option<Id>) | Malformed

  /** `id` is the identifier the database generates for the new document. */
  datatype Creation = Creation(id: Id, kind: KindArg, parent: ParentArg, active: bool, slug: string)

  datatype Patch = Patch(kind: KindArg, parent: ParentArg, active: Option<bool>, slug: Option<string>)

  datatype Request = Create(c: Creation) | Update(id: Id, u: Patch) | Delete(target: Id)

  // ---------------------------------------------------------------- acceptance and effect

  predicate ParentFits(s: Store, kind: Kind, parent: Option<Id>) {
    match kind
    case Header => true
    case Category => parent.Some? && parent.value in s && s[parent.value].kind == Header
    case Subcategory => parent.Some? && parent.value in s && s[parent.value].kind == Category
  }

  predicate SlugTaken(s: Store, slug: string, owners: set<Id>) {
    exists x :: x in s && x !in owners && s[x].slug == slug
  }

  function CreationParent(c: Creation): Option<Id> {
    if c.parent.Given? then c.parent.parent else None
  }

  ghost predicate CreateAccepted(s: Store, c: Creation) {
    && !c.parent.Malformed? && c.kind.Named?
    && ParentFits(s, c.kind.kind, CreationParent(c))
    && !SlugTaken(s, c.slug, {})
    && (c.active ==> !ActiveAtOrAbove(s, CreationParent(c)))
  }

  function CreatedNode(c: Creation): Node
    requires c.kind.Named?
  {
    Node(c.kind.kind, CreationParent(c), c.active, c.slug)
  }

  function NewKind(was: Node, u: Patch): Kind {
    if u.kind.Named? then u.kind.kind else was.kind
  }

  function NewParent(was: Node, u: Patch): Option<Id> {
    if u.parent.Given? then u.parent.parent else was.parent
  }

  /** The document after `$set`. */
  function Patched(was: Node, u: Patch): Node {
    Node(NewKind(was, u), NewParent(was, u),
         if u.active.Some? then u.active.value else was.active,
         if u.slug.Some? then u.slug.value else was.slug)
  }

  ghost predicate UpdateAccepted(s: Store, id: Id, u: Patch) {
    && id in s && !u.parent.Malformed? && !u.kind.Unknown?
    && ParentFits(s, NewKind(s[id], u), NewParent(s[id], u))
    && (u.active == Some(true) ==> !ActiveAtOrAbove(s, NewParent(s[id], u)) && !ActiveBelow(s, id))
    && (u.slug.Some? ==> !SlugTaken(s, u.slug.value, {id}))
  }

  /** What is left once everything at or below one of the roots is gone. */
  ghost function Pruned(s: Store, roots: set<Id>): Store {
    map x | x in s && (forall r :: r in roots ==> !AtOrAbove(s, r, x)) :: s[x]
  }

  ghost function Apply(s: Store, r: Request): Store {
    match r
    case Create(c) => if CreateAccepted(s, c) then s[c.id := CreatedNode(c)] else s
    case Update(id, u) => if UpdateAccepted(s, id, u) then s[id := Patched(s[id], u)] else s
    case Delete(id) => Pruned(s, {id})
  }

  ghost function Run(s: Store, rs: seq<Request>): Store
    decreases |rs|
  {
    if rs == [] then s else Run(Apply(s, rs[0]), rs[1..])
  }

  /** A generated identifier occurs nowhere in the collection, nor in the request it serves. */
  predicate FreshId(s: Store, c: Creation) {
    && c.id !in s && CreationParent(c) != Some(c.id)
    && Childless(s, c.id)
  }

  // ---------------------------------------------------------------- what is accepted, what is stored

  /** The level of a category: a header is a root, everything else hangs one level below its parent. */
  function Level(k: Kind): nat {
    match k case Header => 0 case Category => 1 case Subcategory => 2
  }

  lemma ParentFitsIff(s: Store, kind: Kind, parent: Option<Id>)
    ensures ParentFits(s, kind, parent) <==>
            kind == Header || (parent.Some? && parent.value in s && Level(s[parent.value].kind) + 1 == Level(kind))
  {
  }

  /**
    A creation is accepted if and only if the parent id is well formed and the type known, a
    category that is not a header hangs one level below its parent, nobody has the slug, and no
    category at or above the parent is active if the new one is.
  */
  lemma CreateAcceptedIff(s: Store, c: Creation)
    ensures CreateAccepted(s, c) <==>
            && c.parent != Malformed && c.kind != NoKind && c.kind != Unknown
            && var p := if c.parent.Given? then c.parent.parent else None;
               && (c.kind == Named(Header) || (p.Some? && p.value in s && Level(s[p.value].kind) + 1 == Level(c.kind.kind)))
               && (forall x :: x in s ==> s[x].slug != c.slug)
               && (c.active && p.Some? ==> forall a :: a in s && AtOrAbove(s, a, p.value) ==> !s[a].active)
  {
    if c.kind.Named? {
      ParentFitsIff(s, c.kind.kind, CreationParent(c));
    }
  }

  /**
    An update is accepted if and only if the category exists, what it gives is well formed, the
    category then hangs one level below its parent or is a header, no other category has the slug
    it gives, and if it activates, no category at or above its parent and none below it is active.
  */
  lemma UpdateAcceptedIff(s: Store, id: Id, u: Patch)
    ensures UpdateAccepted(s, id, u) <==>
            && id in s && u.parent != Malformed && u.kind != Unknown
            && var kind := if u.kind.Named? then u.kind.kind else s[id].kind;
               var p := if u.parent.Given? then u.parent.parent else s[id].parent;
               && (kind == Header || (p.Some? && p.value in s && Level(s[p.value].kind) + 1 == Level(kind)))
               && (u.slug.Some? ==> forall x :: x in s && s[x].slug == u.slug.value ==> x == id)
               && (u.active == Some(true) ==>
                     forall a :: a in s && s[a].active ==> !(p.Some? && AtOrAbove(s, a, p.value)) && !Above(s, id, a))
  {
    if id in s {
      ParentFitsIff(s, NewKind(s[id], u), NewParent(s[id], u));
    }
  }

  /** An accepted creation stores the request as it came and touches no other document. */
  lemma CreateStores(s: Store, c: Creation)
    requires CreateAccepted(s, c)
    ensures var t := Apply(s, Create(c));
            && t.Keys == s.Keys + {c.id} && (forall x :: x in s && x != c.id ==> t[x] == s[x])
            && t[c.id].active == c.active && t[c.id].slug == c.slug && c.kind == Named(t[c.id].kind)
            && (c.parent.Given? ==> c.parent.parent == t[c.id].parent) && (!c.parent.Given? ==> t[c.id].parent.None?)
  {
  }

  /** An accepted update stores every field it gives, keeps every field it leaves out, and touches
      no other document. */
  lemma UpdateStores(s: Store, id: Id, u: Patch)
    requires UpdateAccepted(s, id, u)
    ensures var t := Apply(s, Update(id, u));
            && t.Keys == s.Keys && (forall x :: x in s && x != id ==> t[x] == s[x])
            && t[id].active == (if u.active.Some? then u.active.value else s[id].active)
            && t[id].kind == (if u.kind.Named? then u.kind.kind else s[id].kind)
            && t[id].parent == (if u.parent.Given? then u.parent.parent else s[id].parent)
            && t[id].slug == (if u.slug.Some? then u.slug.value else s[id].slug)
  {
  }

  predicate SlugsApart(s: Store) {
    forall x, y :: x in s && y in s && s[x].slug == s[y].slug ==> x == y
  }

  /** Over every run, whatever is created, renamed and deleted, no two categories share a slug. */
  lemma {:induction false} RunsKeepSlugsApart(s: Store, rs: seq<Request>)
    requires SlugsApart(s)
    ensures SlugsApart(Run(s, rs))
    decreases |rs|
  {
    if rs != [] {
      RunsKeepSlugsApart(Apply(s, rs[0]), rs[1..]);
    }
  }

  // ---------------------------------------------------------------- deletion

  lemma {:induction false} ClimbsPruned(s: Store, roots: set<Id>, x: Id, a: Id, n: nat)
    requires x in Pruned(s, roots)
    ensures Climbs(Pruned(s, roots), x, a, n) <==> Climbs(s, x, a, n)
    decreases n
  {
    if n > 0 && s[x].parent.Some? {
      var p := s[x].parent.value;
      forall r | r in roots ensures !AtOrAbove(s, r, p) {
        AboveByParent(s, r, x);
        AtOrAboveSplit(s, r, x);
      }
      if p in s {
        ClimbsPruned(s, roots, p, a, n - 1);
      }
    }
  }

  lemma AbovePruned(s: Store, roots: set<Id>, a: Id, x: Id)
    requires x in Pruned(s, roots)
    ensures Above(Pruned(s, roots), a, x) <==> Above(s, a, x)
    ensures AtOrAbove(Pruned(s, roots), a, x) <==> AtOrAbove(s, a, x)
  {
    var t := Pruned(s, roots);
    forall n: nat ensures Climbs(t, x, a, n) <==> Climbs(s, x, a, n) {
      ClimbsPruned(s, roots, x, a, n);
    }
  }

  /**
    Deletion removes exactly the category and its descendants, leaves every other document and
    its ancestors as they were, and cuts no surviving document off from a stored parent.
  */
  lemma DeleteIsExact(s: Store, id: Id)
    ensures var t := Apply(s, Delete(id));
            && (forall x :: x in t <==> x in s && x != id && !Above(s, id, x))
            && (forall x :: x in t ==> t[x] == s[x])
            && (forall x :: x in t && t[x].parent.Some? && t[x].parent.value in s ==> t[x].parent.value in t)
            && (forall a, x :: x in t ==> (Above(t, a, x) <==> Above(s, a, x)))
  {
    var t := Pruned(s, {id});
    forall x ensures x in t <==> x in s && x != id && !Above(s, id, x) {
      AtOrAboveSplit(s, id, x);
    }
    forall x | x in t && t[x].parent.Some? && t[x].parent.value in s ensures t[x].parent.value in t {
      AboveByParent(s, id, x);
      AtOrAboveSplit(s, id, x);
    }
    forall a, x | x in t ensures Above(t, a, x) <==> Above(s, a, x) {
      AbovePruned(s, {id}, a, x);
    }
  }

  // ---------------------------------------------------------------- one update, exactly

  /**
    An accepted update keeps the collection acyclic exactly when the new parent does not lie in
    the category's own subtree. The handler does not look.
  */
  lemma UpdateKeepsAcyclicIff(s: Store, id: Id, u: Patch)
    requires Acyclic(s) && UpdateAccepted(s, id, u)
    ensures var p := NewParent(s[id], u);
            Acyclic(Apply(s, Update(id, u))) <==> !(p.Some? && AtOrAbove(s, id, p.value))
  {
    var p, node := NewParent(s[id], u), Patched(s[id], u);
    var t := s[id := node];
    assert t == Apply(s, Update(id, u));
    if p.Some? && AtOrAbove(s, id, p.value) {
      var n: nat :| Climbs(s, p.value, id, n);
      assert Climbs(s, id, id, 0);
      ClimbsInto(s, id, node, p.value, id, n);
      assert Climbs(t, id, id, n + 1);
      assert Above(t, id, id);
    } else {
      forall x | x in t ensures !Above(t, x, x) {
        PutKeepsAcyclic(s, id, node, x);
      }
    }
  }

  lemma PutKeepsAcyclic(s: Store, id: Id, node: Node, x: Id)
    requires Acyclic(s) && x in s[id := node]
    requires node.parent.Some? ==> !AtOrAbove(s, id, node.parent.value)
    ensures !Above(s[id := node], x, x)
  {
    AboveAfterPut(s, id, node, x, x);
    if AtOrAbove(s, id, x) && node.parent.Some? && AtOrAbove(s, x, node.parent.value) {
      AboveTransitive(s, id, x, node.parent.value);
    }
    AboveByParent(s, x, x);
  }

  /**
    An accepted, acyclic update of an exclusive collection keeps it exclusive exactly when the
    two searches the handler runs on activation would not both have something to complain
    about: an active category at or above the new parent, and an active one at or below `id`.
    Without activation the handler runs neither.
  */
  lemma UpdateKeepsExclusiveIff(s: Store, id: Id, u: Patch)
    requires Acyclic(s) && Exclusive(s) && UpdateAccepted(s, id, u)
    requires Acyclic(Apply(s, Update(id, u)))
    ensures var node := Patched(s[id], u);
            Exclusive(Apply(s, Update(id, u))) <==>
            !(ActiveAtOrAbove(s, node.parent) && (node.active || ActiveBelow(s, id)))
  {
    var node := Patched(s[id], u);
    var t := s[id := node];
    UpdateKeepsAcyclicIff(s, id, u);
    assert Climbs(s, id, id, 0);
    if ActiveAtOrAbove(s, node.parent) && (node.active || ActiveBelow(s, id)) {
      var a :| a in s && s[a].active && AtOrAbove(s, a, node.parent.value);
      var d := id;
      if !node.active {
        d :| d in s && s[d].active && Above(s, id, d);
      }
      AboveAfterPut(s, id, node, a, d);
      assert Above(t, a, d) && a != id;
    } else {
      forall a, d | a in t && d in t && Above(t, a, d) && t[a].active ensures !t[d].active {
        AboveAfterPut(s, id, node, a, d);
        AtOrAboveSplit(s, id, d);
        AtOrAboveSplit(s, id, a);
        if AtOrAbove(s, id, d) && node.parent.Some? && AtOrAbove(s, a, node.parent.value) {
          assert a != id;
          assert ActiveAtOrAbove(s, node.parent);
        }
      }
    }
  }

  /** Updates that activate, or that leave the parent alone, meet that condition. */
  lemma UpdateKeepsExclusive(s: Store, id: Id, u: Patch)
    requires Acyclic(s) && Exclusive(s) && UpdateAccepted(s, id, u)
    requires Acyclic(Apply(s, Update(id, u)))
    requires u.active == Some(true) || NewParent(s[id], u) == s[id].parent
    ensures Exclusive(Apply(s, Update(id, u)))
  {
    var node := Patched(s[id], u);
    UpdateKeepsExclusiveIff(s, id, u);
    if u.active != Some(true) {
      if ActiveAtOrAbove(s, node.parent) && (node.active || ActiveBelow(s, id)) {
        var a :| a in s && s[a].active && AtOrAbove(s, a, node.parent.value);
        AboveByParent(s, a, id);
        if !node.active {
          var d :| d in s && s[d].active && Above(s, id, d);
          AtOrAboveSplit(s, id, d);
          AtOrAboveSplit(s, a, id);
          AboveTransitive(s, a, id, d);
        }
        assert false;
      }
    }
  }

  // ---------------------------------------------------------------- whole runs

  /** What the handlers leave to their callers: fresh identifiers, no parent inside the own subtree,
      and every update either activates or keeps the parent. */
  ghost predicate Careful(s: Store, r: Request) {
    match r
    case Create(c) => FreshId(s, c)
    case Update(id, u) =>
      UpdateAccepted(s, id, u) ==>
        && (NewParent(s[id], u).Some? ==> !AtOrAbove(s, id, NewParent(s[id], u).value))
        && (u.active == Some(true) || NewParent(s[id], u) == s[id].parent)
    case Delete(_) => true
  }

  ghost predicate CarefulRun(s: Store, rs: seq<Request>)
    decreases |rs|
  {
    rs == [] || (Careful(s, rs[0]) && CarefulRun(Apply(s, rs[0]), rs[1..]))
  }

  lemma CreateKeepsExclusive(s: Store, c: Creation)
    requires Acyclic(s) && Exclusive(s) && FreshId(s, c) && CreateAccepted(s, c)
    ensures Acyclic(Apply(s, Create(c))) && Exclusive(Apply(s, Create(c)))
  {
    var node := CreatedNode(c);
    var t := s[c.id := node];
    forall x ensures AtOrAbove(s, c.id, x) ==> x == c.id {
      Unmentioned(s, c.id, x);
    }
    forall x | x in t ensures !Above(t, x, x) {
      PutKeepsAcyclic(s, c.id, node, x);
    }
    forall a, d | a in t && d in t && Above(t, a, d) && t[a].active ensures !t[d].active {
      AboveAfterPut(s, c.id, node, a, d);
      if a == c.id {
        AtOrAboveSplit(s, c.id, d);
        AboveByParent(s, a, d);
      } else if AtOrAbove(s, c.id, d) {
        AboveByParent(s, a, d);
        assert t[d].active ==> ActiveAtOrAbove(s, node.parent);
      }
    }
  }

  lemma Unmentioned(s: Store, id: Id, x: Id)
    requires Childless(s, id)
    ensures AtOrAbove(s, id, x) ==> x == id
  {
    if AtOrAbove(s, id, x) {
      var n: nat :| Climbs(s, x, id, n);
      if n >= 1 {
        var c := TopLink(s, x, id, n);
        assert false;
      }
    }
  }

  lemma StepKeepsExclusive(s: Store, r: Request)
    requires Acyclic(s) && Exclusive(s) && Careful(s, r)
    ensures Acyclic(Apply(s, r)) && Exclusive(Apply(s, r))
  {
    match r
    case Create(c) =>
      if CreateAccepted(s, c) {
        CreateKeepsExclusive(s, c);
      }
    case Update(id, u) =>
      if UpdateAccepted(s, id, u) {
        UpdateKeepsAcyclicIff(s, id, u);
        UpdateKeepsExclusive(s, id, u);
      }
    case Delete(id) =>
      DeleteIsExact(s, id);
  }

  /** Over every careful run no commission-active category has a commission-active ancestor. */
  lemma {:induction false} RunsStayExclusive(s: Store, rs: seq<Request>)
    requires Acyclic(s) && Exclusive(s) && CarefulRun(s, rs)
    ensures Acyclic(Run(s, rs)) && Exclusive(Run(s, rs))
    decreases |rs|
  {
    if rs != [] {
      StepKeepsExclusive(s, rs[0]);
      RunsStayExclusive(Apply(s, rs[0]), rs[1..]);
    }
  }

  // ---------------------------------------------------------------- the three-level forest

  /** Headers are roots, categories hang under headers, subcategories under categories. */
  predicate TypedForest(s: Store) {
    forall x :: x in s ==>
      && ParentFits(s, s[x].kind, s[x].parent)
      && (s[x].kind == Header ==> s[x].parent == None)
  }

  predicate Childless(s: Store, id: Id) {
    forall c :: c in s ==> s[c].parent != Some(id)
  }

  /** In a typed forest every link climbs one level, so chains are short and nothing is its own ancestor. */
  lemma {:induction false} ClimbsLevels(s: Store, d: Id, a: Id, n: nat)
    requires TypedForest(s) && d in s && Climbs(s, d, a, n)
    ensures a in s && Level(s[d].kind) == Level(s[a].kind) + n
    decreases n
  {
    if n > 0 {
      ClimbsLevels(s, s[d].parent.value, a, n - 1);
    }
  }

  /** Every category hangs exactly its level below a header without a parent. */
  lemma LevelIsDepth(s: Store, x: Id) returns (root: Id)
    requires TypedForest(s) && x in s
    ensures root in s && s[root].kind == Header && s[root].parent.None?
    ensures Climbs(s, x, root, match s[x].kind case Header => 0 case Category => 1 case Subcategory => 2)
  {
    match s[x].kind
    case Header => root := x;
    case Category =>
      root := s[x].parent.value;
      assert Climbs(s, root, root, 0);
    case Subcategory =>
      var p := s[x].parent.value;
      root := s[p].parent.value;
      assert Climbs(s, root, root, 0) && Climbs(s, p, root, 1);
  }

  lemma TypedIsAcyclic(s: Store)
    requires TypedForest(s)
    ensures Acyclic(s)
  {
    forall x | x in s ensures !Above(s, x, x) {
      if Above(s, x, x) {
        var n: nat :| n >= 1 && Climbs(s, x, x, n);
        ClimbsLevels(s, x, x, n);
      }
    }
  }

  /**
    An accepted update of a typed forest leaves a typed forest exactly when a resulting header
    has no parent, and the type is kept or the category has no children and is not made its own
    parent. The handler checks none of the three.
  */
  lemma UpdateKeepsTypedIff(s: Store, id: Id, u: Patch)
    requires TypedForest(s) && UpdateAccepted(s, id, u)
    ensures var node := Patched(s[id], u);
            TypedForest(Apply(s, Update(id, u))) <==>
            && (node.kind == Header ==> node.parent == None)
            && (node.kind == s[id].kind || (Childless(s, id) && node.parent != Some(id)))
  {
    var node := Patched(s[id], u);
    var t := s[id := node];
    if node.kind != s[id].kind {
      if c :| c in s && s[c].parent == Some(id) {
        assert c != id && t[c] == s[c];
        assert !ParentFits(t, t[c].kind, t[c].parent);
      }
    }
    if node.kind == Header && node.parent != None {
      assert id in t;
    }
    if node.kind != s[id].kind && node.parent == Some(id) {
      assert !ParentFits(t, t[id].kind, t[id].parent) || node.kind == Header;
    }
    if && (node.kind == Header ==> node.parent == None)
       && (node.kind == s[id].kind || (Childless(s, id) && node.parent != Some(id))) {
      forall x | x in t
        ensures ParentFits(t, t[x].kind, t[x].parent) && (t[x].kind == Header ==> t[x].parent == None)
      {
        assert x != id ==> t[x] == s[x];
      }
    }
  }

  /** Requests that keep `type` and give headers no parent. */
  ghost predicate KeepsLevels(s: Store, r: Request) {
    match r
    case Create(c) => c.id !in s && (c.kind == Named(Header) ==> CreationParent(c) == None)
    case Update(id, u) =>
      id in s ==>
        && NewKind(s[id], u) == s[id].kind
        && (s[id].kind == Header ==> NewParent(s[id], u) == None)
    case Delete(_) => true
  }

  ghost predicate LevelRun(s: Store, rs: seq<Request>)
    decreases |rs|
  {
    rs == [] || (KeepsLevels(s, rs[0]) && LevelRun(Apply(s, rs[0]), rs[1..]))
  }

  lemma StepKeepsTyped(s: Store, r: Request)
    requires TypedForest(s) && KeepsLevels(s, r)
    ensures TypedForest(Apply(s, r))
  {
    match r
    case Create(c) =>
    case Update(id, u) =>
      if UpdateAccepted(s, id, u) {
        UpdateKeepsTypedIff(s, id, u);
      }
    case Delete(id) =>
      DeleteIsExact(s, id);
  }

  /** Every collection reachable from a typed forest by such requests is a typed forest: the walks
      end, and no stored parent reference dangles. */
  lemma {:induction false} RunsStayTyped(s: Store, rs: seq<Request>)
    requires TypedForest(s) && LevelRun(s, rs)
    ensures TypedForest(Run(s, rs)) && Acyclic(Run(s, rs))
    decreases |rs|
  {
    if rs == [] {
      TypedIsAcyclic(s);
    } else {
      StepKeepsTyped(s, rs[0]);
      RunsStayTyped(Apply(s, rs[0]), rs[1..]);
    }
  }

  /** Under the typing discipline the subtree side condition of `Careful` comes for free. */
  lemma LevelsAvoidOwnSubtree(s: Store, id: Id, u: Patch)
    requires TypedForest(s) && KeepsLevels(s, Update(id, u)) && UpdateAccepted(s, id, u)
    ensures NewParent(s[id], u).Some? ==> !AtOrAbove(s, id, NewParent(s[id], u).value)
  {
    var p := NewParent(s[id], u);
    if p.Some? && AtOrAbove(s, id, p.value) {
      var n: nat :| Climbs(s, p.value, id, n);
      ClimbsLevels(s, p.value, id, n);
      assert false;
    }
  }

  /** Fresh identifiers, levels kept, and every update either activates or keeps the parent. */
  ghost predicate Disciplined(s: Store, r: Request) {
    && KeepsLevels(s, r)
    && (r.Create? ==> FreshId(s, r.c))
    && (r.Update? && r.id in s ==> r.u.active == Some(true) || NewParent(s[r.id], r.u) == s[r.id].parent)
  }

  ghost predicate DisciplinedRun(s: Store, rs: seq<Request>)
    decreases |rs|
  {
    rs == [] || (Disciplined(s, rs[0]) && DisciplinedRun(Apply(s, rs[0]), rs[1..]))
  }

  /** From the empty collection on, every disciplined run keeps the typed forest and keeps
      commission exclusive along every path of it. */
  lemma {:induction false} DisciplinedRunsStaySound(s: Store, rs: seq<Request>)
    requires TypedForest(s) && Exclusive(s) && DisciplinedRun(s, rs)
    ensures TypedForest(Run(s, rs)) && Exclusive(Run(s, rs))
    decreases |rs|
  {
    if rs != [] {
      TypedIsAcyclic(s);
      if rs[0].Update? && UpdateAccepted(s, rs[0].id, rs[0].u) {
        LevelsAvoidOwnSubtree(s, rs[0].id, rs[0].u);
      }
      StepKeepsExclusive(s, rs[0]);
      StepKeepsTyped(s, rs[0]);
      DisciplinedRunsStaySound(Apply(s, rs[0]), rs[1..]);
    }
  }

  // ---------------------------------------------------------------- what the handlers let through

  /** A header may be activated and hung under its own child in one accepted request; it is then
      a commission-active strict ancestor of itself. */
  lemma HeaderUnderItsChild()
    ensures var s: Store := map[1 := Node(Header, None, false, "h"), 2 := Node(Category, Some(1), false, "c")];
            var u := Patch(NoKind, Given(Some(2)), Some(true), None);
            && TypedForest(s) && Exclusive(s) && UpdateAccepted(s, 1, u)
            && !Acyclic(Apply(s, Update(1, u))) && !Exclusive(Apply(s, Update(1, u)))
  {
    var s: Store := map[1 := Node(Header, None, false, "h"), 2 := Node(Category, Some(1), false, "c")];
    var u := Patch(NoKind, Given(Some(2)), Some(true), None);
    var t := s[1 := Patched(s[1], u)];
    assert UpdateAccepted(s, 1, u);
    assert Climbs(t, 1, 1, 0);
    assert Climbs(t, 2, 1, 1);
    assert Climbs(t, 1, 1, 2);
    assert Above(t, 1, 1);
  }

  /** A commission-active category may be moved under a commission-active header without a check. */
  lemma ReparentWithoutCheck()
    ensures var s: Store := map[1 := Node(Header, None, true, "a"), 2 := Node(Header, None, false, "b"),
                                3 := Node(Category, Some(2), true, "c")];
            var u := Patch(NoKind, Given(Some(1)), None, None);
            && TypedForest(s) && Exclusive(s) && UpdateAccepted(s, 3, u)
            && !Exclusive(Apply(s, Update(3, u)))
  {
    var s: Store := map[1 := Node(Header, None, true, "a"), 2 := Node(Header, None, false, "b"),
                        3 := Node(Category, Some(2), true, "c")];
    var u := Patch(NoKind, Given(Some(1)), None, None);
    var t := s[3 := Patched(s[3], u)];
    forall a, d | a in s && d in s && Above(s, a, d) ensures a == 2 {
      AboveByParent(s, a, d);
      if d == 3 {
        AtOrAboveSplit(s, a, 2);
        AboveByParent(s, a, 2);
      }
    }
    assert Climbs(t, 1, 1, 0);
    assert Climbs(t, 3, 1, 1);
    assert Above(t, 1, 3);
    assert t == Apply(s, Update(3, u));
  }

  // ---------------------------------------------------------------- two requests at once

  /** A request that only activates. */
  const ACTIVATE := Patch(NoKind, NoParent, Some(true), None)

  /** A request that only switches commission off. */
  const DEACTIVATE := Patch(NoKind, NoParent, Some(false), None)

  /** Changing anything but parents changes no chain. */
  lemma {:induction false} SameLinks(s: Store, t: Store, x: Id, a: Id, n: nat)
    requires s.Keys == t.Keys && forall y :: y in s ==> s[y].parent == t[y].parent
    ensures Climbs(s, x, a, n) <==> Climbs(t, x, a, n)
    decreases n
  {
    if n > 0 && x in s && s[x].parent.Some? {
      SameLinks(s, t, s[x].parent.value, a, n - 1);
    }
  }

  lemma SameAbove(s: Store, t: Store, a: Id, d: Id)
    requires s.Keys == t.Keys && forall y :: y in s ==> s[y].parent == t[y].parent
    ensures Above(s, a, d) <==> Above(t, a, d)
  {
    forall n: nat ensures Climbs(s, d, a, n) <==> Climbs(t, d, a, n) {
      SameLinks(s, t, d, a, n);
    }
  }

  /** Writing two activations that were both accepted on the same collection. */
  function BothActivated(s: Store, a: Id, d: Id): Store
    requires a in s && d in s
  {
    s[a := s[a].(active := true)][d := s[d].(active := true)]
  }

  lemma ActiveAfterBoth(s: Store, a: Id, d: Id, x: Id, y: Id)
    requires Acyclic(s) && Exclusive(s) && a in s && d in s
    requires UpdateAccepted(s, a, ACTIVATE) && UpdateAccepted(s, d, ACTIVATE)
    requires x in s && y in s && Above(s, x, y) && (x == a || x == d || s[x].active) && (y == a || y == d || s[y].active)
    ensures (x == a && y == d) || (x == d && y == a)
  {
    AboveByParent(s, x, y);
    assert s[x].active ==> ActiveAtOrAbove(s, s[y].parent);
    assert s[y].active ==> ActiveBelow(s, x);
  }

  /**
    The handler checks first and writes later. Two activations that are both accepted on the same
    collection may be written side by side if and only if neither category lies above the other;
    run one after the other, the second is refused in exactly the other case.
  */
  lemma OverlappingActivationsCollide(s: Store, a: Id, d: Id)
    requires Acyclic(s) && Exclusive(s) && a in s && d in s && a != d
    requires UpdateAccepted(s, a, ACTIVATE) && UpdateAccepted(s, d, ACTIVATE)
    ensures Exclusive(BothActivated(s, a, d)) <==> !Above(s, a, d) && !Above(s, d, a)
    ensures UpdateAccepted(Apply(s, Update(a, ACTIVATE)), d, ACTIVATE) <==> !Above(s, a, d) && !Above(s, d, a)
    ensures UpdateAccepted(Apply(s, Update(d, ACTIVATE)), a, ACTIVATE) <==> !Above(s, a, d) && !Above(s, d, a)
  {
    var both, first := BothActivated(s, a, d), Apply(s, Update(a, ACTIVATE));
    forall x, y ensures Above(s, x, y) <==> Above(both, x, y) {
      SameAbove(s, both, x, y);
    }
    forall x, y | x in both && y in both && Above(both, x, y) && both[x].active && both[y].active
      ensures Above(s, a, d) || Above(s, d, a)
    {
      ActiveAfterBoth(s, a, d, x, y);
    }
    if Above(s, a, d) {
      assert Above(both, a, d);
    }
    if Above(s, d, a) {
      assert Above(both, d, a);
    }
    SecondActivation(s, a, d, first);
    SecondActivation(s, d, a, Apply(s, Update(d, ACTIVATE)));
  }

  /** The second of two activations sees the first one exactly on the paths through `d`. */
  lemma SecondActivation(s: Store, a: Id, d: Id, first: Store)
    requires Acyclic(s) && Exclusive(s) && a in s && d in s && a != d
    requires UpdateAccepted(s, a, ACTIVATE) && UpdateAccepted(s, d, ACTIVATE)
    requires first == Apply(s, Update(a, ACTIVATE))
    ensures UpdateAccepted(first, d, ACTIVATE) <==> !Above(s, a, d) && !Above(s, d, a)
  {
    forall x, y ensures Above(s, x, y) <==> Above(first, x, y) {
      SameAbove(s, first, x, y);
    }
    forall x ensures Above(first, x, d) <==> s[d].parent.Some? && AtOrAbove(first, x, s[d].parent.value) {
      AboveByParent(first, x, d);
    }
    forall x ensures Above(s, x, d) <==> s[d].parent.Some? && AtOrAbove(s, x, s[d].parent.value) {
      AboveByParent(s, x, d);
    }
    assert forall x :: x in s ==> first[x].active == (x == a || s[x].active);
    assert forall x :: x in s ==> first[x].kind == s[x].kind && first[x].slug == s[x].slug;
    if Above(s, a, d) {
      assert ActiveAtOrAbove(first, s[d].parent);
    } else if Above(s, d, a) {
      assert ActiveBelow(first, d);
    } else {
      assert !ActiveBelow(first, d);
      assert !ActiveAtOrAbove(first, s[d].parent);
    }
  }

  /**
    Two requests in a row: once the one active category at or above the parent of `d` has been
    switched off, activating `d` is accepted if and only if nothing below `d` is active and its
    type fits its parent.
  */
  lemma SwitchedOffThenActivated(s: Store, a: Id, d: Id)
    requires a in s && d in s && s[a].active && s[d].parent.Some? && AtOrAbove(s, a, s[d].parent.value)
    requires forall b :: b in s && s[b].active && AtOrAbove(s, b, s[d].parent.value) ==> b == a
    requires !Above(s, d, d) && UpdateAccepted(s, a, DEACTIVATE)
    ensures !UpdateAccepted(s, d, ACTIVATE)
    ensures UpdateAccepted(Apply(s, Update(a, DEACTIVATE)), d, ACTIVATE)
            <==> ParentFits(s, s[d].kind, s[d].parent) && forall x :: x in s && s[x].active ==> !Above(s, d, x)
  {
    var t := Apply(s, Update(a, DEACTIVATE));
    var p := s[d].parent.value;
    forall x, y ensures Above(s, x, y) <==> Above(t, x, y) {
      SameAbove(s, t, x, y);
    }
    forall x ensures AtOrAbove(s, x, p) <==> AtOrAbove(t, x, p) {
      AtOrAboveSplit(s, x, p);
      AtOrAboveSplit(t, x, p);
    }
    AboveByParent(s, a, d);
    if Above(s, d, a) {
      AtOrAboveSplit(s, d, a);
      AtOrAboveSplit(s, a, d);
      AboveTransitive(s, d, a, d);
    }
    assert !ActiveAtOrAbove(t, Some(p));
    assert forall x :: x in s ==> t[x].kind == s[x].kind && (t[x].active <==> s[x].active && x != a);
    assert ActiveBelow(t, d) <==> exists x :: x in s && s[x].active && Above(s, d, x);
  }
}
