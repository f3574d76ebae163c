/**
  The category collection (backend/app/controller/categoryController.js): documents linked
  by `parentId`, created, updated in place and deleted together with their descendants.

  Nothing in the collection itself rules out cycles, so reachability is stated on chains of
  parent links of explicit length.
*/
module CategoryForest {
  import opened Common

  type Id = int

  datatype Kind = Header | Category | Subcategory

  /** The fields of a stored category that the handlers read to take a decision. */
  datatype Node = Node(kind: Kind, parent: Option<Id>, active: bool, slug: string)

  type Store = map<Id, Node>

  // ---------------------------------------------------------------- reachability

  /** Following exactly `n` parent links from `d` ends in `a`; every node left behind is stored. */
  ghost predicate Climbs(s: Store, d: Id, a: Id, n: nat)
    decreases n
  {
    if n == 0 then d == a
    else d in s && s[d].parent.Some? && Climbs(s, s[d].parent.value, a, n - 1)
  }

  /** `a` is `d` or one of its ancestors. */
  ghost predicate AtOrAbove(s: Store, a: Id, d: Id) {
    exists n: nat :: Climbs(s, d, a, n)
  }

  /** `a` is a strict ancestor of `d`. */
  ghost predicate Above(s: Store, a: Id, d: Id) {
    exists n: nat :: n >= 1 && Climbs(s, d, a, n)
  }

  ghost predicate Acyclic(s: Store) {
    forall x :: x in s ==> !Above(s, x, x)
  }

  /** No commission-active category has a commission-active strict ancestor. */
  ghost predicate Exclusive(s: Store) {
    forall a, d :: a in s && d in s && Above(s, a, d) && s[a].active ==> !s[d].active
  }

  ghost function Below(s: Store, a: Id): set<Id> {
    set d | d in s && Above(s, a, d)
  }

  ghost function Over(s: Store, d: Id): set<Id> {
    set a | a in s && Above(s, a, d)
  }

  function ChildrenOf(s: Store, id: Id): set<Id> {
    set c | c in s && s[c].parent == Some(id)
  }

  /** What the upward walk looks for, starting from a parent reference. */
  ghost predicate ActiveAtOrAbove(s: Store, start: Option<Id>) {
    start.Some? && exists a :: a in s && s[a].active && AtOrAbove(s, a, start.value)
  }

  /** What the downward search looks for. */
  ghost predicate ActiveBelow(s: Store, id: Id) {
    exists d :: d in s && s[d].active && Above(s, id, d)
  }

  lemma {:induction false} ClimbsJoin(s: Store, d: Id, m: Id, a: Id, i: nat, j: nat)
    requires Climbs(s, d, m, i) && Climbs(s, m, a, j)
    ensures Climbs(s, d, a, i + j)
    decreases i
  {
    if i > 0 {
      ClimbsJoin(s, s[d].parent.value, m, a, i - 1, j);
    }
  }

  /** The last link of a chain starts in a child of its end. */
  lemma {:induction false} TopLink(s: Store, d: Id, a: Id, n: nat) returns (c: Id)
    requires n >= 1 && Climbs(s, d, a, n)
    ensures c in ChildrenOf(s, a) && Climbs(s, d, c, n - 1)
    decreases n
  {
    if n == 1 {
      c := d;
    } else {
      c := TopLink(s, s[d].parent.value, a, n - 1);
    }
  }

  /** Chains are deterministic, so of two chains from one node the shorter continues into the longer. */
  lemma {:induction false} ClimbsSplit(s: Store, d: Id, m: Id, a: Id, i: nat, j: nat)
    requires Climbs(s, d, m, i) && Climbs(s, d, a, j) && i <= j
    ensures Climbs(s, m, a, j - i)
    decreases i
  {
    if i > 0 {
      ClimbsSplit(s, s[d].parent.value, m, a, i - 1, j - 1);
    }
  }

  lemma AboveTransitive(s: Store, a: Id, m: Id, d: Id)
    requires AtOrAbove(s, a, m) && AtOrAbove(s, m, d)
    ensures AtOrAbove(s, a, d)
    ensures Above(s, a, m) || Above(s, m, d) ==> Above(s, a, d)
  {
    var i: nat :| Climbs(s, d, m, i) && (Above(s, m, d) ==> i >= 1);
    var j: nat :| Climbs(s, m, a, j) && (Above(s, a, m) ==> j >= 1);
    ClimbsJoin(s, d, m, a, i, j);
  }

  /** The strict ancestors of a stored node are its parent and what lies above that. */
  lemma AboveByParent(s: Store, a: Id, d: Id)
    ensures Above(s, a, d) <==> d in s && s[d].parent.Some? && AtOrAbove(s, a, s[d].parent.value)
  {
    if Above(s, a, d) {
      var n: nat :| n >= 1 && Climbs(s, d, a, n);
      assert Climbs(s, s[d].parent.value, a, n - 1);
    }
    if d in s && s[d].parent.Some? && AtOrAbove(s, a, s[d].parent.value) {
      var n: nat :| Climbs(s, s[d].parent.value, a, n);
      assert Climbs(s, d, a, n + 1);
    }
  }

  lemma AtOrAboveSplit(s: Store, a: Id, d: Id)
    ensures AtOrAbove(s, a, d) <==> a == d || Above(s, a, d)
  {
    assert Climbs(s, d, d, 0);
  }

  /** The strict descendants of a node are its children and what lies below them. */
  lemma BelowByChildren(s: Store, a: Id, d: Id)
    ensures Above(s, a, d) <==> exists c :: c in ChildrenOf(s, a) && AtOrAbove(s, c, d)
  {
    if Above(s, a, d) {
      var n: nat :| n >= 1 && Climbs(s, d, a, n);
      var c := TopLink(s, d, a, n);
      assert AtOrAbove(s, c, d);
    }
    if c :| c in ChildrenOf(s, a) && AtOrAbove(s, c, d) {
      assert Climbs(s, a, a, 0);
      assert Climbs(s, c, a, 1);
      AboveTransitive(s, a, c, d);
    }
  }

  /** A child of a category that is not on a cycle is not on one either: chains are deterministic. */
  lemma ChildOffCycle(s: Store, a: Id, c: Id)
    requires !Above(s, a, a) && c in ChildrenOf(s, a)
    ensures !Above(s, c, c)
  {
    if Above(s, c, c) {
      AboveByParent(s, c, c);
      BelowByChildren(s, a, a);
      assert false;
    }
  }

  /** Going one level down shrinks the set of descendants: the measure of both recursions. */
  lemma BelowShrinks(s: Store, a: Id, c: Id)
    requires !Above(s, a, a) && c in ChildrenOf(s, a)
    ensures Below(s, c) < Below(s, a)
  {
    ChildOffCycle(s, a, c);
    assert Climbs(s, a, a, 0);
    assert Climbs(s, c, a, 1);
    assert Above(s, a, c);
    forall d | d in Below(s, c) ensures d in Below(s, a) {
      assert AtOrAbove(s, c, d) by { AtOrAboveSplit(s, c, d); }
      assert AtOrAbove(s, a, c);
      AboveTransitive(s, a, c, d);
    }
    assert c in Below(s, a) && c !in Below(s, c);
  }

  /** A category on a cycle has descending chains of every length: a recursion through the
      children never reaches its end. */
  lemma {:induction false} CycleHasNoBottom(s: Store, id: Id, n: nat)
    requires Above(s, id, id)
    ensures exists m: nat :: m >= n && Climbs(s, id, id, m)
    decreases n
  {
    if n == 0 {
      assert Climbs(s, id, id, 0);
    } else {
      CycleHasNoBottom(s, id, n - 1);
      var m: nat :| m >= n - 1 && Climbs(s, id, id, m);
      var k: nat :| k >= 1 && Climbs(s, id, id, k);
      ClimbsJoin(s, id, id, id, m, k);
    }
  }

  /** Going one level up shrinks the set of ancestors. */
  lemma OverShrinks(s: Store, d: Id)
    requires Acyclic(s) && d in s && s[d].parent.Some?
    ensures s[d].parent.value in s ==> Over(s, s[d].parent.value) < Over(s, d)
  {
    var p := s[d].parent.value;
    if p in s {
      assert Climbs(s, p, p, 0);
      assert Climbs(s, d, p, 1);
      assert Above(s, p, d);
      forall a | a in Over(s, p) ensures a in Over(s, d) {
        AtOrAboveSplit(s, a, p);
        AboveByParent(s, a, d);
      }
      assert p in Over(s, d) && p !in Over(s, p);
    }
  }

  // ---------------------------------------------------------------- where the upward walk ends

  /** The walk goes no further than a missing document, an active category or a root. */
  predicate WalkStops(s: Store, x: Id) {
    x !in s || s[x].active || s[x].parent.None?
  }

  ghost predicate WalkEnds(s: Store, start: Option<Id>) {
    start.None? || exists n: nat, x: Id :: Climbs(s, start.value, x, n) && WalkStops(s, x)
  }

  /** Where it does not end, it is still going after any number of steps. */
  lemma {:induction false} EndlessWalk(s: Store, d: Id, n: nat)
    requires !WalkEnds(s, Some(d))
    ensures exists x :: Climbs(s, d, x, n) && !WalkStops(s, x)
    decreases n
  {
    if n == 0 {
      assert Climbs(s, d, d, 0);
    } else {
      EndlessWalk(s, d, n - 1);
      var x :| Climbs(s, d, x, n - 1) && !WalkStops(s, x);
      var p := s[x].parent.value;
      assert Climbs(s, p, p, 0);
      assert Climbs(s, x, p, 1);
      ClimbsJoin(s, d, x, p, n - 1, 1);
    }
  }

  /** On an acyclic collection it always ends. */
  lemma {:induction false} AcyclicWalkEnds(s: Store, d: Id)
    requires Acyclic(s)
    ensures WalkEnds(s, Some(d))
    decreases if d in s then 1 else 0, Over(s, d)
  {
    assert Climbs(s, d, d, 0);
    if !WalkStops(s, d) {
      var p := s[d].parent.value;
      OverShrinks(s, d);
      AcyclicWalkEnds(s, p);
      var n: nat, x: Id :| Climbs(s, p, x, n) && WalkStops(s, x);
      assert Climbs(s, d, x, n + 1);
    }
  }

  // ---------------------------------------------------------------- storing one document

  /** A chain that never meets `id` before its end is the same before and after `id` is rewritten. */
  lemma {:induction false} ClimbsOutside(s: Store, id: Id, node: Node, x: Id, a: Id, n: nat)
    requires !AtOrAbove(s, id, x)
    ensures Climbs(s[id := node], x, a, n) <==> Climbs(s, x, a, n)
    decreases n
  {
    assert Climbs(s, x, x, 0);
    if n > 0 && x in s && s[x].parent.Some? {
      var p := s[x].parent.value;
      if AtOrAbove(s, id, p) {
        AboveByParent(s, id, x);
        AtOrAboveSplit(s, id, x);
        assert false;
      }
      ClimbsOutside(s, id, node, p, a, n - 1);
    }
  }

  /** Rewriting `id` leaves the part of a chain that leads to `id` alone. */
  lemma {:induction false} ClimbsInto(s: Store, id: Id, node: Node, x: Id, a: Id, n: nat)
    requires Acyclic(s) && Climbs(s, x, a, n) && AtOrAbove(s, id, a)
    ensures Climbs(s[id := node], x, a, n)
    decreases n
  {
    if n > 0 {
      var p := s[x].parent.value;
      if x == id {
        assert Above(s, a, x);
        AboveTransitive(s, id, a, x);
        assert false;
      }
      ClimbsInto(s, id, node, p, a, n - 1);
    }
  }

  /**
    The ancestors of every node after one document was stored under `id`, provided its new
    parent does not lie in the subtree of `id`: nodes outside that subtree keep theirs, nodes
    inside keep those of the subtree and exchange the rest for the new parent's.
  */
  lemma AboveAfterPut(s: Store, id: Id, node: Node, a: Id, x: Id)
    requires Acyclic(s)
    requires node.parent.Some? ==> !AtOrAbove(s, id, node.parent.value)
    ensures !AtOrAbove(s, id, x) ==> (Above(s[id := node], a, x) <==> Above(s, a, x))
    ensures AtOrAbove(s, id, x) ==>
              (Above(s[id := node], a, x) <==>
               (Above(s, a, x) && AtOrAbove(s, id, a))
               || (node.parent.Some? && AtOrAbove(s, a, node.parent.value)))
  {
    var t := s[id := node];
    if !AtOrAbove(s, id, x) {
      forall n: nat ensures Climbs(t, x, a, n) <==> Climbs(s, x, a, n) {
        ClimbsOutside(s, id, node, x, a, n);
      }
    } else {
      var k: nat :| Climbs(s, x, id, k);
      assert Climbs(s, id, id, 0);
      ClimbsInto(s, id, node, x, id, k);
      if Above(s, a, x) && AtOrAbove(s, id, a) {
        var n: nat :| n >= 1 && Climbs(s, x, a, n);
        ClimbsInto(s, id, node, x, a, n);
      }
      if node.parent.Some? && AtOrAbove(s, a, node.parent.value) {
        AtOrAboveInPut(s, id, node, a);
        AboveByParent(t, a, id);
        AboveTransitive(t, a, id, x);
      }
      if Above(t, a, x) {
        var n: nat :| n >= 1 && Climbs(t, x, a, n);
        if n <= k {
          SameStart(s, id, node, x, a, k, n);
          ClimbsSplit(s, x, a, id, n, k);
        } else {
          ClimbsSplit(t, x, id, a, k, n);
          assert Above(t, a, id);
          AboveByParent(t, a, id);
          AtOrAboveInPut(s, id, node, a);
        }
      }
    }
  }

  lemma AtOrAboveInPut(s: Store, id: Id, node: Node, a: Id)
    requires node.parent.Some? && !AtOrAbove(s, id, node.parent.value)
    ensures AtOrAbove(s[id := node], a, node.parent.value) <==> AtOrAbove(s, a, node.parent.value)
  {
    var p, t := node.parent.value, s[id := node];
    if n: nat :| Climbs(t, p, a, n) {
      ClimbsOutside(s, id, node, p, a, n);
    }
    if n: nat :| Climbs(s, p, a, n) {
      ClimbsOutside(s, id, node, p, a, n);
    }
  }

  /** Up to the first visit of `id`, old and new chains coincide. */
  lemma {:induction false} SameStart(s: Store, id: Id, node: Node, x: Id, a: Id, k: nat, n: nat)
    requires Acyclic(s) && Climbs(s, x, id, k) && n <= k && Climbs(s[id := node], x, a, n)
    ensures Climbs(s, x, a, n)
    decreases n
  {
    if n > 0 {
      SameStart(s, id, node, s[x].parent.value, a, k - 1, n - 1);
    }
  }
}
