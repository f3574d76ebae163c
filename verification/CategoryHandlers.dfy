/**
  The handlers themselves (backend/app/controller/categoryController.js, lines 181-397): upward
  walk, downward search and recursive delete over the stored collection, updated in place. On a
  cycle the source's searches need not end; each handler asks only that the ones it gets to do.
*/
module CategoryHandlers {
  import opened Common
  import opened CategoryForest
  import opened CategoryRequests

  datatype Status = Done | BadRequest | NotFound

  /** A creation that gets as far as the upward walk sees its end. */
  ghost predicate CreationSearchEnds(s: Store, c: Creation) {
    (c.active && !c.parent.Malformed? && c.kind.Named?
     && ParentFits(s, c.kind.kind, CreationParent(c)) && !SlugTaken(s, c.slug, {}))
    ==> WalkEnds(s, CreationParent(c))
  }

  /** So does an update, and one that gets as far as the descendants does not start on a cycle. */
  ghost predicate UpdateSearchesEnd(s: Store, id: Id, u: Patch) {
    (u.active == Some(true) && id in s && !u.parent.Malformed? && !u.kind.Unknown?
     && ParentFits(s, NewKind(s[id], u), NewParent(s[id], u)))
    ==>
      WalkEnds(s, NewParent(s[id], u)) && (ActiveAtOrAbove(s, NewParent(s[id], u)) || !Above(s, id, id))
  }

  class CategoryCollection {
    var cats: Store

    constructor ()
      ensures cats == map[]
    {
      cats := map[];
    }

    /** The `while (currentParentId)` walk: the first commission-active category at or above `start`. */
    method FindActiveAncestor(start: Option<Id>) returns (found: Option<Id>)
      requires WalkEnds(cats, start)
      ensures found.Some? <==> ActiveAtOrAbove(cats, start)
      ensures found.Some? ==> found.value in cats && cats[found.value].active && AtOrAbove(cats, found.value, start.value)
    {
      var current := start;
      found := None;
      ghost var left: nat, end: Id := 0, 0;
      if start.Some? {
        AtOrAboveSplit(cats, start.value, start.value);
        left, end :| Climbs(cats, start.value, end, left) && WalkStops(cats, end);
      }
      while current.Some?
        invariant current.Some? ==> start.Some? && AtOrAbove(cats, current.value, start.value)
        invariant current.Some? ==> Climbs(cats, current.value, end, left) && WalkStops(cats, end)
        invariant ActiveAtOrAbove(cats, start) <==> ActiveAtOrAbove(cats, current)
        decreases if current.Some? then left + 1 else 0
      {
        var id := current.value;
        WalkStep(cats, id);
        if id !in cats {
          current := None;
          break;
        }
        if cats[id].active {
          return current;
        }
        if cats[id].parent.Some? {
          assert Climbs(cats, cats[id].parent.value, cats[id].parent.value, 0);
          assert Climbs(cats, id, cats[id].parent.value, 1);
          AboveTransitive(cats, cats[id].parent.value, id, start.value);
          left := left - 1;
        }
        current := cats[id].parent;
      }
    }

    /** The recursive search through the children: a commission-active strict descendant. */
    method CheckDescendants(id: Id) returns (found: Option<Id>)
      requires !Above(cats, id, id)
      ensures found.Some? <==> ActiveBelow(cats, id)
      ensures found.Some? ==> found.value in cats && cats[found.value].active && Above(cats, id, found.value)
      decreases Below(cats, id)
    {
      var children := ChildrenOf(cats, id);
      var todo := children;
      while todo != {}
        invariant todo <= children
        invariant forall c, d :: c in children - todo && d in cats && AtOrAbove(cats, c, d) ==> !cats[d].active
      {
        Inhabited(todo);
        var child :| child in todo;
        todo := todo - {child};
        BelowByChildren(cats, id, child);
        assert AtOrAbove(cats, child, child) by { AtOrAboveSplit(cats, child, child); }
        if cats[child].active {
          return Some(child);
        }
        BelowShrinks(cats, id, child);
        ChildOffCycle(cats, id, child);
        found := CheckDescendants(child);
        if found.Some? {
          AtOrAboveSplit(cats, child, found.value);
          BelowByChildren(cats, id, found.value);
          return;
        }
        forall d | d in cats && AtOrAbove(cats, child, d) ensures !cats[d].active {
          AtOrAboveSplit(cats, child, d);
        }
      }
      forall d | d in cats && Above(cats, id, d) ensures !cats[d].active {
        BelowByChildren(cats, id, d);
      }
      found := None;
    }

    method CreateCategory(c: Creation) returns (status: Status)
      requires CreationSearchEnds(cats, c)
      modifies this
      ensures cats == Apply(old(cats), Create(c))
      ensures status == if CreateAccepted(old(cats), c) then Done else BadRequest
      ensures status == Done ==>
                && cats.Keys == old(cats).Keys + {c.id} && (forall x :: x in old(cats) && x != c.id ==> cats[x] == old(cats)[x])
                && cats[c.id].active == c.active && cats[c.id].slug == c.slug && Named(cats[c.id].kind) == c.kind
                && cats[c.id].parent == (if c.parent.Given? then c.parent.parent else None)
    {
      if c.parent.Malformed? || !c.kind.Named? {
        return BadRequest;
      }
      if !ParentFits(cats, c.kind.kind, CreationParent(c)) || SlugTaken(cats, c.slug, {}) {
        return BadRequest;
      }
      if c.active {
        var above := FindActiveAncestor(CreationParent(c));
        if above.Some? {
          return BadRequest;
        }
      }
      cats := cats[c.id := CreatedNode(c)];
      status := Done;
    }

    method UpdateCategory(id: Id, u: Patch) returns (status: Status)
      requires UpdateSearchesEnd(cats, id, u)
      modifies this
      ensures cats == Apply(old(cats), Update(id, u))
      ensures status == if id !in old(cats) then NotFound
                        else if UpdateAccepted(old(cats), id, u) then Done else BadRequest
      ensures status == Done ==>
                && cats.Keys == old(cats).Keys && (forall x :: x in cats && x != id ==> cats[x] == old(cats)[x])
                && cats[id].active == (if u.active.Some? then u.active.value else old(cats)[id].active)
                && cats[id].kind == (if u.kind.Named? then u.kind.kind else old(cats)[id].kind)
                && cats[id].parent == (if u.parent.Given? then u.parent.parent else old(cats)[id].parent)
                && cats[id].slug == (if u.slug.Some? then u.slug.value else old(cats)[id].slug)
      ensures status != Done ==> cats == old(cats)
    {
      if id !in cats {
        return NotFound;
      }
      if u.parent.Malformed? || u.kind.Unknown? {
        return BadRequest;
      }
      var existing := cats[id];
      var parent := NewParent(existing, u);
      if !ParentFits(cats, NewKind(existing, u), parent) {
        return BadRequest;
      }
      if u.active == Some(true) {
        var above := FindActiveAncestor(parent);
        if above.Some? {
          return BadRequest;
        }
        var below := CheckDescendants(id);
        if below.Some? {
          return BadRequest;
        }
      }
      if u.slug.Some? && SlugTaken(cats, u.slug.value, {id}) {
        return BadRequest;
      }
      cats := cats[id := Patched(existing, u)];
      status := Done;
    }

    /** `deleteWithChildren`: children first, each with its own subtree, then the category. */
    method DeleteCategory(id: Id)
      requires !Above(cats, id, id)
      modifies this
      ensures cats == Apply(old(cats), Delete(id))
      decreases Below(cats, id)
    {
      ghost var was := cats;
      var children := ChildrenOf(cats, id);
      var todo := children;
      assert cats == Pruned(was, {});
      while todo != {}
        invariant todo <= children
        invariant cats == Pruned(was, children - todo)
      {
        Inhabited(todo);
        var child :| child in todo;
        ghost var done := children - todo;
        ChildOffCycle(was, id, child);
        assert !Above(cats, child, child) by {
          if child in cats {
            AbovePruned(was, done, child, child);
          } else {
            AboveByParent(cats, child, child);
          }
        }
        assert Below(cats, child) < Below(was, id) by {
          BelowShrinks(was, id, child);
          forall d | d in Below(cats, child) ensures d in Below(was, child) {
            AbovePruned(was, done, child, d);
          }
        }
        DeleteCategory(child);
        forall x | x in Pruned(was, done)
          ensures AtOrAbove(Pruned(was, done), child, x) <==> AtOrAbove(was, child, x)
        {
          AbovePruned(was, done, child, x);
        }
        todo := todo - {child};
        assert children - todo == done + {child};
      }
      cats := cats - {id};
      forall x | x in was
        ensures AtOrAbove(was, id, x) <==> x == id || exists c :: c in children && AtOrAbove(was, c, x)
      {
        BelowByChildren(was, id, x);
        AtOrAboveSplit(was, id, x);
      }
    }
  }

  /** One step of the upward walk: nothing to find above a missing document, otherwise the answer
      is here or above the parent. */
  lemma WalkStep(s: Store, id: Id)
    ensures id !in s ==> !ActiveAtOrAbove(s, Some(id))
    ensures id in s ==> (ActiveAtOrAbove(s, Some(id)) <==> s[id].active || ActiveAtOrAbove(s, s[id].parent))
    ensures id in s && s[id].active ==> AtOrAbove(s, id, id)
  {
    forall a ensures AtOrAbove(s, a, id) <==> a == id || (id in s && s[id].parent.Some? && AtOrAbove(s, a, s[id].parent.value)) {
      AtOrAboveSplit(s, a, id);
      AboveByParent(s, a, id);
    }
  }

  /** On an acyclic collection every search ends. */
  lemma AcyclicSearchesEnd(s: Store, c: Creation, id: Id, u: Patch)
    requires Acyclic(s)
    ensures CreationSearchEnds(s, c) && UpdateSearchesEnd(s, id, u) && !Above(s, id, id)
  {
    AboveByParent(s, id, id);
    if CreationParent(c).Some? {
      AcyclicWalkEnds(s, CreationParent(c).value);
    }
    if id in s && NewParent(s[id], u).Some? {
      AcyclicWalkEnds(s, NewParent(s[id], u).value);
    }
  }
}
