/**
  The hero configuration endpoints over the stored variants and the cache
  (backend/app/controller/experienceController.js, lines 463-684).

  The public lookup reads the cache first and fills it with what it computes; a header page
  without a visible variant falls back on the home page. Saving and deleting empty the cache. A
  lookup that is overtaken by a save between reading and filling is a matter of `HeroConfigs`;
  here each request runs on its own.
*/
module HeroHandlers {
  import opened Common
  import opened HeroVariants
  import opened HeroConfigs

  datatype Answered = Ok | BadRequest | NotFound

  class HeroDesk {
    var docs: seq<Variant>
    var nextId: nat
    var cache: map<Key, Variant>

    ghost function View(): State
      reads this
    {
      State(docs, nextId, cache)
    }

    constructor ()
      ensures View() == State([], 0, map[])
    {
      docs, nextId, cache := [], 0, map[];
    }

    method FindPage(page: Page) returns (variants: seq<Variant>)
      ensures variants == OfPage(docs, page)
    {
      variants := [];
      for i := 0 to |docs|
        invariant variants + OfPage(docs[i..], page) == OfPage(docs, page)
      {
        ghost var rest := OfPage(docs[i + 1..], page);
        assert docs[i..][1..] == docs[i + 1..];
        if docs[i].page == page {
          assert OfPage(docs[i..], page) == [docs[i]] + rest;
          assert variants + ([docs[i]] + rest) == (variants + [docs[i]]) + rest;
          variants := variants + [docs[i]];
        }
      }
    }

    /** The function handed to `getOrSet`. */
    method Resolve(k: Key) returns (resolved: Option<Variant>)
      ensures resolved == Fresh(docs, k)
    {
      resolved := None;
      if k.query.HeaderPage? {
        var variants := FindPage(Header(k.query.header));
        resolved := PickBest(variants, k.customer);
      }
      if resolved.None? && !k.query.OtherPage? {
        var variants := FindPage(Home);
        resolved := PickBest(variants, k.customer);
      }
    }

    method GetPublicHeroConfig(k: Key) returns (config: Option<Variant>)
      modifies this`cache
      ensures View() == Step(old(View()), Lookup(k))
      ensures config == if k in old(cache) then Some(old(cache)[k]) else Fresh(docs, k)
      ensures if config.Some? then cache == old(cache)[k := config.value] else cache == old(cache) - {k}
      ensures old(CacheAgrees(View())) ==> config == Fresh(docs, k)
      ensures old(CacheAgrees(View())) && HomeEverywhere(docs) && k.query != OtherPage ==> config.Some?
    {
      if HomeEverywhere(docs) && k.query != OtherPage {
        HomeAnswersEverything(docs, k);
      }
      if k in cache {
        assert cache[k := cache[k]] == cache;
        return Some(cache[k]);
      }
      config := Resolve(k);
      cache := if config.Some? then cache[k := config.value] else cache - {k};
    }

    method FindVariant(id: nat) returns (i: nat)
      ensures i == FirstId(docs, id)
    {
      i := 0;
      while i < |docs| && docs[i].id != id
        invariant 0 <= i <= |docs|
        invariant i + FirstId(docs[i..], id) == FirstId(docs, id)
      {
        assert docs[i..][1..] == docs[i + 1..];
        i := i + 1;
      }
    }

    /** Takes the record of that identity out, unless there is none or it is for all zones. */
    method DeleteHeroConfigVariant(id: nat) returns (answer: Answered)
      modifies this
      ensures View() == Step(old(View()), Delete(id))
      ensures answer == NotFound <==> forall j :: 0 <= j < |old(docs)| ==> old(docs)[j].id != id
      ensures answer == BadRequest ==> exists i :: 0 <= i < |old(docs)| && old(docs)[i].id == id && Zones(old(docs)[i]) == []
      ensures answer == Ok ==>
                && cache == map[]
                && exists i :: 0 <= i < |old(docs)| && old(docs)[i].id == id && Zones(old(docs)[i]) != []
                     && docs == old(docs)[..i] + old(docs)[i + 1..]
      ensures answer != Ok ==> docs == old(docs) && cache == old(cache)
      ensures HomeEverywhere(old(docs)) ==> HomeEverywhere(docs)
    {
      if HomeEverywhere(docs) {
        DeleteKeepsHome(docs, id);
      }
      var i := FindVariant(id);
      if i == |docs| {
        return NotFound;
      }
      if docs[i].zones.None? || docs[i].zones.value == [] {
        return BadRequest;
      }
      docs := docs[..i] + docs[i + 1..];
      cache := map[];
      return Ok;
    }

    method FindMatching(page: Page, ids: seq<Id>) returns (i: nat)
      ensures i == FirstMatch(docs, page, ids)
    {
      i := 0;
      while i < |docs| && !(docs[i].page == page && Matches(docs[i].zones, ids))
        invariant 0 <= i <= |docs|
        invariant i + FirstMatch(docs[i..], page, ids) == FirstMatch(docs, page, ids)
      {
        assert docs[i..][1..] == docs[i + 1..];
        i := i + 1;
      }
    }

    /** Refuses a malformed zone list or an unknown header; otherwise one record of the page then says
        what was asked, every other one is as it was, and the cache is empty. */
    method UpsertHeroConfig(page: Page, ids: Option<seq<Id>>, headerExists: bool, now: int, content: int)
      returns (answer: Answered)
      modifies this
      ensures View() == Step(old(View()), Upsert(page, ids, headerExists, now, content))
      ensures answer == if ids.Some? && (page.Header? ==> headerExists) then Ok else BadRequest
      ensures answer != Ok ==> docs == old(docs) && cache == old(cache)
      ensures answer == Ok ==>
                && cache == map[] && |old(docs)| <= |docs| <= |old(docs)| + 1
                && exists i :: 0 <= i < |docs| && docs[i].page == page && docs[i].zones == ids && docs[i].updatedAt == now
                     && docs[i].content == content && forall j :: 0 <= j < |old(docs)| && j != i ==> docs[j] == old(docs)[j]
    {
      if page.Header? && !headerExists {
        return BadRequest;
      }
      if ids.None? {
        return BadRequest;
      }
      var i := FindMatching(page, ids.value);
      if i < |docs| {
        docs := docs[i := docs[i].(zones := Some(ids.value), updatedAt := now, content := content)];
      } else {
        docs := docs + [Variant(nextId, page, Some(ids.value), now, content)];
      }
      assert docs[i].page == page && docs[i].zones == ids && docs[i].updatedAt == now && docs[i].content == content;
      nextId := nextId + 1;
      cache := map[];
      return Ok;
    }
  }
}
