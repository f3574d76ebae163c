/** The stored hero variants under upserts and deletes, and the cache in front of the public lookup. */
module HeroConfigs {
  import opened Common
  import opened HeroVariants

  /** What a public request asks for; a home request may carry a header id, which only the cache
      key looks at. */
  datatype Query = HomePage(headerParam: Option<Id>) | HeaderPage(header: Id) | OtherPage

  /** The cache key: the query and the customer's zones, or no zones when the location is unknown. */
  datatype Key = Key(query: Query, customer: Option<set<Id>>)

  datatype State = State(docs: seq<Variant>, nextId: nat, cache: map<Key, Variant>)

  // ---------------------------------------------------------------- the collection

  function OfPage(docs: seq<Variant>, page: Page): seq<Variant> {
    if docs == [] then []
    else (if docs[0].page == page then [docs[0]] else []) + OfPage(docs[1..], page)
  }

  /** The answer computed from the collection. */
  function Fresh(docs: seq<Variant>, k: Key): Option<Variant> {
    match k.query
    case OtherPage => None
    case HomePage(_) => PickBest(OfPage(docs, Home), k.customer)
    case HeaderPage(h) =>
      var own := PickBest(OfPage(docs, Header(h)), k.customer);
      if own.Some? then own else PickBest(OfPage(docs, Home), k.customer)
  }

  predicate Hits(v: Variant, page: Page, ids: seq<Id>) {
    v.page == page && Matches(v.zones, ids)
  }

  /** The position of the first record the upsert filter matches, or the length. */
  function FirstMatch(docs: seq<Variant>, page: Page, ids: seq<Id>): (i: nat)
    ensures i <= |docs|
    ensures i < |docs| ==> Hits(docs[i], page, ids)
    ensures forall j :: 0 <= j < i ==> !Hits(docs[j], page, ids)
  {
    if docs == [] then 0
    else if Hits(docs[0], page, ids) then 0
    else 1 + FirstMatch(docs[1..], page, ids)
  }

  function Upserted(docs: seq<Variant>, id: nat, page: Page, ids: seq<Id>, now: int, content: int): seq<Variant> {
    var i := FirstMatch(docs, page, ids);
    if i < |docs| then docs[i := docs[i].(zones := Some(ids), updatedAt := now, content := content)]
    else docs + [Variant(id, page, Some(ids), now, content)]
  }

  function FirstId(docs: seq<Variant>, id: nat): (i: nat)
    ensures i <= |docs|
    ensures i < |docs| ==> docs[i].id == id
    ensures forall j :: 0 <= j < i ==> docs[j].id != id
  {
    if docs == [] then 0 else if docs[0].id == id then 0 else 1 + FirstId(docs[1..], id)
  }

  function Deleted(docs: seq<Variant>, id: nat): seq<Variant> {
    var i := FirstId(docs, id);
    if i < |docs| && Zones(docs[i]) != [] then docs[..i] + docs[i + 1..] else docs
  }

  /** Each page has at most one variant for every zone set; a record older than the field counts as
      one for all zones. */
  predicate OnePerZoneSet(docs: seq<Variant>) {
    && (forall i :: 0 <= i < |docs| ==> NoDup(Zones(docs[i])))
    && (forall i, j :: 0 <= i < j < |docs| && docs[i].page == docs[j].page ==> ToSet(Zones(docs[i])) != ToSet(Zones(docs[j])))
  }

  /** The page has a record older than the `zoneIds` field. */
  predicate HasOldRecord(docs: seq<Variant>, page: Page) {
    exists i :: 0 <= i < |docs| && docs[i].page == page && docs[i].zones.None?
  }

  /** On a request without repetitions a record is matched exactly when it has the field and the
      same zone set. */
  lemma HitsIff(v: Variant, page: Page, ids: seq<Id>)
    requires NoDup(Zones(v)) && NoDup(ids)
    ensures Hits(v, page, ids) <==> v.page == page && v.zones.Some? && ToSet(Zones(v)) == ToSet(ids)
  {
    if v.zones.Some? {
      FilterIsExact(Zones(v), ids);
    }
  }

  lemma EmptySet(ids: seq<Id>)
    ensures ToSet(ids) == {} <==> ids == []
  {
    if ids != [] {
      assert ids[0] in ToSet(ids);
    }
  }

  /** An upsert keeps one variant per page and zone set if and only if the request repeats no id and
      does not save the all-zones variant of a page that has an old record. */
  lemma UpsertKeepsOnePerSetIff(docs: seq<Variant>, id: nat, page: Page, ids: seq<Id>, now: int, content: int)
    requires OnePerZoneSet(docs)
    ensures OnePerZoneSet(Upserted(docs, id, page, ids, now, content))
            <==> NoDup(ids) && !(ids == [] && HasOldRecord(docs, page))
  {
    var after := Upserted(docs, id, page, ids, now, content);
    var i := FirstMatch(docs, page, ids);
    assert after[i].zones == Some(ids) && after[i].page == page;
    EmptySet(ids);
    if NoDup(ids) {
      forall j | 0 <= j < |docs|
        ensures Hits(docs[j], page, ids) <==> docs[j].page == page && docs[j].zones.Some? && ToSet(Zones(docs[j])) == ToSet(ids)
      {
        HitsIff(docs[j], page, ids);
      }
      if ids == [] && HasOldRecord(docs, page) {
        OldRecordIsNotFound(docs, id, page, now, content);
      } else {
        UpsertAddsNoSet(docs, page, ids, i);
      }
    }
  }

  /** Otherwise no other record of the page has the zone set of the request. */
  lemma UpsertAddsNoSet(docs: seq<Variant>, page: Page, ids: seq<Id>, i: nat)
    requires OnePerZoneSet(docs) && NoDup(ids) && i == FirstMatch(docs, page, ids)
    requires !(ids == [] && HasOldRecord(docs, page))
    ensures forall j :: 0 <= j < |docs| && j != i && docs[j].page == page ==> ToSet(Zones(docs[j])) != ToSet(ids)
  {
    EmptySet(ids);
    forall j | 0 <= j < |docs| && j != i && docs[j].page == page ensures ToSet(Zones(docs[j])) != ToSet(ids) {
      HitsIff(docs[j], page, ids);
      EmptySet(Zones(docs[j]));
      if i < |docs| {
        HitsIff(docs[i], page, ids);
      }
    }
  }

  /** An upsert answers with a variant of its page and zone set, leaves the others alone, and makes
      a new record exactly when none that has the field has that set. */
  lemma UpsertMeaning(docs: seq<Variant>, id: nat, page: Page, ids: seq<Id>, now: int, content: int)
    requires OnePerZoneSet(docs) && NoDup(ids)
    ensures var after := Upserted(docs, id, page, ids, now, content);
            && (exists j :: 0 <= j < |after| && after[j].page == page && after[j].zones == Some(ids)
                  && after[j].content == content && after[j].updatedAt == now)
            && (forall v :: v in docs && (v.page != page || v.zones.None? || ToSet(Zones(v)) != ToSet(ids)) ==> v in after)
            && (|after| == |docs| <==>
                  exists j :: 0 <= j < |docs| && docs[j].page == page && docs[j].zones.Some? && ToSet(Zones(docs[j])) == ToSet(ids))
  {
    var after := Upserted(docs, id, page, ids, now, content);
    var i := FirstMatch(docs, page, ids);
    assert after[i].page == page && after[i].zones == Some(ids) && after[i].content == content && after[i].updatedAt == now;
    forall j | 0 <= j < |docs|
      ensures Hits(docs[j], page, ids) <==> docs[j].page == page && docs[j].zones.Some? && ToSet(Zones(docs[j])) == ToSet(ids)
    {
      HitsIff(docs[j], page, ids);
    }
    forall v | v in docs && (v.page != page || v.zones.None? || ToSet(Zones(v)) != ToSet(ids)) ensures v in after {
      var j :| 0 <= j < |docs| && docs[j] == v;
      assert after[j] == v;
    }
  }

  /** A repeated id overwrites the variant of another zone set: one zone named twice takes the
      place of that zone with any other. */
  lemma RepeatedIdOverwrites(v: Variant, a: Id, b: Id, id: nat, now: int, content: int)
    requires a != b && v.zones == Some([a, b])
    ensures OnePerZoneSet([v])
    ensures Upserted([v], id, v.page, [a, a], now, content) == [v.(zones := Some([a, a]), updatedAt := now, content := content)]
  {
  }

  /** Saving the all-zones variant updates a record if and only if one has the field, empty. A
      record older than the field is shown in all zones, but never found: unless the page has both
      already, a second all-zones variant is created beside it. */
  lemma OldRecordIsNotFound(docs: seq<Variant>, id: nat, page: Page, now: int, content: int)
    ensures var after := Upserted(docs, id, page, [], now, content);
            && (|after| == |docs| <==> exists j :: 0 <= j < |docs| && docs[j].page == page && docs[j].zones == Some([]))
            && (HasOldRecord(docs, page) ==>
                  exists i, j :: 0 <= i < |after| && 0 <= j < |after| && i != j && after[i].page == after[j].page == page
                    && Zones(after[i]) == Zones(after[j]) == [])
  {
    var after := Upserted(docs, id, page, [], now, content);
    var k := FirstMatch(docs, page, []);
    if HasOldRecord(docs, page) {
      var i :| 0 <= i < |docs| && docs[i].page == page && docs[i].zones.None?;
      assert i != k;
      assert after[i] == docs[i] && Zones(after[k]) == [] && after[k].page == page;
    }
  }

  // ---------------------------------------------------------------- the home page is never empty

  predicate HomeEverywhere(docs: seq<Variant>) {
    exists i :: 0 <= i < |docs| && docs[i].page == Home && Zones(docs[i]) == []
  }

  lemma UpsertKeepsHome(docs: seq<Variant>, id: nat, page: Page, ids: seq<Id>, now: int, content: int)
    requires HomeEverywhere(docs)
    ensures HomeEverywhere(Upserted(docs, id, page, ids, now, content))
  {
    var i :| 0 <= i < |docs| && docs[i].page == Home && Zones(docs[i]) == [];
    var after := Upserted(docs, id, page, ids, now, content);
    assert after[i].page == Home && Zones(after[i]) == [];
  }

  lemma DeleteKeepsHome(docs: seq<Variant>, id: nat)
    requires HomeEverywhere(docs)
    ensures HomeEverywhere(Deleted(docs, id))
  {
    var i :| 0 <= i < |docs| && docs[i].page == Home && Zones(docs[i]) == [];
    var k := FirstId(docs, id);
    var after := Deleted(docs, id);
    if after != docs {
      assert i != k;
      assert after[if i < k then i else i - 1] == docs[i];
    }
  }

  lemma {:induction false} OfPageMembers(docs: seq<Variant>, page: Page, v: Variant)
    ensures v in OfPage(docs, page) <==> v in docs && v.page == page
    decreases |docs|
  {
    if docs != [] {
      OfPageMembers(docs[1..], page, v);
      assert v in docs <==> v == docs[0] || v in docs[1..];
    }
  }

  /** A stored variant of the page that the customer may see; without a location everything is shown. */
  ghost predicate Offered(docs: seq<Variant>, page: Page, customer: Option<set<Id>>, v: Variant) {
    v in docs && v.page == page && (customer.None? || Zones(v) == [] || exists z :: z in Zones(v) && z in customer.value)
  }

  lemma VisibleIff(v: Variant, customer: set<Id>)
    ensures IsVisible(v, customer) <==> Zones(v) == [] || exists z :: z in Zones(v) && z in customer
  {
    if z :| z in Zones(v) && z in customer {
      var k :| 0 <= k < |Zones(v)| && Zones(v)[k] == z;
      assert IsVisible(v, customer);
    }
    if IsVisible(v, customer) && Zones(v) != [] {
      var k :| 0 <= k < |Zones(v)| && Zones(v)[k] in customer;
      var z := Zones(v)[k];
      assert z in Zones(v) && z in customer;
    }
  }

  lemma OfferedIsShown(docs: seq<Variant>, page: Page, customer: Option<set<Id>>, v: Variant)
    ensures Offered(docs, page, customer, v) <==> Shown(OfPage(docs, page), customer, v)
  {
    OfPageMembers(docs, page, v);
    if customer.Some? {
      VisibleIff(v, customer.value);
    }
  }

  /** What is picked for a page is the best of what it offers: scoped to the fewest zones, the newest
      of those, for all zones only when nothing scoped is offered. */
  lemma PageAnswers(docs: seq<Variant>, page: Page, customer: Option<set<Id>>)
    ensures var r := PickBest(OfPage(docs, page), customer);
            && (r.Some? <==> exists v :: Offered(docs, page, customer, v))
            && (r.Some? ==>
                  && Offered(docs, page, customer, r.value)
                  && forall v :: Offered(docs, page, customer, v) ==>
                       if Zones(r.value) == [] then Zones(v) == [] && v.updatedAt <= r.value.updatedAt
                       else Zones(v) == [] || |Zones(r.value)| < |Zones(v)|
                            || (|Zones(r.value)| == |Zones(v)| && v.updatedAt <= r.value.updatedAt))
  {
    PickBestMeaning(OfPage(docs, page), customer);
    forall v ensures Offered(docs, page, customer, v) <==> Shown(OfPage(docs, page), customer, v) {
      OfferedIsShown(docs, page, customer, v);
    }
  }

  /** A header page answers with its own variant whenever it offers one, and with the home page's only
      then; a home page answers with its own; any other page with nothing. */
  lemma FreshMeaning(docs: seq<Variant>, k: Key)
    ensures k.query == OtherPage ==> Fresh(docs, k).None?
    ensures k.query.HomePage? ==>
              (Fresh(docs, k).Some? <==> exists v :: Offered(docs, Home, k.customer, v))
    ensures k.query.HeaderPage? ==>
              (Fresh(docs, k).Some? <==>
                 exists v :: Offered(docs, Header(k.query.header), k.customer, v) || Offered(docs, Home, k.customer, v))
    ensures Fresh(docs, k).Some? ==>
              var page := if k.query.HeaderPage? && exists v :: Offered(docs, Header(k.query.header), k.customer, v)
                          then Header(k.query.header) else Home;
              && Offered(docs, page, k.customer, Fresh(docs, k).value)
              && Fresh(docs, k) == PickBest(OfPage(docs, page), k.customer)
  {
    PageAnswers(docs, Home, k.customer);
    if k.query.HeaderPage? {
      PageAnswers(docs, Header(k.query.header), k.customer);
    }
  }

  /** While the home page has its all-zones variant, every home or header lookup finds something. */
  lemma HomeAnswersEverything(docs: seq<Variant>, k: Key)
    requires HomeEverywhere(docs) && k.query != OtherPage
    ensures Fresh(docs, k).Some?
  {
    var i :| 0 <= i < |docs| && docs[i].page == Home && Zones(docs[i]) == [];
    OfPageMembers(docs, Home, docs[i]);
    PickBestMeaning(OfPage(docs, Home), k.customer);
    assert Shown(OfPage(docs, Home), k.customer, docs[i]);
  }

  // ---------------------------------------------------------------- runs with the cache

  datatype Event =
    | Upsert(page: Page, ids: Option<seq<Id>>, headerExists: bool, now: int, content: int)
    | Delete(id: nat)
    | Lookup(key: Key)
    | Evict(key: Key)

  /** Malformed zone ids and unknown headers are refused. */
  predicate UpsertAccepted(page: Page, ids: Option<seq<Id>>, headerExists: bool) {
    ids.Some? && (page.Header? ==> headerExists)
  }

  /** `getOrSet`: an empty answer is stored too, but reads back as a miss. */
  function Answer(s: State, k: Key): Option<Variant> {
    if k in s.cache then Some(s.cache[k]) else Fresh(s.docs, k)
  }

  function Filled(cache: map<Key, Variant>, k: Key, v: Option<Variant>): map<Key, Variant> {
    if v.Some? then cache[k := v.value] else cache - {k}
  }

  function Step(s: State, e: Event): State {
    match e
    case Upsert(page, ids, headerExists, now, content) =>
      if UpsertAccepted(page, ids, headerExists)
      then State(Upserted(s.docs, s.nextId, page, ids.value, now, content), s.nextId + 1, map[]) else s
    case Delete(id) =>
      if Deleted(s.docs, id) != s.docs then s.(docs := Deleted(s.docs, id), cache := map[]) else s
    case Lookup(k) => s.(cache := Filled(s.cache, k, Answer(s, k)))
    case Evict(k) => s.(cache := s.cache - {k})
  }

  function Run(s: State, es: seq<Event>): State
    decreases |es|
  {
    if es == [] then s else Run(Step(s, es[0]), es[1..])
  }

  predicate CacheAgrees(s: State) {
    forall k :: k in s.cache ==> Fresh(s.docs, k) == Some(s.cache[k])
  }

  lemma StepKeeps(s: State, e: Event)
    requires CacheAgrees(s)
    ensures CacheAgrees(Step(s, e))
    ensures HomeEverywhere(s.docs) ==> HomeEverywhere(Step(s, e).docs)
  {
    if HomeEverywhere(s.docs) {
      if e.Upsert? && e.ids.Some? {
        UpsertKeepsHome(s.docs, s.nextId, e.page, e.ids.value, e.now, e.content);
      } else if e.Delete? {
        DeleteKeepsHome(s.docs, e.id);
      }
    }
  }

  /**
    On every run of saves, deletions, lookups and evictions the cached answer is the fresh one;
    and once the home page has its all-zones variant, no lookup for a home or header page comes
    back empty.
  */
  lemma {:induction false} LookupsAgreeAndAnswer(s: State, es: seq<Event>, k: Key)
    requires CacheAgrees(s)
    ensures var t := Run(s, es);
            && CacheAgrees(t)
            && Answer(t, k) == Fresh(t.docs, k)
            && (HomeEverywhere(s.docs) && k.query != OtherPage ==> Answer(t, k).Some?)
    decreases |es|
  {
    if es == [] {
      if HomeEverywhere(s.docs) && k.query != OtherPage {
        HomeAnswersEverything(s.docs, k);
      }
    } else {
      StepKeeps(s, es[0]);
      LookupsAgreeAndAnswer(Step(s, es[0]), es[1..], k);
    }
  }

  /** A save that keeps one variant per zone set on these records. */
  predicate CleanSave(docs: seq<Variant>, e: Event) {
    e.Upsert? && UpsertAccepted(e.page, e.ids, e.headerExists)
    ==> NoDup(e.ids.value) && !(e.ids.value == [] && HasOldRecord(docs, e.page))
  }

  /** No step makes an old record. */
  lemma StepMakesNoOldRecord(s: State, e: Event, page: Page)
    ensures HasOldRecord(Step(s, e).docs, page) ==> HasOldRecord(s.docs, page)
  {
    var t := Step(s, e);
    if i :| 0 <= i < |t.docs| && t.docs[i].page == page && t.docs[i].zones.None? {
      if e.Delete? && t != s {
        var k := FirstId(s.docs, e.id);
        assert t.docs[i] == s.docs[if i < k then i else i + 1];
      } else {
        assert s.docs[i] == t.docs[i];
      }
    }
  }

  lemma StepKeepsOnePerSet(s: State, e: Event)
    requires OnePerZoneSet(s.docs) && CleanSave(s.docs, e)
    ensures OnePerZoneSet(Step(s, e).docs)
  {
    if e.Upsert? && UpsertAccepted(e.page, e.ids, e.headerExists) {
      UpsertKeepsOnePerSetIff(s.docs, s.nextId, e.page, e.ids.value, e.now, e.content);
    }
  }

  /** Saves that repeat no id, and save no all-zones variant where there was an old record, keep one
      variant per zone set over any run. */
  lemma {:induction false} RunKeepsOnePerSet(s: State, es: seq<Event>)
    requires OnePerZoneSet(s.docs) && forall e :: e in es ==> CleanSave(s.docs, e)
    ensures OnePerZoneSet(Run(s, es).docs)
    decreases |es|
  {
    if es != [] {
      assert es[0] in es && forall d :: d in es[1..] ==> d in es;
      StepKeepsOnePerSet(s, es[0]);
      forall e | e in es[1..] ensures CleanSave(Step(s, es[0]).docs, e) {
        if e.Upsert? {
          StepMakesNoOldRecord(s, es[0], e.page);
        }
      }
      RunKeepsOnePerSet(Step(s, es[0]), es[1..]);
    }
  }

  // ---------------------------------------------------------------- a lookup that is overtaken

  /** A lookup that missed the cache read the collection, then `es` happened, then it filled the cache. */
  function Overtaken(s: State, k: Key, es: seq<Event>): State {
    var t := Run(s, es);
    t.(cache := Filled(t.cache, k, Fresh(s.docs, k)))
  }

  /** The fill is harmless exactly when no answer is stored or the answer has not changed meanwhile. */
  lemma OvertakenAgreesIff(s: State, k: Key, es: seq<Event>)
    requires CacheAgrees(s)
    ensures CacheAgrees(Overtaken(s, k, es)) <==>
            (Fresh(s.docs, k).Some? ==> Fresh(Run(s, es).docs, k) == Fresh(s.docs, k))
  {
    LookupsAgreeAndAnswer(s, es, k);
    var t := Run(s, es);
    var u := Overtaken(s, k, es);
    if Fresh(s.docs, k).Some? {
      assert k in u.cache;
    }
  }

  // ---------------------------------------------------------------- identities and deletion

  /** Every record has an identity of its own, below the next one to be given. */
  predicate IdsApart(s: State) {
    && (forall i, j :: 0 <= i < j < |s.docs| ==> s.docs[i].id != s.docs[j].id)
    && (forall i :: 0 <= i < |s.docs| ==> s.docs[i].id < s.nextId)
  }

  lemma WithoutOne(docs: seq<Variant>, i: nat, v: Variant)
    requires i < |docs|
    ensures v in docs[..i] + docs[i + 1..] <==> exists j :: 0 <= j < |docs| && j != i && docs[j] == v
  {
    var after := docs[..i] + docs[i + 1..];
    if v in after {
      var j :| 0 <= j < |after| && after[j] == v;
      assert docs[if j < i then j else j + 1] == v;
    }
    if j :| 0 <= j < |docs| && j != i && docs[j] == v {
      assert after[if j < i then j else j - 1] == v;
    }
  }

  /** Deleting takes the record of that identity, if it is scoped to zones, and no other. */
  lemma DeletedMeaning(s: State, id: nat)
    requires IdsApart(s)
    ensures forall v :: v in Step(s, Delete(id)).docs <==> v in s.docs && !(v.id == id && Zones(v) != [])
    ensures Step(s, Delete(id)).docs != s.docs ==> Step(s, Delete(id)).cache == map[]
    ensures Step(s, Delete(id)).docs == s.docs ==> Step(s, Delete(id)) == s
  {
    var i := FirstId(s.docs, id);
    forall v ensures v in Deleted(s.docs, id) <==> v in s.docs && !(v.id == id && Zones(v) != []) {
      if i < |s.docs| && Zones(s.docs[i]) != [] {
        WithoutOne(s.docs, i, v);
      }
    }
  }

  lemma UpsertKeepsIds(s: State, page: Page, ids: seq<Id>, now: int, content: int)
    requires IdsApart(s)
    ensures IdsApart(State(Upserted(s.docs, s.nextId, page, ids, now, content), s.nextId + 1, map[]))
  {
    var i, t := FirstMatch(s.docs, page, ids), Upserted(s.docs, s.nextId, page, ids, now, content);
    assert forall j :: 0 <= j < |t| ==> t[j].id == if j < |s.docs| then s.docs[j].id else s.nextId;
  }

  lemma DeleteKeepsIds(s: State, id: nat)
    requires IdsApart(s)
    ensures IdsApart(s.(docs := Deleted(s.docs, id), cache := map[]))
  {
    var i, t := FirstId(s.docs, id), Deleted(s.docs, id);
    if t != s.docs {
      assert forall j :: 0 <= j < |t| ==> t[j] == s.docs[if j < i then j else j + 1];
    }
  }

  lemma StepKeepsIdsApart(s: State, e: Event)
    requires IdsApart(s)
    ensures IdsApart(Step(s, e))
  {
    match e
    case Upsert(page, ids, headerExists, now, content) =>
      if UpsertAccepted(page, ids, headerExists) {
        UpsertKeepsIds(s, page, ids.value, now, content);
      }
    case Delete(id) => DeleteKeepsIds(s, id);
    case _ =>
  }

  /** Saves and deletions never give two records the same identity. */
  lemma {:induction false} RunKeepsIdsApart(s: State, es: seq<Event>)
    requires IdsApart(s)
    ensures IdsApart(Run(s, es))
    decreases |es|
  {
    if es != [] {
      StepKeepsIdsApart(s, es[0]);
      RunKeepsIdsApart(Step(s, es[0]), es[1..]);
    }
  }
}
