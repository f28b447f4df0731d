/** The continuation cache and its paging (service.py). */
module Continuation {
  import opened Basics
  import opened Tokens

  const MAX_ENTRY_BYTES := 16 * 1024 * 1024
  const MAX_CACHE_BYTES := 64 * 1024 * 1024
  const MAX_CACHE_ENTRIES := 32

  type Id = string
  type QueryKey = seq<string>

  datatype Node = Node(id: string)

  datatype Entry = Entry(entryId: Id, queryKey: QueryKey, sourceFingerprint: string, nodes: seq<Node>, weight: nat)

  datatype Error = InvalidContinuation | Unavailable | QueryMismatch | Stale

  datatype Result<T> = Ok(value: T) | Err(error: Error)

  datatype Page = Page(offset: nat, nextOffset: Option<nat>, totalNodes: nat)

  datatype Response = Response(nodes: seq<Node>, truncated: bool, continuation: Option<string>, page: Option<Page>)

  const TIME_BUDGET := Response([], true, None, None)

  /** _bounded_response for plain nodes. */
  function Bounded(nodes: seq<Node>, maxNodes: nat, late: bool): Response {
    Response(nodes[..Min(maxNodes, |nodes|)], |nodes| > maxNodes || late, None, None)
  }

  /** An ordinary answer holds the first nodes, as many as fit, and is truncated
      exactly when it is late or leaves a node out. */
  lemma BoundedMeans(nodes: seq<Node>, maxNodes: nat, late: bool)
    ensures var r := Bounded(nodes, maxNodes, late);
      && r.nodes <= nodes && |r.nodes| <= maxNodes && (|r.nodes| < maxNodes ==> r.nodes == nodes)
      && (r.truncated <==> late || r.nodes != nodes) && r.continuation == None && r.page == None
  {
    assert nodes[..|nodes|] == nodes;
  }

  // ---------- The order and weight of entries ----------

  function Without(order: seq<Id>, id: Id): (r: seq<Id>)
    ensures |r| <= |order|
  {
    if order == [] then [] else if order[0] == id then order[1..] else [order[0]] + Without(order[1..], id)
  }

  /** The sum of the weights of the listed entries. */
  function Weight(order: seq<Id>, cache: map<Id, Entry>): nat {
    if order == [] then 0
    else (if order[0] in cache then cache[order[0]].weight else 0) + Weight(order[1..], cache)
  }

  lemma {:induction false} WithoutMembers(order: seq<Id>, id: Id)
    requires Unique(order) && id in order
    ensures Unique(Without(order, id)) && |Without(order, id)| == |order| - 1
    ensures forall x :: x in Without(order, id) <==> x in order && x != id
  {
    if order[0] != id {
      assert id in order[1..];
      WithoutMembers(order[1..], id);
      var rest := Without(order[1..], id);
      assert Without(order, id) == [order[0]] + rest;
      forall i | 0 <= i < |rest|
        ensures rest[i] in order[1..]
      {
        assert rest[i] in rest;
      }
    }
  }

  lemma {:induction false} WithoutWeight(order: seq<Id>, id: Id, cache: map<Id, Entry>)
    requires id in order && id in cache
    ensures Weight(Without(order, id), cache) == Weight(order, cache) - cache[id].weight
  {
    if order[0] != id {
      assert id in order[1..];
      WithoutWeight(order[1..], id, cache);
      assert Without(order, id)[1..] == Without(order[1..], id);
    }
  }

  lemma WithoutOne(order: seq<Id>, id: Id, cache: map<Id, Entry>)
    requires Unique(order) && id in order && id in cache
    ensures Unique(Without(order, id)) && |Without(order, id)| == |order| - 1
    ensures forall x :: x in Without(order, id) <==> x in order && x != id
    ensures Weight(Without(order, id), cache) == Weight(order, cache) - cache[id].weight
  {
    WithoutMembers(order, id);
    WithoutWeight(order, id, cache);
  }

  lemma {:induction false} WeightAppend(order: seq<Id>, id: Id, cache: map<Id, Entry>)
    requires id in cache
    ensures Weight(order + [id], cache) == Weight(order, cache) + cache[id].weight
  {
    if order != [] {
      WeightAppend(order[1..], id, cache);
      assert (order + [id])[1..] == order[1..] + [id];
    } else {
      assert (order + [id])[1..] == [];
    }
  }

  lemma {:induction false} WeightFrame(order: seq<Id>, cache: map<Id, Entry>, cache': map<Id, Entry>)
    requires forall x | x in order :: x in cache && x in cache' && cache[x] == cache'[x]
    ensures Weight(order, cache) == Weight(order, cache')
  {
    if order != [] {
      WeightFrame(order[1..], cache, cache');
    }
  }

  // ---------- What the counters must agree with ----------

  /** An entry is listed exactly when it is cached, and then it is within its
      limit, found by its query, and something that was stored. */
  ghost predicate Held(order: seq<Id>, cache: map<Id, Entry>, queries: map<QueryKey, Id>, stored: map<Id, Entry>, id: Id) {
    && (id in order <==> id in cache)
    && (id in cache ==>
          && cache[id].entryId == id && cache[id].weight <= MAX_ENTRY_BYTES
          && cache[id].queryKey in queries && queries[cache[id].queryKey] == id
          && id in stored && stored[id] == cache[id])
  }

  /** A query that is mapped at all is mapped to the cached entry that answers it. */
  ghost predicate Mapped(cache: map<Id, Entry>, queries: map<QueryKey, Id>, key: QueryKey) {
    key in queries ==> queries[key] in cache && cache[queries[key]].queryKey == key
  }

  /** The order lists every entry once; queries and entries correspond one to one. */
  ghost predicate Sane(order: seq<Id>, cache: map<Id, Entry>, queries: map<QueryKey, Id>, stored: map<Id, Entry>) {
    && Unique(order)
    && (forall id {:trigger Held(order, cache, queries, stored, id)} :: Held(order, cache, queries, stored, id))
    && (forall key {:trigger Mapped(cache, queries, key)} :: Mapped(cache, queries, key))
  }

  lemma Members(order: seq<Id>, cache: map<Id, Entry>, queries: map<QueryKey, Id>, stored: map<Id, Entry>)
    requires Sane(order, cache, queries, stored)
    ensures forall id :: id in order <==> id in cache
  {
    forall id
      ensures id in order <==> id in cache
    {
      assert Held(order, cache, queries, stored, id);
    }
  }

  lemma SaneAppend(order: seq<Id>, cache: map<Id, Entry>, queries: map<QueryKey, Id>, stored: map<Id, Entry>, entry: Entry)
    requires Sane(order, cache, queries, stored)
    requires entry.entryId !in stored && entry.queryKey !in queries && entry.weight <= MAX_ENTRY_BYTES
    ensures Sane(order + [entry.entryId], cache[entry.entryId := entry], queries[entry.queryKey := entry.entryId],
                 stored[entry.entryId := entry])
    ensures Weight(order + [entry.entryId], cache[entry.entryId := entry]) == Weight(order, cache) + entry.weight
  {
    var order', cache' := order + [entry.entryId], cache[entry.entryId := entry];
    var queries', stored' := queries[entry.queryKey := entry.entryId], stored[entry.entryId := entry];
    forall id
      ensures Held(order', cache', queries', stored', id)
      ensures Held(order, cache, queries, stored, id)
    {
      assert Held(order, cache, queries, stored, id);
      assert id in order' <==> id in order || id == entry.entryId;
    }
    forall key
      ensures Mapped(cache', queries', key)
    {
      assert Mapped(cache, queries, key);
      assert Held(order, cache, queries, stored, entry.entryId);
    }
    Members(order, cache, queries, stored);
    assert Held(order, cache, queries, stored, entry.entryId);
    WeightFrame(order, cache, cache');
    WeightAppend(order, entry.entryId, cache');
  }

  lemma SaneWithout(order: seq<Id>, cache: map<Id, Entry>, queries: map<QueryKey, Id>, stored: map<Id, Entry>, id: Id)
    requires Sane(order, cache, queries, stored) && id in cache
    ensures cache[id].queryKey in queries && queries[cache[id].queryKey] == id
    ensures Sane(Without(order, id), cache - {id}, queries - {cache[id].queryKey}, stored)
    ensures |Without(order, id)| == |order| - 1
    ensures Weight(Without(order, id), cache - {id}) == Weight(order, cache) - cache[id].weight
    ensures forall key | key in queries && queries[key] == id :: key == cache[id].queryKey
  {
    assert Held(order, cache, queries, stored, id);
    WithoutOne(order, id, cache);
    var order', cache', queries' := Without(order, id), cache - {id}, queries - {cache[id].queryKey};
    forall x
      ensures Held(order', cache', queries', stored, x)
    {
      assert Held(order, cache, queries, stored, x);
    }
    forall key
      ensures Mapped(cache', queries', key) && (key in queries && queries[key] == id ==> key == cache[id].queryKey)
    {
      assert Mapped(cache, queries, key);
    }
    Members(order, cache, queries, stored);
    WeightFrame(order', cache, cache');
  }

  lemma SaneTouch(order: seq<Id>, cache: map<Id, Entry>, queries: map<QueryKey, Id>, stored: map<Id, Entry>, id: Id)
    requires Sane(order, cache, queries, stored) && id in cache
    ensures Sane(Without(order, id) + [id], cache, queries, stored)
    ensures |Without(order, id) + [id]| == |order| && Weight(Without(order, id) + [id], cache) == Weight(order, cache)
  {
    assert Held(order, cache, queries, stored, id);
    WithoutOne(order, id, cache);
    WeightAppend(Without(order, id), id, cache);
    forall x
      ensures Held(Without(order, id) + [id], cache, queries, stored, x)
    {
      assert Held(order, cache, queries, stored, x);
    }
  }

  /** Room for one more entry of this weight. */
  predicate Fits(entries: nat, bytes: int, weight: nat) {
    entries < MAX_CACHE_ENTRIES && bytes + weight <= MAX_CACHE_BYTES
  }

  /** Evicting the oldest first, and no more than needed. */
  ghost predicate Evicted(before: seq<Id>, after: seq<Id>, cache: map<Id, Entry>, weight: nat) {
    exists k | 0 <= k <= |before| :: after == before[k..] && NoFewer(before, cache, weight, k)
  }

  /** One eviction less would have left too little room. */
  ghost predicate NoFewer(before: seq<Id>, cache: map<Id, Entry>, weight: nat, k: nat)
    requires k <= |before|
  {
    k > 0 ==> !Fits(|before| - (k - 1), Weight(before[k - 1..], cache), weight)
  }

  /** The order once the previous entry of the same query is gone. */
  function Others(order: seq<Id>, queries: map<QueryKey, Id>, key: QueryKey): seq<Id> {
    if key in queries then Without(order, queries[key]) else order
  }

  lemma SaneFirst(order: seq<Id>, cache: map<Id, Entry>, queries: map<QueryKey, Id>, stored: map<Id, Entry>)
    requires Sane(order, cache, queries, stored) && order != []
    ensures order[0] in cache && Without(order, order[0]) == order[1..]
  {
    assert Held(order, cache, queries, stored, order[0]);
  }

  /** After `k` evictions the rest is as it was. */
  ghost predicate Rest(before: seq<Id>, k: nat, was: map<Id, Entry>, cache: map<Id, Entry>) {
    k <= |before| && forall id {:trigger RestOne(was, cache, id)} | id in before[k..] :: RestOne(was, cache, id)
  }

  ghost predicate RestOne(was: map<Id, Entry>, cache: map<Id, Entry>, id: Id) {
    id in was && id in cache && cache[id] == was[id]
  }

  lemma RestAtFirst(order: seq<Id>, cache: map<Id, Entry>, queries: map<QueryKey, Id>, stored: map<Id, Entry>)
    requires Sane(order, cache, queries, stored)
    ensures Rest(order, 0, cache, cache)
  {
    Members(order, cache, queries, stored);
  }

  lemma RestNext(before: seq<Id>, k: nat, was: map<Id, Entry>, cache: map<Id, Entry>, weight: nat, bytes: int)
    requires Rest(before, k, was, cache) && k < |before| && Unique(before)
    requires !Fits(|before| - k, bytes, weight) && bytes == Weight(before[k..], cache)
    ensures Rest(before, k + 1, was, cache - {before[k]}) && NoFewer(before, was, weight, k + 1)
  {
    forall id | id in before[k..]
      ensures RestOne(was, cache, id)
    {
    }
    WeightFrame(before[k..], was, cache);
    forall id | id in before[k + 1..]
      ensures RestOne(was, cache - {before[k]}, id)
    {
      assert id in before[k..] && RestOne(was, cache, id);
    }
  }

  class Continuations {
    var cache: map<Id, Entry>
    var order: seq<Id>
    var queries: map<QueryKey, Id>
    var bytes: int
    ghost var stored: map<Id, Entry> // every entry ever stored

    ghost predicate Valid()
      reads this
    {
      && Sane(order, cache, queries, stored)
      && bytes == Weight(order, cache) <= MAX_CACHE_BYTES && |order| <= MAX_CACHE_ENTRIES
    }

    constructor ()
      ensures Valid() && stored == map[] && cache == map[]
    {
      cache, order, queries, bytes, stored := map[], [], map[], 0, map[];
    }

    /** The entry that a repeated query finds. */
    function Found(key: QueryKey): Option<Entry>
      reads this
    {
      if key in queries && queries[key] in cache then Some(cache[queries[key]]) else None
    }

    /** _clear_ts_continuations */
    method Clear()
      requires Valid()
      modifies this`cache, this`order, this`queries, this`bytes
      ensures Valid() && cache == map[] && queries == map[] && bytes == 0
    {
      cache, order, queries, bytes := map[], [], map[], 0;
    }

    /** _remove_ts_continuation: the clamp at zero never changes anything. */
    method Remove(id: Id)
      requires Valid()
      modifies this`cache, this`order, this`queries, this`bytes
      ensures Valid() && cache == old(cache) - {id}
      ensures order == if id in old(cache) then Without(old(order), id) else old(order)
      ensures bytes == old(bytes) - if id in old(cache) then old(cache)[id].weight else 0
      ensures queries == old(queries) - if id in old(cache) then {old(cache)[id].queryKey} else {}
    {
      if id in cache {
        SaneWithout(order, cache, queries, stored, id);
        var entry := cache[id];
        cache, order := cache - {id}, Without(order, id);
        bytes := if bytes - entry.weight > 0 then bytes - entry.weight else 0;
        if entry.queryKey in queries && queries[entry.queryKey] == id {
          queries := queries - {entry.queryKey};
        }
      }
    }

    /** The loop of _store_ts_continuation that evicts the oldest entries. */
    method MakeRoom(weight: nat)
      requires Valid() && weight <= MAX_ENTRY_BYTES
      modifies this`cache, this`order, this`queries, this`bytes
      ensures Valid() && Fits(|order|, bytes, weight)
      ensures Evicted(old(order), order, old(cache), weight)
      ensures |old(order)| < 32 && old(bytes) + weight <= 64 * 1024 * 1024 ==> order == old(order) && cache == old(cache)
      ensures queries.Keys <= old(queries.Keys)
    {
      ghost var k := 0;
      RestAtFirst(order, cache, queries, stored);
      while order != [] && !Fits(|order|, bytes, weight)
        invariant Valid() && 0 <= k <= |old(order)| && order == old(order)[k..]
        invariant k == 0 ==> order == old(order) && cache == old(cache) && bytes == old(bytes)
        invariant k > 0 ==> |old(order)| >= 32 || old(bytes) + weight > 64 * 1024 * 1024
        invariant NoFewer(old(order), old(cache), weight, k) && Rest(old(order), k, old(cache), cache)
        invariant queries.Keys <= old(queries.Keys)
        decreases |order|
      {
        SaneFirst(order, cache, queries, stored);
        RestNext(old(order), k, old(cache), cache, weight, bytes);
        Remove(order[0]);
        k := k + 1;
      }
    }

    /** The three assignments that end _store_ts_continuation. */
    method Append(entry: Entry)
      requires Valid() && entry.entryId !in stored && entry.queryKey !in queries
      requires entry.weight <= MAX_ENTRY_BYTES && Fits(|order|, bytes, entry.weight)
      modifies this`cache, this`order, this`queries, this`bytes, this`stored
      ensures Valid() && cache == old(cache)[entry.entryId := entry] && order == old(order) + [entry.entryId]
      ensures queries == old(queries)[entry.queryKey := entry.entryId] && stored == old(stored)[entry.entryId := entry]
      ensures bytes == old(bytes) + entry.weight
    {
      SaneAppend(order, cache, queries, stored, entry);
      cache := cache[entry.entryId := entry];
      order := order + [entry.entryId];
      queries := queries[entry.queryKey := entry.entryId];
      bytes := bytes + entry.weight;
      stored := stored[entry.entryId := entry];
    }

    /** _store_ts_continuation. `entryId` is the drawn id, new to this session.
        Only an oversized entry is refused. */
    method Store(queryKey: QueryKey, sourceFingerprint: string, nodes: seq<Node>, weight: nat, entryId: Id)
      returns (r: Option<Entry>)
      requires Valid() && entryId !in stored
      modifies this`cache, this`order, this`queries, this`bytes, this`stored
      ensures Valid()
      ensures r == if weight <= MAX_ENTRY_BYTES then Some(Entry(entryId, queryKey, sourceFingerprint, nodes, weight)) else None
      ensures r.None? ==> cache == old(cache) && order == old(order) && queries == old(queries) && stored == old(stored)
      ensures r.Some? ==> stored == old(stored)[entryId := r.value] && entryId in cache
      ensures r.Some? ==> order != [] && order[|order| - 1] == entryId
                          && Evicted(Others(old(order), old(queries), queryKey), order[..|order| - 1], old(cache), weight)
    {
      if weight > MAX_ENTRY_BYTES {
        return None;
      }
      RemovePrevious(queryKey);
      ghost var others, kept := order, cache;
      MakeRoom(weight);
      EvictedFrame(others, order, kept, old(cache), weight);
      var entry := Entry(entryId, queryKey, sourceFingerprint, nodes, weight);
      var refused := !Fits(|order|, bytes, weight);
      r := if refused then None else Some(entry);
      if !refused {
        Append(entry);
      }
      assert order[..|order| - 1] + [entryId] == order;
    }

    /** An earlier entry of the same query makes way for the new one. */
    method RemovePrevious(queryKey: QueryKey)
      requires Valid()
      modifies this`cache, this`order, this`queries, this`bytes
      ensures Valid() && queryKey !in queries && order == Others(old(order), old(queries), queryKey)
      ensures forall id | id in order :: id in cache && id in old(cache) && cache[id] == old(cache)[id]
    {
      if queryKey in queries {
        assert Mapped(cache, queries, queryKey);
        Remove(queries[queryKey]);
      }
      forall id | id in order
        ensures id in cache
      {
        assert Held(order, cache, queries, stored, id);
      }
    }

    /** move_to_end: the entry becomes the last to be evicted. */
    method Touch(id: Id)
      requires Valid() && id in cache
      modifies this`order
      ensures Valid() && order == Without(old(order), id) + [id]
    {
      SaneTouch(order, cache, queries, stored, id);
      order := Without(order, id) + [id];
    }
  }

  lemma EvictedFrame(before: seq<Id>, after: seq<Id>, cache: map<Id, Entry>, cache': map<Id, Entry>, weight: nat)
    requires Evicted(before, after, cache, weight)
    requires forall x | x in before :: x in cache && x in cache' && cache[x] == cache'[x]
    ensures Evicted(before, after, cache', weight)
  {
    var k :| 0 <= k <= |before| && after == before[k..] && NoFewer(before, cache, weight, k);
    if k > 0 {
      WeightFrame(before[k - 1..], cache, cache');
    }
    assert NoFewer(before, cache', weight, k);
  }

  // ---------- Pages ----------

  /** The k-th reading of the clock in a call is past the limit. */
  type Clock = nat -> bool

  /** _ts_continuation_page when it is on time. */
  function PageAt(c: Scheme, entry: Entry, offset: nat, maxNodes: nat): Response
    requires offset <= |entry.nodes|
  {
    var end := Min(|entry.nodes|, offset + maxNodes);
    var more := end < |entry.nodes|;
    Response(entry.nodes[offset..end], more, if more then Some(c.make(Place(entry.entryId, end))) else None,
             Some(Page(offset, if more then Some(end) else None, |entry.nodes|)))
  }

  /** A page is the stored nodes from its offset on, as many as fit; it is truncated,
      has a token and a next offset exactly when nodes are left, and the token then
      means the first of these. */
  lemma PageMeans(c: Scheme, entry: Entry, offset: nat, maxNodes: nat)
    requires offset <= |entry.nodes| && maxNodes > 0 && c.Faithful() && IsEntryId(entry.entryId)
    ensures var r := PageAt(c, entry, offset, maxNodes);
      var next := offset + |r.nodes|;
      && next <= |entry.nodes| && entry.nodes[offset..next] == r.nodes
      && |r.nodes| <= maxNodes && (|r.nodes| < maxNodes ==> next == |entry.nodes|)
      && (r.truncated <==> next < |entry.nodes|)
      && (r.continuation.Some? <==> r.truncated)
      && (r.continuation.Some? ==> c.parse(r.continuation.value) == Some(Place(entry.entryId, next)))
      && r.page == Some(Page(offset, if r.truncated then Some(next) else None, |entry.nodes|))
  {
    var next := offset + |PageAt(c, entry, offset, maxNodes).nodes|;
    if next < |entry.nodes| {
      assert Proper(Place(entry.entryId, next));
    }
  }

  /** _continuation_timeout_response: the same token again. */
  function TimedOut(entry: Entry, offset: nat, token: string): Response {
    Response([], true, Some(token), Some(Page(offset, Some(offset), |entry.nodes|)))
  }

  /** It says what a page without room for any node would say. */
  lemma TimedOutIsEmptyPage(c: Scheme, entry: Entry, offset: nat)
    requires offset < |entry.nodes|
    ensures TimedOut(entry, offset, c.make(Place(entry.entryId, offset))) == PageAt(c, entry, offset, 0)
  {
  }

  /** The token means nodes of a cached entry. */
  predicate Resolves(cached: map<Id, Entry>, place: Place) {
    place.entry in cached && place.offset < |cached[place.entry].nodes|
  }

  /** It means a cached entry of the same query over the same sources. */
  predicate Grounds(cached: map<Id, Entry>, place: Place, key: QueryKey, fingerprint: Option<string>) {
    && Resolves(cached, place)
    && key == cached[place.entry].queryKey && fingerprint == Some(cached[place.entry].sourceFingerprint)
  }

  function Reply(c: Scheme, entry: Entry, offset: nat, token: string, maxNodes: nat, late: bool): Response
    requires offset <= |entry.nodes|
  {
    if late then TimedOut(entry, offset, token) else PageAt(c, entry, offset, maxNodes)
  }

  /** Without session continuations, their secret or a repository no token means anything. */
  function ParseWith(scheme: Option<Scheme>, token: string): Option<Place> {
    if scheme.Some? then scheme.value.parse(token) else None
  }

  /** _query_ts_continuation */
  method QueryContinuation(cache: Continuations, scheme: Option<Scheme>, token: string, key: QueryKey,
                           fingerprint: Option<string>, maxNodes: nat, late: Clock)
    returns (r: Result<Response>)
    requires cache.Valid()
    modifies cache`cache, cache`order, cache`queries, cache`bytes
    ensures cache.Valid()
    ensures r.Ok? <==>
      ParseWith(scheme, token).Some? && Grounds(old(cache.cache), ParseWith(scheme, token).value, key, fingerprint)
    ensures r.Ok? ==>
      var place := ParseWith(scheme, token).value;
      && place.entry in cache.stored && cache.stored[place.entry] == old(cache.cache)[place.entry]
      && r.value == Reply(scheme.value, cache.stored[place.entry], place.offset, token, maxNodes, late(0) || late(1))
    ensures r.Ok? ==> var id := ParseWith(scheme, token).value.entry;
      cache.order == if late(0) then old(cache.order) else Without(old(cache.order), id) + [id]
    ensures r.Err? && r != Err(Stale) ==> cache.order == old(cache.order)
    ensures r != Err(Stale) ==> cache.cache == old(cache.cache) && cache.queries == old(cache.queries)
    ensures r == Err(Stale) ==>
      && ParseWith(scheme, token).Some?
      && cache.cache == old(cache.cache) - {ParseWith(scheme, token).value.entry}
    ensures r == Err(QueryMismatch) <==>
      var parsed := ParseWith(scheme, token);
      && parsed.Some? && Resolves(old(cache.cache), parsed.value) && key != old(cache.cache)[parsed.value.entry].queryKey
    ensures r == Err(Stale) <==>
      var parsed := ParseWith(scheme, token);
      && parsed.Some? && Resolves(old(cache.cache), parsed.value) && key == old(cache.cache)[parsed.value.entry].queryKey
      && fingerprint.Some? && fingerprint.value != old(cache.cache)[parsed.value.entry].sourceFingerprint
    ensures r == Err(InvalidContinuation) <==>
      var parsed := ParseWith(scheme, token);
      parsed.None? || (parsed.value.entry in old(cache.cache) && parsed.value.offset >= |old(cache.cache)[parsed.value.entry].nodes|)
  {
    if scheme.None? {
      return Err(InvalidContinuation);
    }
    var parsed := scheme.value.parse(token);
    if parsed.None? {
      return Err(InvalidContinuation);
    }
    var id, offset := parsed.value.entry, parsed.value.offset;
    assert Held(cache.order, cache.cache, cache.queries, cache.stored, id);
    if id !in cache.cache {
      return Err(Unavailable);
    }
    var entry := cache.cache[id];
    if offset >= |entry.nodes| {
      return Err(InvalidContinuation);
    }
    if key != entry.queryKey {
      return Err(QueryMismatch);
    }
    if fingerprint.None? {
      return Err(Unavailable);
    }
    if fingerprint.value != entry.sourceFingerprint {
      cache.Remove(id);
      return Err(Stale);
    }
    if late(0) {
      return Ok(TimedOut(entry, offset, token));
    }
    cache.Touch(id);
    r := Ok(if late(1) then TimedOut(entry, offset, token) else PageAt(scheme.value, entry, offset, maxNodes));
  }

  /** _cached_ts_initial_response. A mapped query always has its entry. */
  method CachedInitial(cache: Continuations, c: Scheme, key: QueryKey, fingerprint: string, maxNodes: nat, late: Clock)
    returns (r: Option<Response>)
    requires cache.Valid()
    modifies cache`cache, cache`order, cache`queries, cache`bytes
    ensures cache.Valid()
    ensures r.Some? ==>
      exists id :: id in cache.stored && cache.stored[id].queryKey == key && cache.stored[id].sourceFingerprint == fingerprint
        && r.value == if late(0) || late(1) then TIME_BUDGET else PageAt(c, cache.stored[id], 0, maxNodes)
    ensures r.None? ==> key !in cache.queries
    ensures r.Some? <==> old(cache.Found(key)).Some? && old(cache.Found(key)).value.sourceFingerprint == fingerprint
    ensures r.Some? ==> r.value == if late(0) || late(1) then TIME_BUDGET else PageAt(c, old(cache.Found(key)).value, 0, maxNodes)
  {
    if key !in cache.queries {
      return None;
    }
    var id := cache.queries[key];
    assert Mapped(cache.cache, cache.queries, key);
    assert Held(cache.order, cache.cache, cache.queries, cache.stored, id);
    var entry := cache.cache[id];
    if entry.sourceFingerprint != fingerprint {
      cache.Remove(id);
      return None;
    }
    if late(0) {
      return Some(TIME_BUDGET);
    }
    cache.Touch(id);
    r := Some(if late(1) then TIME_BUDGET else PageAt(c, entry, 0, maxNodes));
  }

  /** Every call of the clock is on time. */
  ghost predicate Prompt(late: Clock) {
    forall k :: !late(k)
  }

  /** _cache_ts_initial_response: the first page, or an answer without a token. */
  method CacheInitial(cache: Continuations, c: Scheme, key: QueryKey, before: Option<string>, after: Option<string>,
                      nodes: seq<Node>, weight: nat, id: Id, maxNodes: nat, late: Clock)
    returns (r: Response)
    requires cache.Valid() && id !in cache.stored
    modifies cache
    ensures cache.Valid() && (cache.stored == old(cache.stored) || cache.stored.Keys == old(cache.stored.Keys) + {id})
    ensures r.continuation.Some? ==>
      && after.Some? && (before.Some? ==> before == after) && |nodes| > maxNodes
      && id in cache.cache && id in cache.stored && cache.stored[id] == Entry(id, key, after.value, nodes, weight)
      && r == PageAt(c, cache.stored[id], 0, maxNodes)
    ensures r.continuation.None? ==> r == TIME_BUDGET || r == Bounded(nodes, maxNodes, false) || r == Bounded(nodes, maxNodes, true)
    ensures Prompt(late) && |nodes| > maxNodes && after.Some? && (before.Some? ==> before == after) && weight <= MAX_ENTRY_BYTES
            ==> r.continuation.Some?
  {
    r := Bounded(nodes, maxNodes, late(0));
    if |nodes| <= maxNodes || late(1) {
      return;
    }
    if after.None? || (before.Some? && after != before) || late(2) {
      return;
    }
    var entry := cache.Store(key, after.value, nodes, weight, id);
    if entry.None? {
      return;
    }
    if late(3) {
      cache.Remove(id);
      return;
    }
    r := if late(4) then TIME_BUDGET else PageAt(c, entry.value, 0, maxNodes);
  }

  // ---------- Following tokens ----------

  /** What can happen to a session between two pages, and the pages themselves. */
  datatype Event =
    | Ask(key: QueryKey, fingerprint: Option<string>, maxNodes: nat, late: Clock)
    | Put(otherKey: QueryKey, otherFingerprint: string, nodes: seq<Node>, weight: nat, id: Id)
    | Drop(id: Id)
    | Reset

  ghost predicate OnTime(e: Event) {
    e.Ask? && !e.late(0) && !e.late(1)
  }

  /** The nodes that the requests on time have room for. */
  ghost function Room(events: seq<Event>): nat {
    if events == [] then 0
    else Room(events[..|events| - 1]) + if OnTime(events[|events| - 1]) then events[|events| - 1].maxNodes else 0
  }

  /** Requests of one query over unchanged sources, and nothing else. */
  ghost predicate Steady(events: seq<Event>, entry: Entry) {
    forall i | 0 <= i < |events| :: events[i].Ask? && events[i].key == entry.queryKey
      && events[i].fingerprint == Some(entry.sourceFingerprint)
  }

  /** Drawn ids do not repeat. */
  ghost predicate FreshFrom(events: seq<Event>, k: nat, stored: map<Id, Entry>) {
    && (forall i | k <= i < |events| :: events[i].Put? ==> events[i].id !in stored)
    && (forall i, j | k <= i < j < |events| :: events[i].Put? && events[j].Put? ==> events[i].id != events[j].id)
  }

  /** Other calls on the cache. */
  method Interfere(cache: Continuations, e: Event)
    requires cache.Valid() && !e.Ask? && (e.Put? ==> e.id !in cache.stored)
    modifies cache
    ensures cache.Valid()
    ensures forall id | id in old(cache.stored) :: id in cache.stored && cache.stored[id] == old(cache.stored)[id]
    ensures forall id | id in cache.stored :: id in old(cache.stored) || (e.Put? && id == e.id)
  {
    match e
    case Put(key, fingerprint, nodes, weight, id) => var _ := cache.Store(key, fingerprint, nodes, weight, id);
    case Drop(id) => cache.Remove(id);
    case Reset => cache.Clear();
  }

  /** Following the tokens of one answer, whatever the page sizes, the retries
      and the other traffic: what has been read is what the entry held, in order,
      and the answer is complete as soon as the requests on time had room for it. */
  method Follow(cache: Continuations, c: Scheme, id: Id, offset: nat, events: seq<Event>)
    returns (nodes: seq<Node>, next: Option<string>, refused: bool)
    requires cache.Valid() && c.Faithful() && Proper(Place(id, offset)) && id in cache.stored && cache.stored[id].entryId == id
    requires 0 < offset < |cache.stored[id].nodes|
    requires FreshFrom(events, 0, cache.stored)
    modifies cache
    ensures cache.Valid()
    ensures next.None? ==> nodes == old(cache.stored)[id].nodes[offset..]
    ensures next.Some? ==>
      && offset + |nodes| < |old(cache.stored)[id].nodes|
      && nodes == old(cache.stored)[id].nodes[offset..offset + |nodes|]
      && next == Some(c.make(Place(id, offset + |nodes|)))
    ensures id in old(cache.cache) && Steady(events, old(cache.stored)[id]) ==>
      !refused && (next.None? <==> Room(events) >= |old(cache.stored)[id].nodes| - offset)
  {
    ghost var entry := cache.stored[id];
    nodes, next, refused := [], Some(c.make(Place(id, offset))), false;
    ghost var steady := id in cache.cache && Steady(events, entry);
    var i := 0;
    while i < |events| && next.Some? && !refused
      invariant 0 <= i <= |events| && cache.Valid() && FreshFrom(events, i, cache.stored)
      invariant id in cache.stored && cache.stored[id] == entry
      invariant Reading(c, entry, id, offset, nodes, next)
      invariant steady ==> id in cache.cache && !refused
      invariant steady ==> if next.Some? then |nodes| == Room(events[..i]) else |nodes| <= Room(events[..i])
      decreases |events| - i
    {
      assert events[..i + 1][..i] == events[..i];
      match events[i] {
        case Ask(key, fingerprint, maxNodes, late) =>
          nodes, next, refused := Turn(cache, c, id, offset, nodes, next.value, key, fingerprint, maxNodes, late);
        case _ => Interfere(cache, events[i]);
      }
      i := i + 1;
    }
    assert events[..|events|] == events;
    RoomGrows(events, i);
  }

  /** What has been read is a prefix of what was left, and the token stands for the rest. */
  ghost predicate Reading(c: Scheme, entry: Entry, id: Id, offset: nat, nodes: seq<Node>, next: Option<string>) {
    && offset + |nodes| <= |entry.nodes| && nodes == entry.nodes[offset..offset + |nodes|]
    && if offset + |nodes| == |entry.nodes| then next.None? else next == Some(c.make(Place(id, offset + |nodes|)))
  }

  lemma RoomGrows(events: seq<Event>, i: nat)
    requires i <= |events|
    ensures Room(events[..i]) <= Room(events)
    decreases |events| - i
  {
    if i < |events| {
      assert events[..i + 1][..i] == events[..i];
      RoomGrows(events, i + 1);
    } else {
      assert events[..i] == events;
    }
  }

  /** A page on time continues where the last one stopped; a late one repeats the token. */
  lemma ReplyReads(c: Scheme, entry: Entry, id: Id, offset: nat, nodes: seq<Node>, token: string, maxNodes: nat, late: bool, r: Response)
    requires entry.entryId == id && Reading(c, entry, id, offset, nodes, Some(token))
    requires r == Reply(c, entry, offset + |nodes|, token, maxNodes, late)
    ensures Reading(c, entry, id, offset, nodes + r.nodes, r.continuation)
    ensures |r.nodes| == if late then 0 else Min(maxNodes, |entry.nodes| - offset - |nodes|)
  {
    if late {
      assert nodes + r.nodes == nodes;
    } else {
      assert entry.nodes[offset..offset + |nodes|] + r.nodes == entry.nodes[offset..offset + |nodes| + |r.nodes|];
    }
  }

  /** One request with the current token. */
  method Turn(cache: Continuations, c: Scheme, id: Id, offset: nat, nodes: seq<Node>, token: string,
              key: QueryKey, fingerprint: Option<string>, maxNodes: nat, late: Clock)
    returns (nodes': seq<Node>, next: Option<string>, refused: bool)
    requires cache.Valid() && c.Faithful() && Proper(Place(id, offset)) && id in cache.stored && cache.stored[id].entryId == id && offset > 0
    requires Reading(c, cache.stored[id], id, offset, nodes, Some(token))
    modifies cache`cache, cache`order, cache`queries, cache`bytes
    ensures cache.Valid() && Reading(c, cache.stored[id], id, offset, nodes', next)
    ensures id in old(cache.cache) && key == cache.stored[id].queryKey && fingerprint == Some(cache.stored[id].sourceFingerprint)
            ==> !refused && id in cache.cache
    ensures !refused ==> |nodes'| == |nodes| + if late(0) || late(1) then 0 else Min(maxNodes, |cache.stored[id].nodes| - offset - |nodes|)
  {
    ghost var entry := cache.stored[id];
    var place := Place(id, offset + |nodes|);
    assert Held(cache.order, cache.cache, cache.queries, cache.stored, id);
    assert Proper(place) && ParseWith(Some(c), token) == Some(place);
    nodes', next, refused := nodes, Some(token), false;
    var r := QueryContinuation(cache, Some(c), token, key, fingerprint, maxNodes, late);
    if r.Err? {
      refused := true;
    } else {
      ReplyReads(c, entry, id, offset, nodes, token, maxNodes, late(0) || late(1), r.value);
      nodes', next := nodes + r.value.nodes, r.value.continuation;
    }
  }

  /** A first page and its tokens: with requests of the same query over the same
      sources, the whole answer comes back as soon as there was room for it. */
  method ReadWhole(cache: Continuations, c: Scheme, key: QueryKey, source: string, nodes: seq<Node>, weight: nat, id: Id,
                   maxNodes: nat, late: Clock, events: seq<Event>)
    returns (read: seq<Node>, next: Option<string>, refused: bool)
    requires cache.Valid() && c.Faithful() && IsEntryId(id) && id !in cache.stored && weight <= MAX_ENTRY_BYTES
    requires 0 < maxNodes < |nodes| && Prompt(late) && Steady(events, Entry(id, key, source, nodes, weight))
    modifies cache
    ensures cache.Valid() && !refused && read <= nodes
    ensures read == nodes <==> maxNodes + Room(events) >= |nodes|
    ensures next.None? <==> read == nodes
  {
    var first := CacheInitial(cache, c, key, None, Some(source), nodes, weight, id, maxNodes, late);
    var rest;
    rest, next, refused := Follow(cache, c, id, maxNodes, events);
    read := first.nodes + rest;
    assert nodes == nodes[..maxNodes] + nodes[maxNodes..];
    assert next.Some? ==> read == nodes[..maxNodes + |rest|];
  }

  /** The same with signed tokens, for any lawful serialization and signature. */
  method ReadSigned(cache: Continuations, c: Codec, key: QueryKey, source: string, nodes: seq<Node>, weight: nat, id: Id,
                    maxNodes: nat, late: Clock, events: seq<Event>)
    returns (read: seq<Node>, next: Option<string>, refused: bool)
    requires cache.Valid() && c.Lawful() && IsEntryId(id) && id !in cache.stored && weight <= MAX_ENTRY_BYTES
    requires 0 < maxNodes < |nodes| && Prompt(late) && Steady(events, Entry(id, key, source, nodes, weight))
    modifies cache
    ensures cache.Valid() && !refused && read <= nodes
    ensures read == nodes <==> maxNodes + Room(events) >= |nodes|
    ensures next.None? <==> read == nodes
  {
    SchemeFaithful(c);
    read, next, refused := ReadWhole(cache, SchemeOf(c), key, source, nodes, weight, id, maxNodes, late, events);
  }
}
