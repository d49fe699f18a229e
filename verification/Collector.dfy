/**
  Collecting a chat forward: pages of history above a checkpoint, filtered by age, and the service that
  stores what it collects before it moves the checkpoint.
 */
module Collector {
  import opened Series
  import opened Wrappers

  /** What the chat holds under an identifier; a date that is not positive counts as the present. */
  datatype Body = Body(blank: bool, date: int)

  type History = map<int, Body>

  predicate Fresh(body: Body, now: int, maxAge: int) {
    !body.blank && (if body.date <= 0 then now else body.date) >= now - maxAge
  }

  predicate Stale(body: Body, now: int, maxAge: int) {
    !body.blank && (if body.date <= 0 then now else body.date) < now - maxAge
  }

  predicate Ascending(ids: seq<int>) {
    forall i, j :: 0 <= i < j < |ids| ==> ids[i] < ids[j]
  }

  predicate Distinct(ids: seq<int>) {
    forall i, j :: 0 <= i < j < |ids| ==> ids[i] != ids[j]
  }

  function StaleIn(history: History, lo: int, hi: int, now: int, maxAge: int): set<int> {
    set id | id in history && lo < id <= hi && Stale(history[id], now, maxAge)
  }

  /** What the chat holds in (lo, hi]. */
  function Passed(history: History, lo: int, hi: int): set<int> {
    set id | id in history && lo < id <= hi
  }

  /** `ids` are the fresh messages in (lo, hi], in order. */
  ghost predicate FreshIn(ids: seq<int>, history: History, lo: int, hi: int, now: int, maxAge: int) {
    Ascending(ids) && forall id :: id in ids <==> id in history && lo < id <= hi && Fresh(history[id], now, maxAge)
  }

  /** The lowest messages above the cursor, up to the limit, in any order. */
  predicate IsForwardPage(history: History, cursor: int, limit: int, page: seq<int>) {
    && Distinct(page) && |page| <= limit
    && (forall id :: id in page ==> id in history && id > cursor)
    && forall id :: id in history && id > cursor && id !in page ==>
         |page| == limit && forall k :: 0 <= k < |page| ==> page[k] < id
  }

  /** The chat as it was when `reach` was its greatest identifier: later messages get greater ones. */
  function Known(history: History, reach: int): History {
    map id | id in history && id <= reach :: history[id]
  }

  /** A cursor is fetched at most once in a collection, so a fetch may depend on when it is made. */
  type Fetcher = (int, int) -> Option<seq<int>>

  ghost predicate PageOfSome(history: History, reach: int, cursor: int, limit: int, page: seq<int>) {
    exists later: int :: later >= reach && IsForwardPage(Known(history, later), cursor, limit, page)
  }

  /**
    Every successful fetch above a positive cursor is a forward page of the chat as it was by then: it reached
    at least as far as when the collection began, and may have grown since.
   */
  ghost predicate Fetches(fetch: Fetcher, history: History, reach: int) {
    forall cursor: int, limit: int :: cursor > 0 && fetch(cursor, limit).Some? ==>
      PageOfSome(history, reach, cursor, limit, fetch(cursor, limit).value)
  }

  datatype Collection = Collection(messages: seq<int>, skipped: nat, checkpoint: Option<int>)

  function BoundedLimit(limit: int): (r: int)
    ensures 1 <= r <= 100 && (1 <= limit <= 100 ==> r == limit)
  {
    if limit <= 0 then 25 else if limit > 100 then 100 else limit
  }

  // ---- one page ---------------------------------------------------------------------------------------

  lemma InsertedMembers(sorted: seq<int>, k: nat, id: int)
    requires k <= |sorted|
    ensures forall x :: x in sorted[..k] + [id] + sorted[k..] <==> x in sorted || x == id
  {
    assert sorted == sorted[..k] + sorted[k..];
    forall x
      ensures x in sorted <==> x in sorted[..k] || x in sorted[k..]
    {
      assert x in sorted[..k] + sorted[k..] <==> x in sorted[..k] || x in sorted[k..];
    }
  }

  lemma Inserted(sorted: seq<int>, k: nat, id: int)
    requires k <= |sorted| && Ascending(sorted) && id !in sorted
    requires forall j :: k <= j < |sorted| ==> sorted[j] > id
    requires k > 0 ==> sorted[k - 1] <= id
    ensures Ascending(sorted[..k] + [id] + sorted[k..])
  {
    var r := sorted[..k] + [id] + sorted[k..];
    assert k > 0 ==> sorted[k - 1] in sorted;
    forall i, j | 0 <= i < j < |r|
      ensures r[i] < r[j]
    {
    }
  }

  /** Inserts into an ascending list, as a stable sort of distinct identifiers does. */
  method InsertById(sorted: seq<int>, id: int) returns (r: seq<int>)
    requires Ascending(sorted) && id !in sorted
    ensures Ascending(r) && forall x :: x in r <==> x in sorted || x == id
  {
    var k := |sorted|;
    while k > 0 && sorted[k - 1] > id
      invariant 0 <= k <= |sorted| && forall j :: k <= j < |sorted| ==> sorted[j] > id
    {
      k := k - 1;
    }
    r := sorted[..k] + [id] + sorted[k..];
    Inserted(sorted, k, id);
    InsertedMembers(sorted, k, id);
  }

  lemma OnPage(history: History, page: seq<int>, k: nat)
    requires k < |page| && forall id :: id in page ==> id in history
    ensures page[k] in page && page[k] in history
  {
    var id := page[k];
    assert id in page;
  }

  function StaleOf(history: History, page: seq<int>, lastId: int, now: int, maxAge: int): set<int> {
    set id | id in page && id in history && id > lastId && Stale(history[id], now, maxAge)
  }

  lemma NothingFiltered(history: History, lastId: int, now: int, maxAge: int)
    ensures Ascending([]) && StaleOf(history, [], lastId, now, maxAge) == {}
  {
  }

  lemma FreshOrStale(body: Body, now: int, maxAge: int)
    ensures Fresh(body, now, maxAge) <==> !body.blank && !Stale(body, now, maxAge)
    ensures Stale(body, now, maxAge) ==> !body.blank
  {
  }

  /** The greatest identifier of the page above `lastId`, or `lastId`. */
  predicate IsMax(next: int, page: seq<int>, lastId: int) {
    && next >= lastId && (next == lastId || next in page)
    && forall k :: 0 <= k < |page| ==> page[k] <= next
  }

  lemma OneMore(history: History, page: seq<int>, k: nat, lastId: int, now: int, maxAge: int)
    requires k < |page| && Distinct(page) && page[k] in history
    ensures forall id :: id in page[..k + 1] <==> id in page[..k] || id == page[k]
    ensures page[k] !in page[..k]
    ensures StaleOf(history, page[..k + 1], lastId, now, maxAge) == StaleOf(history, page[..k], lastId, now, maxAge) +
              if page[k] > lastId && Stale(history[page[k]], now, maxAge) then {page[k]} else {}
    ensures page[k] !in StaleOf(history, page[..k], lastId, now, maxAge)
  {
    assert page[..k + 1] == page[..k] + [page[k]];
  }

  method FilterCollectedMessages(history: History, page: seq<int>, lastId: int, now: int, maxAge: int)
    returns (messages: seq<int>, skipped: nat, next: int)
    requires Distinct(page) && forall id :: id in page ==> id in history
    ensures Ascending(messages)
    ensures forall id :: id in messages <==> id in page && id > lastId && Fresh(history[id], now, maxAge)
    ensures skipped == |StaleOf(history, page, lastId, now, maxAge)|
    ensures IsMax(next, page, lastId)
  {
    hide Fresh, Stale, StaleOf, Ascending, Distinct;
    NothingFiltered(history, lastId, now, maxAge);
    messages, skipped, next := [], 0, lastId;
    for k := 0 to |page|
      invariant Ascending(messages)
      invariant forall id :: id in messages <==> id in page[..k] && id > lastId && Fresh(history[id], now, maxAge)
      invariant skipped == |StaleOf(history, page[..k], lastId, now, maxAge)|
      invariant IsMax(next, page[..k], lastId)
    {
      OnPage(history, page, k);
      OneMore(history, page, k, lastId, now, maxAge);
      FreshOrStale(history[page[k]], now, maxAge);
      var id := page[k];
      if id <= lastId {
        continue;
      }
      if id > next {
        next := id;
      }
      if history[id].blank {
        continue;
      }
      if Stale(history[id], now, maxAge) {
        skipped := skipped + 1;
        continue;
      }
      messages := InsertById(messages, id);
    }
    assert page[..|page|] == page;
  }

  // ---- the page loop ------------------------------------------------------------------------------------

  /** Up to the greatest identifier of a forward page nothing is missing from it. */
  lemma PageIsGapFree(history: History, reach: int, cursor: int, limit: int, page: seq<int>, next: int, now: int,
                      maxAge: int)
    requires PageOfSome(history, reach, cursor, limit, page) && IsMax(next, page, cursor) && limit >= 1
    ensures forall id :: id in page ==> id in history && id > cursor
    ensures forall id :: id in history && cursor < id <= next ==> id in page
    ensures StaleOf(history, page, cursor, now, maxAge) == StaleIn(history, cursor, next, now, maxAge)
    ensures next == cursor ==> forall id :: id in history && id <= reach ==> id <= cursor
  {
    var later :| later >= reach && IsForwardPage(Known(history, later), cursor, limit, page);
    forall id | id in history && cursor < id <= next
      ensures id in page
    {
      assert next in page;
      var k :| 0 <= k < |page| && page[k] == next;
      assert id in Known(history, later);
    }
    assert page == [] || page[0] in page;
    forall id | next == cursor && id in history && id <= reach
      ensures id <= cursor
    {
      assert id in Known(history, later);
    }
  }

  lemma StaleAdds(history: History, lo: int, mid: int, hi: int, now: int, maxAge: int)
    requires lo <= mid <= hi
    ensures |StaleIn(history, lo, hi, now, maxAge)| ==
            |StaleIn(history, lo, mid, now, maxAge)| + |StaleIn(history, mid, hi, now, maxAge)|
  {
    var a, b := StaleIn(history, lo, mid, now, maxAge), StaleIn(history, mid, hi, now, maxAge);
    assert StaleIn(history, lo, hi, now, maxAge) == a + b && a !! b;
  }

  /** Joining two adjoining ranges of fresh messages. */
  lemma FreshJoins(a: seq<int>, b: seq<int>, history: History, lo: int, mid: int, hi: int, now: int, maxAge: int)
    requires lo <= mid <= hi && FreshIn(a, history, lo, mid, now, maxAge) && FreshIn(b, history, mid, hi, now, maxAge)
    ensures FreshIn(a + b, history, lo, hi, now, maxAge)
  {
    var c := a + b;
    forall i, j | 0 <= i < j < |c|
      ensures c[i] < c[j]
    {
      if i < |a| <= j {
        assert a[i] in a && b[j - |a|] in b;
      }
    }
    assert forall id :: id in c <==> id in a || id in b;
  }

  lemma SubsetSize(a: set<int>, b: set<int>)
    requires a <= b
    ensures |a| <= |b|
  {
    assert b == a + (b - a);
  }

  lemma {:induction false} DistinctSize(ids: seq<int>)
    requires Distinct(ids)
    ensures |(set id | id in ids)| == |ids|
  {
    if ids != [] {
      var n := |ids| - 1;
      DistinctSize(ids[..n]);
      assert ids == ids[..n] + [ids[n]];
      assert (set id | id in ids) == (set id | id in ids[..n]) + {ids[n]};
      assert ids[n] !in ids[..n];
    }
  }

  /** Nothing that existed when the collection began is left. */
  predicate AtEdge(history: History, reach: int, reached: int) {
    forall id :: id in history && id <= reach ==> id <= reached
  }

  lemma EdgeIsAll(history: History, reach: int, reached: int)
    ensures AtEdge(history, reach, reached) ==> forall id :: id in history && id <= reach ==> id <= reached
  {
  }

  /** A page passes exactly as many messages as it has, and one that is not full reaches the edge. */
  lemma PagePasses(history: History, reach: int, cursor: int, limit: int, page: seq<int>, next: int)
    requires PageOfSome(history, reach, cursor, limit, page) && IsMax(next, page, cursor) && limit >= 1
    ensures Passed(history, cursor, next) == set id | id in page
    ensures |Passed(history, cursor, next)| == |page| <= limit
    ensures |page| < limit || next == cursor ==> AtEdge(history, reach, next)
    ensures next >= cursor
  {
    PageIsGapFree(history, reach, cursor, limit, page, next, 0, 0);
    var later :| later >= reach && IsForwardPage(Known(history, later), cursor, limit, page);
    DistinctSize(page);
    forall id | id in page
      ensures id <= next
    {
      var k :| 0 <= k < |page| && page[k] == id;
    }
    forall id | |page| < limit && id in history && id <= reach
      ensures id <= next
    {
      assert id in Known(history, later);
    }
  }

  lemma PassedAdds(history: History, lo: int, mid: int, hi: int)
    requires lo <= mid <= hi
    ensures |Passed(history, lo, hi)| == |Passed(history, lo, mid)| + |Passed(history, mid, hi)|
  {
    var a, b := Passed(history, lo, mid), Passed(history, mid, hi);
    assert Passed(history, lo, hi) == a + b && a !! b;
  }

  method ContainsFresh(history: History, page: seq<int>, lastId: int, now: int, maxAge: int) returns (found: bool)
    requires forall id :: id in page ==> id in history
    ensures found <==> exists k :: 0 <= k < |page| && page[k] > lastId && Fresh(history[page[k]], now, maxAge)
  {
    for k := 0 to |page|
      invariant forall j :: 0 <= j < k ==> !(page[j] > lastId && Fresh(history[page[j]], now, maxAge))
    {
      if page[k] <= lastId || history[page[k]].blank {
        continue;
      }
      if Fresh(history[page[k]], now, maxAge) {
        return true;
      }
    }
    return false;
  }

  function Checkpoint(c: Collection, lastId: int): int {
    if c.checkpoint.Some? then c.checkpoint.value else lastId
  }

  /**
    A collection is exact for the range it covers: the fresh messages in order, the number of stale ones, and a
    checkpoint that moves forward if something newer existed when the collection began, and only to a message.
   */
  ghost predicate Exact(c: Collection, history: History, reach: int, lastId: int, now: int, maxAge: int) {
    var reached := Checkpoint(c, lastId);
    && FreshIn(c.messages, history, lastId, reached, now, maxAge)
    && c.skipped == |StaleIn(history, lastId, reached, now, maxAge)|
    && (c.checkpoint.Some? ==> reached > lastId && reached in history)
    && (c.checkpoint.None? ==> forall id :: id in history && id <= reach ==> id <= lastId)
  }

  /** How many pages a collection may fetch. */
  function PageBudget(maxPages: int): (pages: nat)
    ensures pages >= 1 && (maxPages >= 1 ==> pages == maxPages)
  {
    if maxPages <= 0 then 1 else maxPages
  }

  /**
    How far a collection goes: it passes full pages without anything fresh until the edge or the end of its budget,
    and it ends with the first page that has something fresh.
   */
  ghost predicate GoesFar(c: Collection, history: History, reach: int, lastId: int, limit: int, maxPages: int) {
    var reached := Checkpoint(c, lastId);
    if c.messages == [] then
      AtEdge(history, reach, reached) || |Passed(history, lastId, reached)| >= PageBudget(maxPages) * BoundedLimit(limit)
    else |Passed(history, c.messages[0] - 1, reached)| <= BoundedLimit(limit)
  }

  /** A fetch failed after pages without anything fresh. */
  ghost predicate FetchFailed(fetch: Fetcher, history: History, lastId: int, now: int, maxAge: int, limit: int) {
    exists cursor: int :: cursor >= lastId && (cursor == lastId || cursor in history) &&
      FreshIn([], history, lastId, cursor, now, maxAge) && fetch(cursor, BoundedLimit(limit)).None?
  }

  lemma PageIsDistinct(history: History, reach: int, cursor: int, limit: int, page: seq<int>)
    requires PageOfSome(history, reach, cursor, limit, page)
    ensures Distinct(page) && forall id :: id in page ==> id in history
  {
    var later :| later >= reach && IsForwardPage(Known(history, later), cursor, limit, page);
  }

  lemma EmptyRange(history: History, lastId: int, now: int, maxAge: int)
    ensures FreshIn([], history, lastId, lastId, now, maxAge) && StaleIn(history, lastId, lastId, now, maxAge) == {}
    ensures Passed(history, lastId, lastId) == {}
  {
  }

  /** What one page adds to a collection. */
  lemma PageCovered(history: History, reach: int, lastId: int, cursor: int, limit: int, page: seq<int>, c: Collection,
                    ids: seq<int>, skipped: nat, next: int, now: int, maxAge: int)
    requires lastId <= cursor && limit >= 1 && PageOfSome(history, reach, cursor, limit, page)
    requires FreshIn(c.messages, history, lastId, cursor, now, maxAge)
    requires c.skipped == |StaleIn(history, lastId, cursor, now, maxAge)|
    requires Ascending(ids) && IsMax(next, page, cursor) && skipped == |StaleOf(history, page, cursor, now, maxAge)|
    requires forall id :: id in ids <==> id in page && id > cursor && Fresh(history[id], now, maxAge)
    ensures FreshIn(c.messages + ids, history, lastId, next, now, maxAge)
    ensures c.skipped + skipped == |StaleIn(history, lastId, next, now, maxAge)|
    ensures if next > cursor then next in history else forall id :: id in history && id <= reach ==> id <= cursor
  {
    PageIsGapFree(history, reach, cursor, limit, page, next, now, maxAge);
    forall id
      ensures id in ids <==> id in history && cursor < id <= next && Fresh(history[id], now, maxAge)
    {
      if id in page {
        var k :| 0 <= k < |page| && page[k] == id;
      }
    }
    FreshJoins(c.messages, ids, history, lastId, cursor, next, now, maxAge);
    StaleAdds(history, lastId, cursor, next, now, maxAge);
  }

  /** A page on which something is fresh is filtered to something. */
  lemma FreshIsCollected(history: History, page: seq<int>, lastId: int, ids: seq<int>, now: int, maxAge: int)
    requires forall id :: id in page ==> id in history
    requires forall id :: id in ids <==> id in page && id > lastId && Fresh(history[id], now, maxAge)
    ensures (exists k :: 0 <= k < |page| && page[k] > lastId && Fresh(history[page[k]], now, maxAge)) ==> ids != []
  {
    if k :| 0 <= k < |page| && page[k] > lastId && Fresh(history[page[k]], now, maxAge) {
      assert page[k] in ids;
    }
  }

  /** The page that ends a collection which brought something starts after all it passed before. */
  lemma EndsWithFresh(history: History, lo: int, hi: int, first: int, limit: int)
    requires first > lo && |Passed(history, lo, hi)| <= limit
    ensures |Passed(history, first - 1, hi)| <= limit
  {
    SubsetSize(Passed(history, first - 1, hi), Passed(history, lo, hi));
  }

  /** One page after `n` full ones without anything fresh: what is covered with it, and whether it is the last. */
  lemma PageStep(history: History, reach: int, lastId: int, cursor: int, limit: int, page: seq<int>, c: Collection,
                 ids: seq<int>, skipped: nat, next: int, now: int, maxAge: int, n: nat)
    requires lastId <= cursor && limit >= 1 && PageOfSome(history, reach, cursor, limit, page)
    requires c.messages == [] && FreshIn([], history, lastId, cursor, now, maxAge)
    requires c.skipped == |StaleIn(history, lastId, cursor, now, maxAge)| && |Passed(history, lastId, cursor)| == n * limit
    requires Ascending(ids) && IsMax(next, page, cursor) && skipped == |StaleOf(history, page, cursor, now, maxAge)|
    requires forall id :: id in ids <==> id in page && id > cursor && Fresh(history[id], now, maxAge)
    ensures FreshIn(ids, history, lastId, next, now, maxAge)
    ensures c.skipped + skipped == |StaleIn(history, lastId, next, now, maxAge)|
    ensures if next > cursor then next in history else next == cursor && AtEdge(history, reach, cursor)
    ensures ids != [] ==> |Passed(history, ids[0] - 1, next)| <= limit
    ensures |page| < limit ==> AtEdge(history, reach, next)
    ensures |page| >= limit ==> |Passed(history, lastId, next)| == (n + 1) * limit
  {
    PageCovered(history, reach, lastId, cursor, limit, page, c, ids, skipped, next, now, maxAge);
    assert c.messages + ids == ids;
    PagePasses(history, reach, cursor, limit, page, next);
    PassedAdds(history, lastId, cursor, next);
    assert n * limit + limit == (n + 1) * limit;
    if ids != [] {
      assert ids[0] in ids;
      EndsWithFresh(history, cursor, next, ids[0], limit);
    }
  }

  /** Pages through stale history; the first page with something fresh, or the edge, ends the collection. */
  method CollectForwardMessages(lastId: int, now: int, maxAge: int, limit: int, maxPages: int, fetch: Fetcher,
                                history: History, reach: int) returns (r: Option<Collection>)
    requires lastId > 0 && Fetches(fetch, history, reach)
    ensures r.Some? ==> Exact(r.value, history, reach, lastId, now, maxAge)
    ensures r.Some? ==> GoesFar(r.value, history, reach, lastId, limit, maxPages)
    ensures r.None? ==> FetchFailed(fetch, history, lastId, now, maxAge, limit)
  {
    hide Fresh, Stale, StaleOf, IsMax, FreshIn, Passed, AtEdge, StaleIn, Ascending, Distinct, PageOfSome;
    var pages := if maxPages <= 0 then 1 else maxPages;
    var pageLimit := BoundedLimit(limit);
    var cursor := lastId;
    var result := Collection([], 0, None);
    EmptyRange(history, lastId, now, maxAge);
    for page := 0 to pages
      invariant cursor >= lastId && FreshIn([], history, lastId, cursor, now, maxAge) && result.messages == []
      invariant result.skipped == |StaleIn(history, lastId, cursor, now, maxAge)|
      invariant Checkpoint(result, lastId) == cursor && |Passed(history, lastId, cursor)| == page * pageLimit
      invariant if result.checkpoint.Some? then cursor > lastId && cursor in history else page == 0
    {
      var messages := fetch(cursor, pageLimit);
      if messages.None? {
        return None;
      }
      PageIsDistinct(history, reach, cursor, pageLimit, messages.value);
      var ids, skipped, next := FilterCollectedMessages(history, messages.value, cursor, now, maxAge);
      PageStep(history, reach, lastId, cursor, pageLimit, messages.value, result, ids, skipped, next, now, maxAge, page);
      EdgeIsAll(history, reach, cursor);
      result := Collection(result.messages + ids, result.skipped + skipped,
                           if next > cursor then Some(next) else result.checkpoint);
      assert result.messages == ids;
      var anyFresh := ContainsFresh(history, messages.value, cursor, now, maxAge);
      if |ids| > 0 || anyFresh {
        FreshIsCollected(history, messages.value, cursor, ids, now, maxAge);
        return Some(result);
      }
      if |messages.value| < pageLimit || next <= cursor {
        return Some(result);
      }
      cursor := next;
    }
    return Some(result);
  }

  // ---- the service over whole runs ------------------------------------------------------------------------

  /** The chat, the stored messages and the stored checkpoint. */
  class Feed {
    var history: History
    var rows: set<int>
    var checkpoint: Option<int>
    var clock: int
    const maxAge: int
    /** Where collecting began; history before it is skipped on purpose. */
    ghost var floor: int

    /**
      Nothing fresh is lost: of the messages the checkpoint has passed, whatever is neither stored nor
      blank is too old, and stays too old.
     */
    ghost predicate Valid()
      reads this
    {
      && maxAge > 0 && (forall id :: id in history ==> id > 0)
      && (checkpoint.Some? ==>
            && 0 < floor <= checkpoint.value && checkpoint.value in history
            && forall id :: id in history && floor < id <= checkpoint.value ==>
                 id in rows || history[id].blank || Stale(history[id], clock, maxAge))
    }

    constructor (clock: int, maxAge: int)
      ensures Valid() && history == map[] && rows == {} && checkpoint == None && this.clock == clock
      ensures this.maxAge == if maxAge <= 0 then 24 * 3600 else maxAge
    {
      this.history, this.rows, this.checkpoint, this.clock, this.floor := map[], {}, None, clock, 0;
      this.maxAge := if maxAge <= 0 then 24 * 3600 else maxAge;
    }

    method Wait(t: int)
      requires Valid() && t >= clock
      modifies this`clock
      ensures Valid() && clock == t
    {
      clock := t;
    }

    /** New messages get the next identifiers. */
    method Arrive(id: int, body: Body)
      requires Valid() && id > 0 && forall other :: other in history ==> other < id
      modifies this`history
      ensures Valid() && history == old(history)[id := body]
    {
      history := history[id := body];
    }

    /** The first collection only notes where the chat stands: the greatest identifier of the newest page. */
    method Begin(latest: Option<seq<int>>, saves: Ending) returns (ok: bool)
      requires Valid() && checkpoint.None?
      requires latest.Some? ==> forall id :: id in latest.value ==> id in history
      modifies this`checkpoint, this`floor
      ensures Valid()
      ensures ok <==> latest.Some? && (latest.value == [] || saves.Works?)
      ensures checkpoint.Some? <==> latest.Some? && latest.value != [] && saves.Happened()
      ensures checkpoint.Some? ==>
        && checkpoint.value in latest.value && floor == checkpoint.value
        && forall id :: id in latest.value ==> id <= checkpoint.value
    {
      if latest.None? {
        return false;
      }
      var max := 0;
      for k := 0 to |latest.value|
        invariant max == 0 || (max > 0 && max in latest.value)
        invariant forall j :: 0 <= j < k ==> latest.value[j] <= max
      {
        if latest.value[k] > max {
          max := latest.value[k];
        }
      }
      assert latest.value == [] || latest.value[0] in latest.value;
      if max > 0 && saves.Happened() {
        checkpoint, floor := Some(max), max;
      }
      ok := max <= 0 || saves.Works?;
    }

    /** Stores one message after another, up to the first failure. */
    method StoreAll(messages: seq<int>, stores: int -> Ending) returns (ok: bool)
      modifies this`rows
      ensures ok <==> forall id :: id in messages ==> stores(id).Works?
      ensures rows == old(rows) + WrittenBy(messages, stores)
      ensures ok ==> WrittenBy(messages, stores) == Elements(messages)
    {
      for k := 0 to |messages|
        invariant rows == old(rows) + Elements(messages[..k]) && Reached(messages, k, stores)
      {
        assert messages[..k + 1] == messages[..k] + [messages[k]];
        var ending := stores(messages[k]);
        if ending.Happened() {
          rows := rows + {messages[k]};
        }
        if !ending.Works? {
          WrittenUpTo(messages, stores, k);
          return false;
        }
      }
      assert messages[..|messages|] == messages;
      AllWritten(messages, stores);
      ok := true;
    }

    /**
      Collects, stores every message, and only then moves the checkpoint. It succeeds exactly when the collection,
      every store and the save work; then all that was collected is stored and the checkpoint is where the collection
      ended. Whatever fails, nothing fresh that the checkpoint has passed is missing. The chat may have grown from
      `reach` to what it holds now while the pages were fetched.
     */
    method CollectNewMessages(fetch: Fetcher, limit: int, maxPages: int, reach: int, stores: int -> Ending, saves: Ending)
      returns (ok: bool, collected: nat, ghost got: Option<Collection>)
      requires Valid() && checkpoint.Some? && Fetches(fetch, history, reach)
      modifies this`rows, this`checkpoint
      ensures Valid() && checkpoint.Some? && checkpoint.value >= old(checkpoint).value
      ensures got.None? ==> FetchFailed(fetch, history, old(checkpoint).value, clock, maxAge, limit)
      ensures got.Some? ==>
        && Exact(got.value, history, reach, old(checkpoint).value, clock, maxAge)
        && GoesFar(got.value, history, reach, old(checkpoint).value, limit, maxPages)
      ensures ok <==> got.Some? && (forall id :: id in got.value.messages ==> stores(id).Works?) &&
                      (got.value.checkpoint.Some? ==> saves.Works?)
      ensures collected == if ok then |got.value.messages| else 0
      ensures rows == if got.None? then old(rows) else old(rows) + WrittenBy(got.value.messages, stores)
      ensures ok ==> WrittenBy(got.value.messages, stores) == Elements(got.value.messages)
      ensures checkpoint ==
        if got.Some? && (forall id :: id in got.value.messages ==> stores(id).Works?) &&
           got.value.checkpoint.Some? && saves.Happened()
        then got.value.checkpoint else old(checkpoint)
      ensures forall id :: id in history && floor < id <= checkpoint.value && Fresh(history[id], clock, maxAge) ==>
        id in rows
    {
      var c := CollectForwardMessages(checkpoint.value, clock, maxAge, limit, maxPages, fetch, history, reach);
      got := c;
      if c.None? {
        return false, 0, got;
      }
      ok := StoreAll(c.value.messages, stores);
      if !ok {
        return ok, 0, got;
      }
      if c.value.checkpoint.Some? {
        if saves.Happened() {
          checkpoint := c.value.checkpoint;
        }
        ok := saves.Works?;
      }
      collected := if ok then |c.value.messages| else 0;
    }
  }
}
