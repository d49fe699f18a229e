/**
  The chat analyzer's processing pass over its store, call by call. Every store write and every submit
  may fail, with or without effect. The object keeps the run of the protocol it has taken so far, so
  that stopping anywhere leaves a state the protocol's theorems speak about.
 */
module ChatAnalyzer {
  import opened ChatDecisions
  import opened ChatProtocol
  import opened ChatWorld
  import opened Series
  import opened Wrappers

  lemma DecidedOneMore(outcomes: map<int, Outcome>, sources: seq<int>, j: nat, outcome: Outcome)
    requires j < |sources|
    ensures Decided(outcomes, Elements(sources[..j + 1]), outcome)
         == Decided(outcomes, Elements(sources[..j]), outcome)[sources[j] := outcome]
  {
    assert sources[..j + 1] == sources[..j] + [sources[j]];
    assert Elements(sources[..j + 1]) == Elements(sources[..j]) + {sources[j]};
  }

  method MarkAll(outcomes: map<int, Outcome>, sources: seq<int>, outcome: Outcome) returns (marked: map<int, Outcome>)
    ensures marked == Decided(outcomes, Elements(sources), outcome)
  {
    marked := outcomes;
    for j := 0 to |sources|
      invariant marked == Decided(outcomes, Elements(sources[..j]), outcome)
    {
      DecidedOneMore(outcomes, sources, j, outcome);
      marked := marked[sources[j] := outcome];
    }
    assert sources[..|sources|] == sources;
  }

  /** A valid first answer is merged with the second one, if there is one, and the result is validated again. */
  method ChooseDecision(items: seq<int>, initial: Decision, reasoned: Option<Decision>, recheckIds: seq<int>,
                        note: string -> string) returns (valid: bool, decision: Decision)
    ensures valid <==> ValidSources(items, decision)
    ensures !ValidSources(items, initial) ==> !valid && decision == initial
    ensures ValidSources(items, initial) ==> if reasoned.Some? && |recheckIds| > 0
      then IsMerge(decision, initial, reasoned.value, Elements(recheckIds), note) else decision == initial
  {
    decision := initial;
    valid := ValidateUniqueBatchDecisionSources(items, decision);
    if valid && reasoned.Some? && |recheckIds| > 0 {
      decision := MergeLocationReasoningDecision(decision, reasoned.value, recheckIds, note);
      valid := ValidateUniqueBatchDecisionSources(items, decision);
    }
  }

  /** Rows either stayed as they were or were ignored. */
  predicate OnlyIgnored(before: map<int, Row>, after: map<int, Row>) {
    forall m :: m in after && m in before ==> after[m] == before[m] || after[m].status == Ignored
  }

  /** A pending message whose date is known and too old. */
  predicate IsStale(row: Row, before: int) {
    row.status == Pending && row.messageDate != NEVER && row.messageDate < before
  }

  /** The rows once the stale ones among `ids` are given up. */
  function ExpiredRows(rows: map<int, Row>, ids: set<int>, before: int, keepAction: bool, now: int)
    : (r: map<int, Row>)
    ensures r.Keys == rows.Keys
  {
    map m | m in rows ::
      if m in ids && IsStale(rows[m], before)
      then rows[m].(status := Ignored, action := if keepAction then rows[m].action else None, processedAt := now)
      else rows[m]
  }

  predicate OnlyExpired(before: map<int, Row>, rows: map<int, Row>, limit: int, keepAction: bool, now: int) {
    forall m :: m in before && m in rows ==>
      rows[m] == before[m] || rows[m] == ExpiredRows(before, {m}, limit, keepAction, now)[m]
  }

  lemma NothingExpired(rows: map<int, Row>, ids: set<int>, before: int, keepAction: bool, now: int)
    requires forall m :: m in ids && m in rows ==> m !in PendingRows(rows)
    ensures ExpiredRows(rows, ids, before, keepAction, now) == rows
  {
    forall m | m in ids && m in rows
      ensures !IsStale(rows[m], before)
    {
      assert m !in PendingRows(rows);
    }
  }

  lemma ExpiredOneMore(rows: map<int, Row>, ids: set<int>, m: int, before: int, keepAction: bool, now: int)
    requires m in rows && m !in ids
    ensures var expired := ExpiredRows(rows, ids, before, keepAction, now);
            && expired[m] == rows[m]
            && ExpiredRows(rows, ids + {m}, before, keepAction, now)
            == if IsStale(rows[m], before)
               then Marked(expired, m, Ignored, if keepAction then rows[m].action else None, now) else expired
  {
  }

  lemma ExpiredOnly(rows: map<int, Row>, ids: set<int>, before: int, keepAction: bool, now: int)
    ensures OnlyExpired(rows, ExpiredRows(rows, ids, before, keepAction, now), before, keepAction, now)
  {
  }

  /** Once every pending message was looked at, so was every message. */
  lemma ExpiredPending(rows: map<int, Row>, ids: set<int>, before: int, keepAction: bool, now: int)
    requires PendingRows(rows) <= ids
    ensures ExpiredRows(rows, ids, before, keepAction, now) == ExpiredRows(rows, rows.Keys, before, keepAction, now)
  {
    forall m | m in rows && IsStale(rows[m], before)
      ensures m in ids
    {
      assert m in PendingRows(rows);
    }
  }

  lemma ExpiredIgnored(before: map<int, Row>, rows: map<int, Row>, limit: int, keepAction: bool, now: int)
    requires OnlyExpired(before, rows, limit, keepAction, now)
    ensures OnlyIgnored(before, rows)
  {
  }

  const PORTABLE_LIMIT := 5000

  /** How many messages a listing asks for. */
  function PageBound(limit: int): nat {
    if limit <= 0 then 25 else limit
  }

  /** Written outcomes are in the rows, and no other row changes. */
  predicate AfterFinish(before: map<int, Row>, rows: map<int, Row>, final: map<int, Outcome>, ok: bool) {
    && (forall m :: m in rows && m in before && m !in final ==> rows[m] == before[m])
    && (ok ==> forall m :: m in rows && m in final ==>
          rows[m].status == final[m].status && rows[m].action == final[m].action)
  }

  lemma ReadyAreRows(s: State)
    requires Inv(s) && s.phase.Deciding?
    ensures s.phase.ready <= s.rows.Keys
  {
    forall m | m in s.phase.ready
      ensures m in s.rows
    {
    }
  }

  predicate InFound(row: Row, found: set<ActionId>) {
    row.action.Some? && row.action.value in found
  }

  lemma RemainingUnpublished(s: State, remaining: seq<int>)
    requires Inv(s) && s.phase.Reconciling? && Elements(remaining) <= s.phase.listed
    requires forall m :: m in remaining ==> m in s.rows && !InFound(s.rows[m], s.phase.found)
    ensures forall m :: m in remaining ==> Unpublished(s.committed, m)
  {
    forall m, a | m in remaining && a in s.committed
      ensures m !in a.sources
    {
      assert m in Elements(remaining);
    }
  }

  lemma {:induction false} LengthOfDistinct(s: seq<int>)
    requires NoRepeats(s)
    ensures |Elements(s)| == |s|
  {
    if s != [] {
      var n := |s| - 1;
      assert s == s[..n] + [s[n]];
      LengthOfDistinct(s[..n]);
      assert s[n] !in Elements(s[..n]);
      assert Elements(s) == Elements(s[..n]) + {s[n]};
    }
  }

  lemma SubsetSize(a: set<int>, b: set<int>)
    requires a <= b
    ensures |a| <= |b|
  {
    assert b == a + (b - a);
  }

  lemma PageComplete(page: seq<int>, all: set<int>)
    requires NoRepeats(page) && Elements(page) <= all
    ensures |page| <= |all|
  {
    LengthOfDistinct(page);
    SubsetSize(Elements(page), all);
  }

  lemma SameMembers(part: seq<int>, all: seq<int>)
    requires NoRepeats(part) && NoRepeats(all) && Elements(part) <= Elements(all) && |part| >= |all|
    ensures Elements(part) == Elements(all)
  {
    LengthOfDistinct(part);
    LengthOfDistinct(all);
    SubsetSize(Elements(part), Elements(all));
    assert Elements(all) == Elements(part) + (Elements(all) - Elements(part));
  }

  /** The action identifiers rows of `ids` carry. */
  function Carried(rows: map<int, Row>, ids: set<int>): set<ActionId> {
    set m | m in ids && m in rows && rows[m].action.Some? :: rows[m].action.value
  }

  /** Of the messages `done`, those with a found action are applied now and the others remain as they were. */
  predicate Swept(before: map<int, Row>, rows: map<int, Row>, done: seq<int>, remaining: seq<int>, found: set<ActionId>) {
    && rows.Keys == before.Keys
    && (forall m :: m in rows && m !in done ==> rows[m] == before[m])
    && NoRepeats(remaining) && Elements(remaining) <= Elements(done)
    && (forall m :: m in remaining ==> m in rows && rows[m] == before[m] && !InFound(rows[m], found))
    && (forall m :: m in done && m !in remaining ==>
          m in rows && rows[m].status == Applied && rows[m].action == before[m].action && InFound(before[m], found))
  }

  /**
    Of the listed messages, those that remain are as they were and take part in no published action; the others
    are applied under a published one.
   */
  predicate Reconciled(before: map<int, Row>, rows: map<int, Row>, committed: map<ActionId, int>, pending: seq<int>,
                       remaining: seq<int>)
  {
    && NoRepeats(remaining) && Elements(remaining) <= Elements(pending)
    && (forall m :: m in remaining ==> m in before && m in rows && rows[m] == before[m] && Unpublished(committed, m))
    && forall m :: m in pending && m !in remaining ==>
         && m in before && m in rows && rows[m].status == Applied && rows[m].action == before[m].action
         && rows[m].action.Some? && rows[m].action.value in committed
  }

  lemma SweptIsReconciled(before: map<int, Row>, rows: map<int, Row>, committed: map<ActionId, int>, pending: seq<int>,
                          remaining: seq<int>, found: set<ActionId>)
    requires Swept(before, rows, pending, remaining, found) && forall m :: m in pending ==> m in before
    requires forall a :: a in found ==> a in committed
    requires forall m :: m in remaining ==> Unpublished(committed, m)
    ensures Reconciled(before, rows, committed, pending, remaining)
  {
  }

  lemma NextTodo(sources: seq<int>, k: nat)
    requires k < |sources| && NoRepeats(sources)
    ensures sources[k] in Elements(sources) - Elements(sources[..k])
    ensures Elements(sources[..k + 1]) == Elements(sources[..k]) + {sources[k]}
  {
    assert sources[..k + 1] == sources[..k] + [sources[k]];
  }

  lemma StepThrough(pending: seq<int>, k: nat, remaining: seq<int>)
    requires k < |pending| && NoRepeats(pending) && NoRepeats(remaining)
    requires Elements(remaining) <= Elements(pending[..k])
    ensures pending[k] in pending && pending[k] !in remaining && pending[k] !in pending[..k]
    ensures NoRepeats(remaining + [pending[k]])
    ensures Elements(remaining + [pending[k]]) == Elements(remaining) + {pending[k]}
    ensures Elements(pending[..k + 1]) == Elements(pending[..k]) + {pending[k]}
    ensures Elements(pending[k..]) == Elements(pending[k + 1..]) + {pending[k]}
    ensures pending[k] !in pending[k + 1..]
    ensures forall m :: m in pending[..k + 1] <==> m in pending[..k] || m == pending[k]
  {
    NextTodo(pending, k);
    assert forall m :: m in remaining ==> m in Elements(pending[..k]);
    NoRepeatsConcat(remaining, [pending[k]]);
    assert pending[k..] == [pending[k]] + pending[k + 1..];
    assert pending[..k + 1] == pending[..k] + [pending[k]];
  }

  lemma SweptStart(rows: map<int, Row>, found: set<ActionId>)
    ensures Swept(rows, rows, [], [], found) && NoRepeats([])
  {
  }

  /** A swept list leaves the rows elsewhere, and the order of the rest, as they were. */
  lemma SweptFrame(before: map<int, Row>, rows: map<int, Row>, done: seq<int>, remaining: seq<int>, found: set<ActionId>)
    requires Swept(before, rows, done, remaining, found)
    ensures rows.Keys == before.Keys && NoRepeats(remaining) && Elements(remaining) <= Elements(done)
    ensures forall m :: m in rows && m !in done ==> rows[m] == before[m]
  {
  }

  lemma SweptMarked(before: map<int, Row>, rows: map<int, Row>, pending: seq<int>, k: nat, remaining: seq<int>,
                    found: set<ActionId>, now: int)
    requires k < |pending| && NoRepeats(pending) && pending[k] in rows && InFound(rows[pending[k]], found)
    requires Swept(before, rows, pending[..k], remaining, found)
    ensures Swept(before, Marked(rows, pending[k], Applied, rows[pending[k]].action, now), pending[..k + 1], remaining,
                  found)
  {
    StepThrough(pending, k, remaining);
  }

  lemma SweptKept(before: map<int, Row>, rows: map<int, Row>, pending: seq<int>, k: nat, remaining: seq<int>,
                  found: set<ActionId>)
    requires k < |pending| && NoRepeats(pending) && pending[k] in rows && !InFound(rows[pending[k]], found)
    requires Swept(before, rows, pending[..k], remaining, found)
    ensures Swept(before, rows, pending[..k + 1], remaining + [pending[k]], found)
  {
    StepThrough(pending, k, remaining);
  }

  lemma PendingAreRows(rows: map<int, Row>, pending: seq<int>)
    requires Elements(pending) <= PendingRows(rows)
    ensures Elements(pending) <= rows.Keys && forall m :: m in pending ==> m in rows
  {
    forall m | m in pending
      ensures m in rows
    {
      assert m in Elements(pending) && m in PendingRows(rows);
    }
  }

  lemma OneMoreCarried(rows: map<int, Row>, ids: set<int>, m: int)
    requires m in rows
    ensures Carried(rows, ids + {m}) == Carried(rows, ids) + if rows[m].action.Some? then {rows[m].action.value} else {}
    ensures Claimed(rows, ids + {m}) == Claimed(rows, ids) + if rows[m].action.Some? then {m} else {}
  {
  }

  lemma CarriedOrNone(rows: map<int, Row>, ids: set<int>)
    ensures Carried(rows, ids) == {} <==> Claimed(rows, ids) == {}
  {
    if Claimed(rows, ids) != {} {
      assert !(forall m :: m !in Claimed(rows, ids)) || Claimed(rows, ids) == {};
      var m :| m in Claimed(rows, ids);
      assert rows[m].action.value in Carried(rows, ids);
    } else {
      assert forall m :: m in ids && m in rows && rows[m].action.Some? ==> m in Claimed(rows, ids);
    }
  }

  lemma NoneCarried(rows: map<int, Row>, pending: seq<int>)
    requires forall m :: m in pending ==> m in rows
    ensures Carried(rows, Elements(pending)) == {} <==> forall m :: m in pending ==> rows[m].action.None?
  {
    CarriedOrNone(rows, Elements(pending));
    if Carried(rows, Elements(pending)) == {} {
      forall m | m in pending
        ensures rows[m].action.None?
      {
        assert m !in Claimed(rows, Elements(pending));
      }
    }
  }

  lemma ScannedAll(rows: map<int, Row>, ids: set<int>, committed: map<ActionId, int>, since: int, found: set<ActionId>)
    requires found == set a | a in Carried(rows, ids) && a in committed && committed[a] >= since
    ensures Scanned(rows, Claimed(rows, ids), committed, since, found)
  {
    forall m | m in Claimed(rows, ids) && rows[m].action.value in committed
      ensures rows[m].action.value in found <==> committed[rows[m].action.value] >= since
    {
      assert rows[m].action.value in Carried(rows, ids);
    }
  }

  /** The earlier of `since` and the instants of a row; the zero instant counts for nothing. */
  method EarlierStamp(since: int, row: Row) returns (r: int)
    requires row.receivedAt != NEVER
    ensures r != NEVER && (r == since || Stamp(row, r)) && (since != NEVER ==> r <= since)
    ensures forall t :: Stamp(row, t) ==> r <= t
  {
    r := since;
    var stamps := [row.messageDate, row.receivedAt, row.processedAt];
    for j := 0 to |stamps|
      invariant r == since || Stamp(row, r)
      invariant since != NEVER ==> r != NEVER && r <= since
      invariant forall i :: 0 <= i < j && stamps[i] != NEVER ==> r != NEVER && r <= stamps[i]
    {
      if stamps[j] != NEVER && (r == NEVER || stamps[j] < r) {
        r := stamps[j];
      }
    }
    assert stamps[0] == row.messageDate && stamps[1] == row.receivedAt && stamps[2] == row.processedAt;
  }

  lemma EarliestGrows(rows: map<int, Row>, ids: set<int>, m: int, since: int, r: int)
    requires m in rows && rows[m].action.Some?
    requires if Carried(rows, ids) == {} then since == NEVER else Earliest(rows, Claimed(rows, ids), since)
    requires r != NEVER && (r == since || Stamp(rows[m], r)) && (since != NEVER ==> r <= since)
    requires forall t :: Stamp(rows[m], t) ==> r <= t
    ensures Earliest(rows, Claimed(rows, ids + {m}), r)
  {
    OneMoreCarried(rows, ids, m);
    CarriedOrNone(rows, ids);
    var claimed := Claimed(rows, ids + {m});
    assert m in claimed;
    if r == since {
      var x :| x in Claimed(rows, ids) && x in rows && Stamp(rows[x], r);
      assert x in claimed;
    }
  }

  /** The rows of `written` carry their outcome, the others are as before. */
  function SomeMarked(rows: map<int, Row>, final: map<int, Outcome>, at: int, written: set<int>): map<int, Row> {
    map m | m in rows ::
      if m in written && m in final
      then rows[m].(status := final[m].status, action := final[m].action, processedAt := at) else rows[m]
  }

  lemma AllOrNone(rows: map<int, Row>, final: map<int, Outcome>, at: int)
    ensures SomeMarked(rows, final, at, {}) == rows
    ensures SomeMarked(rows, final, at, final.Keys) == AllMarked(rows, final, at)
  {
  }

  /** The first `k` rows are finalized, and `left` holds the outcomes of the others. */
  ghost predicate FinalizedUpTo(before: map<int, Row>, rows: map<int, Row>, final: map<int, Outcome>,
                                left: map<int, Outcome>, at: int, ids: seq<int>, k: nat) {
    k <= |ids| && rows == SomeMarked(before, final, at, Elements(ids[..k])) && left == final - Elements(ids[..k])
  }

  lemma NoneFinalized(rows: map<int, Row>, final: map<int, Outcome>, at: int, ids: seq<int>)
    ensures FinalizedUpTo(rows, rows, final, final, at, ids, 0)
  {
    AllOrNone(rows, final, at);
    assert Elements(ids[..0]) == {};
  }

  lemma MarkedOneMore(rows: map<int, Row>, final: map<int, Outcome>, at: int, written: set<int>, m: int)
    requires m in rows && m in final && m !in written
    ensures SomeMarked(rows, final, at, written + {m})
         == Marked(SomeMarked(rows, final, at, written), m, final[m].status, final[m].action, at)
  {
  }

  /** The next row to finalize, and what is finalized once it is. */
  lemma NextRow(before: map<int, Row>, rows: map<int, Row>, final: map<int, Outcome>, left: map<int, Outcome>, at: int,
                ids: seq<int>, k: nat)
    requires FinalizedUpTo(before, rows, final, left, at, ids, k)
    requires k < |ids| && NoRepeats(ids) && Elements(ids) == final.Keys && final.Keys <= before.Keys
    ensures var m := ids[k];
            && m in final && m in left && m in rows && left[m] == final[m]
            && var marked := Marked(rows, m, final[m].status, final[m].action, at);
            FinalizedUpTo(before, marked, final, left - {m}, at, ids, k + 1)
  {
    NextTodo(ids, k);
    MarkedOneMore(before, final, at, Elements(ids[..k]), ids[k]);
  }

  lemma FinalizedRows(before: map<int, Row>, rows: map<int, Row>, final: map<int, Outcome>, left: map<int, Outcome>,
                      at: int, ids: seq<int>, k: nat)
    requires FinalizedUpTo(before, rows, final, left, at, ids, k)
    ensures rows == SomeMarked(before, final, at, Elements(ids[..k])) && ids[..|ids|] == ids
  {
  }

  lemma NextIgnored(ignored: seq<Ignore>, k: nat)
    requires k < |ignored|
    ensures Elements(Ids(ignored[..k + 1])) == Elements(Ids(ignored[..k])) + {ignored[k].id} && ignored[k] in ignored
  {
    IdsSplit(ignored, k);
  }

  lemma {:induction false} IdInIds(ignored: seq<Ignore>, g: Ignore)
    requires g in ignored
    ensures g.id in Ids(ignored)
  {
    var n := |ignored| - 1;
    if g != ignored[n] {
      assert ignored == ignored[..n] + [ignored[n]];
      IdInIds(ignored[..n], g);
    }
  }

  lemma IgnoredReady(ready: set<int>, d: Decision)
    requires Clean(ready, {}, Claims(d))
    ensures forall g :: g in d.ignored ==> g.id in ready
  {
    forall g | g in d.ignored
      ensures g.id in ready
    {
      IdInIds(d.ignored, g);
      assert g.id in Claims(d);
    }
  }

  /** The claims of a valid decision, kind by kind. */
  lemma ClaimsApart(items: seq<int>, d: Decision)
    requires ValidSources(items, d)
    ensures Clean(Elements(items), {}, Flat(d.reports))
    ensures Clean(Elements(items), Elements(Flat(d.reports)), Flat(d.votes))
    ensures forall g :: g in d.ignored ==> g.id in Elements(items)
    ensures Elements(Claims(d)) == Elements(Flat(d.reports)) + Elements(Flat(d.votes)) + Elements(Ids(d.ignored))
  {
    CleanConcat(Elements(items), {}, Flat(d.reports), Flat(d.votes));
    CleanConcat(Elements(items), {}, Flat(d.reports) + Flat(d.votes), Ids(d.ignored));
    IgnoredReady(Elements(items), d);
  }

  lemma NextEntry(entries: seq<Entry>, k: nat, ready: set<int>, decided: set<int>)
    requires k < |entries| && Clean(ready, decided, Flat(entries))
    ensures Flat(entries[..k + 1]) == Flat(entries[..k]) + entries[k].sources
    ensures Elements(Flat(entries[..k + 1])) == Elements(Flat(entries[..k])) + Elements(entries[k].sources)
    ensures Clean(ready, decided + Elements(Flat(entries[..k])), entries[k].sources)
  {
    FlatSplit(entries, k);
    CleanConcat(ready, decided, Flat(entries[..k + 1]), Flat(entries[k + 1..]));
    CleanConcat(ready, decided, Flat(entries[..k]), entries[k].sources);
  }

  lemma FailureAnswers(a: ActionId, reply: Reply)
    ensures Answers(Failure(a), a, false, reply)
  {
  }

  lemma OneAnswer(x: Outcome, y: Outcome, a: ActionId, claimed: bool, reply: Reply)
    requires Answers(x, a, claimed, reply) && Answers(y, a, claimed, reply)
    ensures x == y
  {
  }

  lemma NothingFlat(entries: seq<Entry>)
    ensures Elements(Flat(entries[..0])) == {}
  {
  }

  lemma NothingPublished(committed: map<ActionId, int>, now: int, w: World)
    ensures Extended(committed, Published([], now, w), now) == committed
  {
  }

  lemma PublishedAppend(entries: seq<Entry>, e: Entry, committed: map<ActionId, int>, now: int, w: World)
    ensures Extended(Extended(committed, Published(entries, now, w), now), Published([e], now, w), now)
         == Extended(committed, Published(entries + [e], now, w), now)
  {
    PublishedConcat(entries, [e], now, w);
    ExtendedTwice(committed, Published(entries, now, w), Published([e], now, w), now);
  }

  lemma PublishedOneMore(entries: seq<Entry>, k: nat, committed: map<ActionId, int>, now: int, w: World)
    requires k < |entries|
    ensures Extended(Extended(committed, Published(entries[..k], now, w), now), Published([entries[k]], now, w), now)
         == Extended(committed, Published(entries[..k + 1], now, w), now)
  {
    PublishedAppend(entries[..k], entries[k], committed, now, w);
    assert entries[..k + 1] == entries[..k] + [entries[k]];
  }

  lemma NothingTouched(rows: map<int, Row>, ids: set<int>)
    ensures OnlyTouches(rows, rows, ids)
  {
  }

  lemma CleanSingle(batch: set<int>, claimed: set<int>, m: int)
    requires m in batch && m !in claimed
    ensures Clean(batch, claimed, [m])
  {
  }

  lemma NothingForgotten(items: seq<int>, decided: set<int>, w: World, done: seq<Entry>)
    ensures Forgotten(items[..0], decided, w) == [] && Flat([]) == [] && done + [] == done
  {
  }

  lemma NotYetForgotten(items: seq<int>, k: nat, decided: set<int>, w: World)
    requires k < |items| && NoRepeats(items)
    ensures items[k] !in Elements(Flat(Forgotten(items[..k], decided, w)))
  {
    hide Flat, Forgotten;
    if items[k] in Flat(Forgotten(items[..k], decided, w)) {
      var e := FlatMember(Forgotten(items[..k], decided, w), items[k]);
    }
  }

  lemma NextForgotten(items: seq<int>, k: nat, decided: set<int>, w: World)
    requires k < |items|
    ensures var before := Forgotten(items[..k], decided, w);
            Forgotten(items[..k + 1], decided, w)
            == if items[k] !in decided && w.fallback(items[k]).Some?
               then before + [Entry(w.fallback(items[k]).value, "", [items[k]])] else before
    ensures items[k] in Elements(items) && Elements([items[k]]) == {items[k]}
  {
    assert items[..k + 1][..k] == items[..k];
    assert items[k] in items;
  }

  /** What ends in the rows is what was decided, and where nothing was decided the message is ignored. */
  lemma SettledEnds(items: seq<int>, d: Decision, outcomes: map<int, Outcome>, now: int, w: World,
                    final: map<int, Outcome>)
    requires Settles(AllEntries(items, d, w), outcomes, now, w) && final.Keys == Elements(items)
    requires outcomes.Keys <= Elements(items)
    requires forall m :: m in final ==> final[m] == if m in outcomes then outcomes[m] else Outcome(Ignored, None)
    ensures EndsBy(items, d, now, w, final)
  {
    hide AllEntries, EntryOutcome;
    var entries := AllEntries(items, d, w);
    forall m | m in items && forall e :: e in entries ==> m !in e.sources
      ensures final[m] == Outcome(Ignored, None)
    {
      if m in Flat(entries) {
        var e := FlatMember(entries, m);
      }
    }
  }

  lemma UncertainHonestly(final: map<int, Outcome>, committed: map<ActionId, int>)
    requires forall m :: m in final ==> final[m] == Outcome(Uncertain, None)
    ensures Honest(final, committed)
  {
  }

  // ---- a whole pass -----------------------------------------------------------------------------------

  /** The messages a pass handed to the model, what was written for them, and the decision it went by. */
  datatype Batch = Batch(items: seq<int>, final: map<int, Outcome>, decision: Decision)

  function NoBatch(): Batch {
    Batch([], map[], Decision([], [], []))
  }

  predicate IsPage(page: seq<int>, all: set<int>, limit: int) {
    && NoRepeats(page) && Elements(page) <= all && |page| <= PageBound(limit)
    && (|page| < PageBound(limit) ==> Elements(page) == all)
  }

  /** Every listed message is handled, and no other row changes. */
  ghost predicate AllHandled(before: map<int, Row>, rows: map<int, Row>, page: seq<int>, published: map<ActionId, int>,
                             final: map<int, Outcome>, w: World)
  {
    && rows.Keys == before.Keys
    && forall m :: m in rows ==>
         if m in page then Handled(m, before[m], rows[m], published, final, w) else rows[m] == before[m]
  }

  ghost predicate BatchDone(batch: Batch, now: int, initial: Option<Decision>, reasoned: Option<Decision>,
                            recheckIds: seq<int>, note: string -> string, twins: bool, w: World, rows: map<int, Row>,
                            before: map<ActionId, int>, after: map<ActionId, int>)
  {
    if batch.items == [] then batch.final == map[] && after == before
    else
      w.opening &&
      BatchEnds(batch.items, now, initial, reasoned, recheckIds, note, twins, batch.decision, w, rows, batch.final, before,
                after)
  }

  predicate TooOld(row: Row, maxAge: int, now: int) {
    maxAge > 0 && IsStale(row, now - maxAge)
  }

  /** Pending and not too old. */
  function StillPending(rows: map<int, Row>, maxAge: int, now: int): set<int> {
    set m | m in PendingRows(rows) && m in rows && !TooOld(rows[m], maxAge, now)
  }

  /** What is too old is ignored, every listed message is handled, and no other row changes. */
  ghost predicate PassDone(before: map<int, Row>, rows: map<int, Row>, page: seq<int>, published: map<ActionId, int>,
                           final: map<int, Outcome>, w: World, maxAge: int, keepAction: bool, now: int)
  {
    && rows.Keys == before.Keys
    && forall m :: m in rows ==>
         if TooOld(before[m], maxAge, now) then
           rows[m] == before[m].(status := Ignored, action := if keepAction then before[m].action else None,
                                 processedAt := now)
         else if m in page then Handled(m, before[m], rows[m], published, final, w)
         else rows[m] == before[m]
  }

  lemma SmoothPass(w: World, ids: seq<int>, atomic: bool)
    ensures Smooth(w) ==>
              w.scan && w.sweepRecord && w.opening && Finishes(atomic, ids, w) && forall m :: m in ids ==> w.sweep(m).Works?
  {
  }

  lemma SmoothExpiry(w: World)
    ensures Smooth(w) ==> w.expireAll.Works? && forall m :: w.expiry(m).Works?
  {
  }

  lemma NothingDone(batch: Batch, now: int, initial: Option<Decision>, reasoned: Option<Decision>,
                    recheckIds: seq<int>, note: string -> string, twins: bool, w: World, rows: map<int, Row>,
                    committed: map<ActionId, int>)
    requires batch == NoBatch()
    ensures BatchDone(batch, now, initial, reasoned, recheckIds, note, twins, w, rows, committed, committed)
  {
  }

  /** Reconciliation makes progress exactly when a listed message is applied. */
  lemma SweepProgress(before: map<int, Row>, rows: map<int, Row>, committed: map<ActionId, int>, page: seq<int>,
                      remaining: seq<int>)
    requires Reconciled(before, rows, committed, page, remaining) && NoRepeats(page) && rows.Keys == before.Keys
    requires forall m :: m in rows && m !in page ==> rows[m] == before[m]
    ensures |remaining| < |page| ==> exists m :: m in page && m in rows && rows[m].status == Applied
    ensures |remaining| >= |page| ==> rows == before
    ensures NoRepeats(remaining)
  {
    if |remaining| < |page| {
      if forall m :: m in page ==> m in remaining {
        assert Elements(page) <= Elements(remaining);
        LengthOfDistinct(page);
        LengthOfDistinct(remaining);
        SubsetSize(Elements(page), Elements(remaining));
      }
      var m :| m in page && m !in remaining;
    } else {
      SameMembers(remaining, page);
      forall m | m in rows
        ensures rows[m] == before[m]
      {
        assert m in page ==> m in Elements(page);
      }
    }
  }

  lemma WaitingHandled(before: map<int, Row>, rows: map<int, Row>, committed: map<ActionId, int>, page: seq<int>,
                       remaining: seq<int>, w: World)
    requires Reconciled(before, rows, committed, page, remaining) && rows.Keys == before.Keys
    requires forall m :: m in rows && m !in page ==> rows[m] == before[m]
    requires w.circuitOpen || forall m :: m in remaining ==> !w.due(m)
    ensures AllHandled(before, rows, page, committed, map[], w)
  {
    hide Unpublished;
  }

  lemma BatchIsDone(batch: Batch, now: int, initial: Option<Decision>, reasoned: Option<Decision>, recheckIds: seq<int>,
                    note: string -> string, twins: bool, w: World, rows: map<int, Row>, swept: map<int, Row>,
                    before: map<ActionId, int>, after: map<ActionId, int>, page: seq<int>, remaining: seq<int>)
    requires batch.items != [] && w.opening && Elements(batch.items) <= Elements(remaining) && swept.Keys == rows.Keys
    requires Reconciled(rows, swept, before, page, remaining)
    requires BatchEnds(batch.items, now, initial, reasoned, recheckIds, note, twins, batch.decision, w, swept, batch.final,
                       before, after)
    ensures BatchDone(batch, now, initial, reasoned, recheckIds, note, twins, w, rows, before, after)
    ensures batch.final.Keys == Elements(batch.items) <= Elements(page) && before.Keys <= after.Keys
  {
    hide EndsBy, GoesBy, ValidSources, Published, AllEntries, Unpublished;
    forall m | m in batch.final
      ensures swept[m] == rows[m]
    {
      assert m in Elements(remaining) && m in remaining;
    }
  }

  lemma BatchHandled(before: map<int, Row>, swept: map<int, Row>, rows: map<int, Row>, committed: map<ActionId, int>,
                     page: seq<int>, remaining: seq<int>, batch: Batch, w: World)
    requires Reconciled(before, swept, committed, page, remaining)
    requires rows.Keys == swept.Keys == before.Keys && !w.circuitOpen
    requires forall m :: m in swept && m !in page ==> swept[m] == before[m]
    requires batch.final.Keys == Elements(batch.items) && batch.final.Keys <= rows.Keys
    requires forall m :: m in batch.items <==> m in remaining && w.due(m)
    requires forall m :: m in batch.final ==> rows[m].status == batch.final[m].status && rows[m].action == batch.final[m].action
    requires forall m :: m in rows && m !in batch.final ==> rows[m] == swept[m]
    ensures AllHandled(before, rows, page, committed, batch.final, w)
  {
    hide Unpublished;
    forall m | m in rows
      ensures if m in page then Handled(m, before[m], rows[m], committed, batch.final, w) else rows[m] == before[m]
    {
      assert m in batch.final <==> m in batch.items;
      assert m in remaining ==> m in Elements(remaining) && m in Elements(page) && m in page;
    }
  }

  lemma PageWithin(page: seq<int>, all: set<int>, limit: int)
    requires IsPage(page, all, limit)
    ensures forall m :: m in page ==> m in all
  {
    assert forall m :: m in page ==> m in Elements(page);
  }

  /** Expiry first and then the rest of the pass. */
  lemma ExpiredAndHandled(before: map<int, Row>, left: map<int, Row>, rows: map<int, Row>, page: seq<int>,
                          published: map<ActionId, int>, final: map<int, Outcome>, w: World, maxAge: int, keepAction: bool,
                          now: int, limit: int)
    requires left == if maxAge > 0 then ExpiredRows(before, before.Keys, now - maxAge, keepAction, now) else before
    requires AllHandled(left, rows, page, published, final, w) && IsPage(page, PendingRows(left), limit)
    ensures PassDone(before, rows, page, published, final, w, maxAge, keepAction, now)
    ensures IsPage(page, StillPending(before, maxAge, now), limit)
  {
    hide Handled, IsPage;
    forall m | m in before
      ensures m in PendingRows(left) <==> m in StillPending(before, maxAge, now)
    {
    }
    assert PendingRows(left) == StillPending(before, maxAge, now);
    PageWithin(page, PendingRows(left), limit);
    forall m | m in page
      ensures m in before && !TooOld(before[m], maxAge, now)
    {
      assert m in StillPending(before, maxAge, now);
    }
  }

  lemma DoneFromBefore(batch: Batch, now: int, initial: Option<Decision>, reasoned: Option<Decision>, recheckIds: seq<int>,
                       note: string -> string, twins: bool, w: World, rows: map<int, Row>, left: map<int, Row>,
                       before: map<ActionId, int>, after: map<ActionId, int>, page: seq<int>, limit: int, maxAge: int,
                       keepAction: bool)
    requires left == if maxAge > 0 then ExpiredRows(rows, rows.Keys, now - maxAge, keepAction, now) else rows
    requires BatchDone(batch, now, initial, reasoned, recheckIds, note, twins, w, left, before, after)
    requires IsPage(page, StillPending(rows, maxAge, now), limit) && batch.final.Keys <= Elements(page)
    ensures BatchDone(batch, now, initial, reasoned, recheckIds, note, twins, w, rows, before, after)
  {
    hide EndsBy, GoesBy, ValidSources, Published, AllEntries;
    forall m | m in batch.final
      ensures m in left && m in rows && left[m] == rows[m]
    {
      assert m in StillPending(rows, maxAge, now);
    }
  }

  /** Where no message carries an action all remain. */
  lemma NothingSwept(before: map<int, Row>, rows: map<int, Row>, committed: map<ActionId, int>, pending: seq<int>,
                     remaining: seq<int>)
    requires Reconciled(before, rows, committed, pending, remaining) && NoRepeats(pending)
    ensures (forall m :: m in pending ==> m in before && before[m].action.None?) ==> |remaining| == |pending|
  {
    if forall m :: m in pending ==> m in before && before[m].action.None? {
      assert forall m :: m in pending ==> m in remaining;
      assert Elements(pending) == Elements(remaining);
      LengthOfDistinct(pending);
      LengthOfDistinct(remaining);
    }
  }

  class Analyzer {
    var rows: map<int, Row>
    var committed: map<ActionId, int>
    var clock: int
    ghost var phase: Phase
    ghost var trace: seq<State>

    ghost function Current(): State
      reads this
    {
      State(rows, committed, clock, phase)
    }

    ghost predicate Valid()
      reads this
    {
      Run(trace) && trace[|trace| - 1] == Current()
    }

    constructor (start: int)
      requires start >= EPOCH
      ensures Valid() && phase.Idle? && rows == map[] && committed == map[]
    {
      rows, committed, clock, phase := map[], map[], start, Idle;
      trace := [State(map[], map[], start, Idle)];
    }

    /** Notes one step of the protocol. */
    ghost method Record(was: State, step: Step)
      requires Run(trace) && trace[|trace| - 1] == was && Next(was, Current(), step)
      modifies this`trace
      ensures Valid() && trace == old(trace) + [Current()]
    {
      assert Steps(was, Current());
      trace := trace + [Current()];
    }

    /** The invariant of the protocol holds wherever a method leaves off. */
    ghost method Invariant()
      requires Valid()
      ensures Inv(Current())
    {
      RunKeepsInv(trace, |trace| - 1);
    }

    ghost method InvariantHolds()
      requires Valid()
      ensures Exclusive(committed) && StillCarried(rows, committed)
    {
      Invariant();
    }

    method Pause()
      requires Valid()
      modifies this`clock, this`trace
      ensures Valid() && old(trace) <= trace && clock >= old(clock)
    {
      var t: int := *;
      if t > clock {
        ghost var was := Current();
        clock := t;
        Record(was, Tick(t));
      }
    }

    method Crash()
      requires Valid()
      modifies this`phase, this`trace
      ensures Valid() && old(trace) <= trace && phase.Idle?
    {
      ghost var was := Current();
      phase := Idle;
      Record(was, Stop);
    }

    /** Inserting a message that is already known changes nothing. */
    method EnqueueMessage(id: int, messageDate: int) returns (inserted: bool)
      requires Valid() && phase.Idle?
      modifies this`rows, this`trace
      ensures Valid() && old(trace) <= trace
      ensures inserted <==> id !in old(rows)
      ensures rows == if inserted then old(rows)[id := Row(Pending, None, messageDate, clock, NEVER)] else old(rows)
    {
      Invariant();
      ghost var was := Current();
      inserted := id !in rows;
      if inserted {
        rows := rows[id := Row(Pending, None, messageDate, clock, NEVER)];
      }
      Record(was, Enqueue(id, Row(Pending, None, messageDate, clock, NEVER)));
    }

    // ---- one published decision ---------------------------------------------------------------------

    ghost method BeginClaim(a: ActionId)
      requires Valid() && phase.Deciding? && a.sources != {} && a.sources <= phase.ready - phase.outcomes.Keys
      modifies this`phase, this`trace
      ensures Valid() && old(trace) <= trace && a !in committed && a.sources <= rows.Keys
      ensures phase == Claiming(old(phase).now, old(phase).ready, old(phase).outcomes, a, a.sources)
    {
      ghost var was := Current();
      phase := Claiming(phase.now, phase.ready, phase.outcomes, a, a.sources);
      Record(was, Claim(a));
      Invariant();
      forall m | m in a.sources
        ensures m in rows
      {
        assert m in phase.ready;
      }
      SourcesUnpublished(Current());
    }

    /** Persists the action's identifier on one source. */
    method ClaimSource(a: ActionId, now: int, m: int, ending: Ending) returns (ok: bool)
      requires Valid() && phase.Claiming? && phase.action == a && phase.now == now && m in phase.todo && m in rows
      modifies this`rows, this`phase, this`trace
      ensures Valid() && old(trace) <= trace
      ensures ok <==> ending.Works?
      ensures phase == if ok then old(phase).(todo := old(phase).todo - {m})
                       else Deciding(now, old(phase).ready, Decided(old(phase).outcomes, a.sources, Failure(a)))
      ensures rows == if ending.Happened() then Marked(old(rows), m, Pending, Some(a), now) else old(rows)
    {
      ghost var was := Current();
      ok := ending.Works?;
      if ending.Happened() {
        rows := Marked(rows, m, Pending, Some(a), now);
      }
      if ok {
        phase := phase.(todo := phase.todo - {m});
        Record(was, ClaimMark(m));
      } else {
        phase := Deciding(now, phase.ready, Decided(phase.outcomes, a.sources, Failure(a)));
        Record(was, ClaimFail(m, ending.FailsLate?));
      }
    }

    /** The report service accepts and commits, refuses without committing, or errs either way. */
    method SubmitAction(a: ActionId, now: int, reply: Reply, late: bool) returns (outcome: Outcome)
      requires Valid() && phase.Claiming? && phase.action == a && phase.now == now && phase.todo == {}
      modifies this`committed, this`phase, this`trace
      ensures Valid() && old(trace) <= trace
      ensures phase == Deciding(now, old(phase).ready, Decided(old(phase).outcomes, a.sources, outcome))
      ensures Answers(outcome, a, true, reply)
      ensures committed == if reply.Accepted? || (reply.Error? && late) then old(committed)[a := now] else old(committed)
    {
      ghost var was := Current();
      var commits := reply.Accepted? || (reply.Error? && late);
      if commits {
        committed := committed[a := now];
      }
      outcome := ReplyOutcome(reply, a);
      phase := Deciding(now, phase.ready, Decided(phase.outcomes, a.sources, outcome));
      Record(was, Submit(reply, commits));
    }

    /** Persists the claim on one source after another, up to the first failure. */
    method ClaimAll(a: ActionId, now: int, sources: seq<int>, claim: int -> Ending) returns (ok: bool)
      requires Valid() && phase.Claiming? && phase.action == a && phase.now == now && phase.todo == a.sources <= rows.Keys
      requires NoRepeats(sources) && a.sources == Elements(sources)
      modifies this`rows, this`phase, this`trace
      ensures Valid() && old(trace) <= trace
      ensures ok <==> forall m :: m in sources ==> claim(m).Works?
      ensures phase == if ok then old(phase).(todo := {})
                       else Deciding(now, old(phase).ready, Decided(old(phase).outcomes, a.sources, Failure(a)))
      ensures rows == ClaimedRows(old(rows), WrittenBy(sources, claim), a, now)
    {
      hide Valid, WrittenBy, ClaimedRows, Marked, NoRepeats, Decided;
      ClaimedOneMore(rows, {}, 0, a, now);
      assert Elements(sources[..0]) == {};
      for k := 0 to |sources|
        invariant Valid() && old(trace) <= trace && Reached(sources, k, claim)
        invariant phase == old(phase).(todo := a.sources - Elements(sources[..k]))
        invariant rows == ClaimedRows(old(rows), Elements(sources[..k]), a, now)
      {
        NextTodo(sources, k);
        assert sources[k] in a.sources;
        ClaimedOneMore(old(rows), Elements(sources[..k]), sources[k], a, now);
        ok := ClaimSource(a, now, sources[k], claim(sources[k]));
        if !ok {
          WrittenUpTo(sources, claim, k);
          return;
        }
      }
      assert sources[..|sources|] == sources;
      AllWritten(sources, claim);
      ok := true;
    }

    /**
      Claims every source in turn, then submits. The messages are applied if and only if all claims work and the
      service accepts, uncertain if and only if it then refuses, and pending under the action otherwise; the
      action is published exactly when the submit is reached and commits.
     */
    method ApplyClaimedDecision(now: int, sources: seq<int>, content: string, w: World) returns (outcome: Outcome)
      requires Valid() && phase.Deciding? && phase.now == now
      requires sources != [] && NoRepeats(sources) && Elements(sources) <= phase.ready - phase.outcomes.Keys
      modifies this`rows, this`committed, this`phase, this`trace
      ensures Valid() && old(trace) <= trace
      ensures phase == Deciding(now, old(phase).ready, Decided(old(phase).outcomes, Elements(sources), outcome))
      ensures var a := ActionId(now, content, Elements(sources));
              && a !in old(committed) && Answers(outcome, a, ClaimsWork(sources, w), w.reply(a))
              && committed == (if ClaimsWork(sources, w) && (w.reply(a).Accepted? || (w.reply(a).Error? && w.late(a)))
                               then old(committed)[a := now] else old(committed))
              && rows == ClaimedRows(old(rows), WrittenBy(sources, w.claim), a, now)
    {
      hide Valid, Answers, WrittenBy, ClaimedRows, Decided, NoRepeats;
      var a := ActionId(now, content, Elements(sources));
      assert sources[0] in a.sources;
      BeginClaim(a);
      var ok := ClaimAll(a, now, sources, w.claim);
      if !ok {
        FailureAnswers(a, w.reply(a));
        return Failure(a);
      }
      outcome := SubmitAction(a, now, w.reply(a), w.late(a));
    }

    // ---- one model answer -----------------------------------------------------------------------------

    /** Settles messages without publishing. */
    method MarkSources(outcomes: map<int, Outcome>, sources: seq<int>, status: Status)
      returns (marked: map<int, Outcome>)
      requires Valid() && phase.Deciding? && phase.outcomes == outcomes && !status.Pending? && !status.Applied?
      requires Elements(sources) <= phase.ready - outcomes.Keys
      modifies this`phase, this`trace
      ensures Valid() && old(trace) <= trace
      ensures phase == Deciding(old(phase).now, old(phase).ready, marked)
      ensures marked == Decided(outcomes, Elements(sources), Outcome(status, None))
    {
      marked := MarkAll(outcomes, sources, Outcome(status, None));
      ghost var was := Current();
      phase := Deciding(phase.now, phase.ready, marked);
      Record(was, Decide(Elements(sources), status));
    }

    /** One report or vote: settled, or claimed and submitted. Only its own messages get an outcome. */
    method EvaluateEntry(now: int, outcomes: map<int, Outcome>, e: Entry, w: World)
      returns (outcomes': map<int, Outcome>)
      requires Valid() && phase.Deciding? && phase.now == now && phase.outcomes == outcomes
      requires e.sources != [] && Clean(phase.ready, outcomes.Keys, e.sources)
      modifies this`rows, this`committed, this`phase, this`trace
      ensures Valid() && old(trace) <= trace
      ensures phase == Deciding(old(phase).now, old(phase).ready, outcomes')
      ensures outcomes' == Decided(outcomes, Elements(e.sources), EntryOutcome(e, now, w))
      ensures committed == Extended(old(committed), Published([e], now, w), now)
      ensures rows == if w.verdict(e).Publish?
        then ClaimedRows(old(rows), WrittenBy(e.sources, w.claim), Planned(e, now), now) else old(rows)
      ensures OnlyTouches(old(rows), rows, old(phase).ready)
    {
      hide Valid, OnlyTouches, WrittenBy, ClaimedRows, Published, Answers, Decided, EntryOutcome;
      CleanMembers(phase.ready, outcomes.Keys, e.sources);
      ClaimsTouchSources(rows, e.sources, w.claim, Planned(e, now), now, phase.ready);
      NothingTouched(rows, phase.ready);
      PublishedOne(e, now, w);
      match w.verdict(e)
      case Settle(status) =>
        outcomes' := MarkSources(outcomes, e.sources, status);
      case Publish =>
        var outcome := ApplyClaimedDecision(now, e.sources, e.content, w);
        OneAnswer(outcome, EntryOutcome(e, now, w), Planned(e, now), ClaimsWork(e.sources, w), w.reply(Planned(e, now)));
        outcomes' := Decided(outcomes, Elements(e.sources), outcome);
    }

    /** Every entry decides its own messages and nothing decided before is overwritten. */
    method EvaluateEntries(now: int, outcomes: map<int, Outcome>, entries: seq<Entry>, w: World, ghost done: seq<Entry>)
      returns (outcomes': map<int, Outcome>)
      requires Valid() && phase.Deciding? && phase.now == now && phase.outcomes == outcomes
      requires AllHaveSources(entries) && Clean(phase.ready, outcomes.Keys, Flat(entries))
      requires Settles(done, outcomes, now, w)
      modifies this`rows, this`committed, this`phase, this`trace
      ensures Valid() && old(trace) <= trace
      ensures phase == Deciding(old(phase).now, old(phase).ready, outcomes')
      ensures outcomes'.Keys == outcomes.Keys + Elements(Flat(entries))
      ensures Settles(done + entries, outcomes', now, w)
      ensures committed == Extended(old(committed), Published(entries, now, w), now)
      ensures OnlyTouches(old(rows), rows, old(phase).ready)
    {
      hide Valid, Settles, EntryOutcome, Published, Extended, OnlyTouches, Clean, Flat;
      outcomes' := outcomes;
      NothingFlat(entries);
      NothingPublished(committed, now, w);
      NothingTouched(rows, phase.ready);
      assert done + entries[..0] == done;
      for k := 0 to |entries|
        invariant Valid() && old(trace) <= trace && OnlyTouches(old(rows), rows, old(phase).ready)
        invariant phase == Deciding(old(phase).now, old(phase).ready, outcomes')
        invariant outcomes'.Keys == outcomes.Keys + Elements(Flat(entries[..k]))
        invariant Settles(done + entries[..k], outcomes', now, w)
        invariant committed == Extended(old(committed), Published(entries[..k], now, w), now)
      {
        NextEntry(entries, k, phase.ready, outcomes.Keys);
        SettlesOneMore(done + entries[..k], outcomes', entries[k], now, w);
        PublishedOneMore(entries, k, old(committed), now, w);
        assert done + entries[..k] + [entries[k]] == done + entries[..k + 1];
        ghost var was := rows;
        outcomes' := EvaluateEntry(now, outcomes', entries[k], w);
        TouchesChain(old(rows), was, rows, phase.ready);
      }
      assert entries[..|entries|] == entries;
    }

    /** An ignored message keeps an outcome it already has. */
    method IgnoreOne(outcomes: map<int, Outcome>, id: int) returns (outcomes': map<int, Outcome>)
      requires Valid() && phase.Deciding? && phase.outcomes == outcomes && id in phase.ready
      modifies this`phase, this`trace
      ensures Valid() && old(trace) <= trace
      ensures phase == Deciding(old(phase).now, old(phase).ready, outcomes')
      ensures outcomes' == if id in outcomes then outcomes else outcomes[id := Outcome(Ignored, None)]
    {
      outcomes' := outcomes;
      if id !in outcomes {
        assert Elements([id]) == {id};
        outcomes' := MarkSources(outcomes, [id], Ignored);
      }
    }

    method EvaluateIgnored(outcomes: map<int, Outcome>, ignored: seq<Ignore>, ghost w: World, ghost done: seq<Entry>)
      returns (outcomes': map<int, Outcome>)
      requires Valid() && phase.Deciding? && phase.outcomes == outcomes
      requires forall g :: g in ignored ==> g.id in phase.ready
      requires Settles(done, outcomes, phase.now, w)
      modifies this`phase, this`trace
      ensures Valid() && old(trace) <= trace
      ensures phase == Deciding(old(phase).now, old(phase).ready, outcomes')
      ensures outcomes'.Keys == outcomes.Keys + Elements(Ids(ignored))
      ensures Settles(done, outcomes', phase.now, w)
    {
      hide Valid, Settles;
      outcomes' := outcomes;
      for k := 0 to |ignored|
        invariant Valid() && old(trace) <= trace
        invariant phase == Deciding(old(phase).now, old(phase).ready, outcomes')
        invariant outcomes'.Keys == outcomes.Keys + Elements(Ids(ignored[..k]))
        invariant Settles(done, outcomes', phase.now, w)
      {
        NextIgnored(ignored, k);
        SettlesIgnored(done, outcomes', ignored[k].id, phase.now, w);
        outcomes' := IgnoreOne(outcomes', ignored[k].id);
      }
      assert ignored[..|ignored|] == ignored;
    }

    /** Messages the model forgot may get a report of their own, one message each. */
    method AddFallbackOmittedSignalOutcomes(now: int, items: seq<int>, outcomes: map<int, Outcome>, w: World,
                                            ghost done: seq<Entry>) returns (outcomes': map<int, Outcome>)
      requires Valid() && phase.Deciding? && phase.now == now && phase.outcomes == outcomes
      requires Elements(items) <= phase.ready && NoRepeats(items) && Settles(done, outcomes, now, w)
      modifies this`rows, this`committed, this`phase, this`trace
      ensures Valid() && old(trace) <= trace
      ensures phase == Deciding(old(phase).now, old(phase).ready, outcomes')
      ensures var entries := Forgotten(items, outcomes.Keys, w);
              && outcomes'.Keys == outcomes.Keys + Elements(Flat(entries))
              && Settles(done + entries, outcomes', now, w)
              && committed == Extended(old(committed), Published(entries, now, w), now)
      ensures OnlyTouches(old(rows), rows, old(phase).ready)
    {
      hide Valid, Settles, EntryOutcome, Published, Extended, Flat, OnlyTouches, Forgotten, Clean;
      outcomes' := outcomes;
      NothingPublished(committed, now, w);
      NothingTouched(rows, phase.ready);
      NothingForgotten(items, outcomes.Keys, w, done);
      for k := 0 to |items|
        invariant Valid() && old(trace) <= trace && OnlyTouches(old(rows), rows, old(phase).ready)
        invariant phase == Deciding(old(phase).now, old(phase).ready, outcomes')
        invariant outcomes'.Keys == outcomes.Keys + Elements(Flat(Forgotten(items[..k], outcomes.Keys, w)))
        invariant Settles(done + Forgotten(items[..k], outcomes.Keys, w), outcomes', now, w)
        invariant committed == Extended(old(committed), Published(Forgotten(items[..k], outcomes.Keys, w), now, w), now)
      {
        NextForgotten(items, k, outcomes.Keys, w);
        NotYetForgotten(items, k, outcomes.Keys, w);
        if items[k] in outcomes' || w.fallback(items[k]).None? {
          continue;
        }
        var e := Entry(w.fallback(items[k]).value, "", [items[k]]);
        ghost var before := Forgotten(items[..k], outcomes.Keys, w);
        SettlesOneMore(done + before, outcomes', e, now, w);
        FlatAppend(before, e);
        PublishedAppend(before, e, old(committed), now, w);
        assert done + before + [e] == done + (before + [e]);
        CleanSingle(phase.ready, outcomes'.Keys, items[k]);
        ghost var was := rows;
        outcomes' := EvaluateEntry(now, outcomes', e, w);
        TouchesChain(old(rows), was, rows, phase.ready);
      }
      assert items[..|items|] == items;
    }

    /** A valid decision decides exactly the messages it names, each as its entry says. */
    method EvaluateBatchDecisions(now: int, items: seq<int>, d: Decision, w: World) returns (outcomes: map<int, Outcome>)
      requires Valid() && phase.Deciding? && phase.now == now && phase.outcomes == map[]
      requires ValidSources(items, d) && Elements(items) == phase.ready
      modifies this`rows, this`committed, this`phase, this`trace
      ensures Valid() && old(trace) <= trace
      ensures phase == Deciding(now, old(phase).ready, outcomes)
      ensures outcomes.Keys == Elements(Claims(d)) && Settles(d.reports + d.votes, outcomes, now, w)
      ensures committed == Extended(old(committed), Published(d.reports + d.votes, now, w), now)
      ensures OnlyTouches(old(rows), rows, old(phase).ready)
    {
      hide Valid, Settles, Published, Extended, OnlyTouches;
      ClaimsApart(items, d);
      NothingSettled(now, w);
      assert [] + d.reports == d.reports;
      outcomes := EvaluateEntries(now, map[], d.reports, w, []);
      ghost var was := rows;
      outcomes := EvaluateEntries(now, outcomes, d.votes, w, d.reports);
      TouchesChain(old(rows), was, rows, phase.ready);
      PublishedConcat(d.reports, d.votes, now, w);
      ExtendedTwice(old(committed), Published(d.reports, now, w), Published(d.votes, now, w), now);
      outcomes := EvaluateIgnored(outcomes, d.ignored, w, d.reports + d.votes);
    }

    // ---- finalizing -----------------------------------------------------------------------------------

    method FinalizeOne(final: map<int, Outcome>, finishedAt: int, m: int, ending: Ending) returns (ok: bool)
      requires Valid() && phase.Finalizing? && phase.finishedAt == finishedAt && m in phase.final && m in rows
      requires m in final && phase.final[m] == final[m]
      modifies this`rows, this`phase, this`trace
      ensures Valid() && old(trace) <= trace
      ensures ok <==> ending.Works?
      ensures ok ==> phase == Finalizing(old(phase).final - {m}, finishedAt)
      ensures rows == if ending.Happened() then Marked(old(rows), m, final[m].status, final[m].action, finishedAt)
                      else old(rows)
    {
      ghost var was := Current();
      ok := ending.Works?;
      if ending.Happened() {
        rows := Marked(rows, m, final[m].status, final[m].action, finishedAt);
        phase := Finalizing(phase.final - {m}, finishedAt);
        Record(was, FinalMark(m));
      }
    }

    method FinalizeAtOnce(final: map<int, Outcome>, finishedAt: int, ending: Ending) returns (ok: bool)
      requires Valid() && phase == Finalizing(final, finishedAt) && final.Keys <= rows.Keys
      modifies this`rows, this`phase, this`trace
      ensures Valid() && old(trace) <= trace && phase.Idle?
      ensures ok <==> ending.Works?
      ensures rows == if ending.Happened() then AllMarked(old(rows), final, finishedAt) else old(rows)
    {
      ghost var was := Current();
      ok := ending.Works?;
      phase := Idle;
      if ending.Happened() {
        rows := AllMarked(rows, final, finishedAt);
        Record(was, FinalCommit);
      } else {
        Record(was, Stop);
      }
    }

    /** Row after row, and then the record of the batch. */
    method FinalizeRowByRow(final: map<int, Outcome>, finishedAt: int, ids: seq<int>, w: World) returns (ok: bool)
      requires Valid() && phase == Finalizing(final, finishedAt)
      requires NoRepeats(ids) && Elements(ids) == final.Keys && final.Keys <= rows.Keys
      modifies this`rows, this`phase, this`trace
      ensures Valid() && old(trace) <= trace && phase.Idle?
      ensures ok <==> (forall m :: m in ids ==> w.finish(m).Works?) && w.finishRecord
      ensures rows == SomeMarked(old(rows), final, finishedAt, WrittenBy(ids, w.finish))
    {
      hide Valid, FinalizedUpTo, Marked, SomeMarked, NoRepeats, WrittenBy;
      NoneFinalized(rows, final, finishedAt, ids);
      for k := 0 to |ids|
        invariant Valid() && old(trace) <= trace && phase.Finalizing? && phase.finishedAt == finishedAt
        invariant FinalizedUpTo(old(rows), rows, final, phase.final, finishedAt, ids, k)
        invariant Reached(ids, k, w.finish)
      {
        NextRow(old(rows), rows, final, phase.final, finishedAt, ids, k);
        ghost var left := phase.final;
        ok := FinalizeOne(final, finishedAt, ids[k], w.finish(ids[k]));
        if !ok {
          WrittenUpTo(ids, w.finish, k);
          NextTodo(ids, k);
          if w.finish(ids[k]).Happened() {
            FinalizedRows(old(rows), rows, final, left - {ids[k]}, finishedAt, ids, k + 1);
          } else {
            FinalizedRows(old(rows), rows, final, left, finishedAt, ids, k);
          }
          Crash();
          return;
        }
      }
      AllWritten(ids, w.finish);
      FinalizedRows(old(rows), rows, final, phase.final, finishedAt, ids, |ids|);
      Crash();
      ok := w.finishRecord;
    }

    /** A store with batch finalization writes every outcome in one transaction; an older one row by row. */
    method FinalizeBatch(atomic: bool, final: map<int, Outcome>, finishedAt: int, ids: seq<int>, w: World)
      returns (ok: bool)
      requires Valid() && phase == Finalizing(final, finishedAt)
      requires NoRepeats(ids) && Elements(ids) == final.Keys && final.Keys <= rows.Keys
      modifies this`rows, this`phase, this`trace
      ensures Valid() && old(trace) <= trace && phase.Idle?
      ensures ok <==> Finishes(atomic, ids, w)
      ensures ok ==> rows == AllMarked(old(rows), final, finishedAt)
      ensures atomic ==> rows == if w.finishAll.Happened() then AllMarked(old(rows), final, finishedAt) else old(rows)
      ensures !atomic ==> rows == SomeMarked(old(rows), final, finishedAt, WrittenBy(ids, w.finish))
    {
      hide WrittenBy, SomeMarked, AllMarked;
      AllOrNone(rows, final, finishedAt);
      if atomic {
        ok := FinalizeAtOnce(final, finishedAt, w.finishAll);
      } else {
        ok := FinalizeRowByRow(final, finishedAt, ids, w);
        if ok {
          AllWritten(ids, w.finish);
        }
      }
    }

    // ---- listing and reconciling ------------------------------------------------------------------------

    /** Pending messages up to the limit, in the store's order. */
    method ListPending(limit: int) returns (ids: seq<int>)
      ensures NoRepeats(ids) && Elements(ids) <= PendingRows(rows)
      ensures |ids| <= PageBound(limit) && (|ids| < PageBound(limit) ==> Elements(ids) == PendingRows(rows))
    {
      var bound := PageBound(limit);
      ids := [];
      var rest := PendingRows(rows);
      while rest != {} && |ids| < bound
        invariant NoRepeats(ids) && Elements(ids) + rest == PendingRows(rows) && Elements(ids) !! rest
        invariant |ids| <= bound
        decreases rest
      {
        assert !(forall m :: m !in rest) || rest == {};
        var m :| m in rest;
        assert m !in Elements(ids);
        NoRepeatsConcat(ids, [m]);
        assert Elements(ids + [m]) == Elements(ids) + {m};
        ids := ids + [m];
        rest := rest - {m};
      }
    }

    /** The action identifiers the listed messages carry, and where the scan for them must start. */
    method ScanStart(pending: seq<int>, now: int) returns (wanted: set<ActionId>, since: int)
      requires Valid() && Elements(pending) <= rows.Keys
      ensures wanted == Carried(rows, Elements(pending))
      ensures wanted != {} ==> ScanBound(rows, Claimed(rows, Elements(pending)), now, since)
    {
      wanted, since := {}, NEVER;
      Invariant();
      for k := 0 to |pending|
        invariant wanted == Carried(rows, Elements(pending[..k]))
        invariant if wanted == {} then since == NEVER else Earliest(rows, Claimed(rows, Elements(pending[..k])), since)
      {
        assert pending[k] in Elements(pending);
        assert pending[..k + 1] == pending[..k] + [pending[k]];
        assert Elements(pending[..k + 1]) == Elements(pending[..k]) + {pending[k]};
        OneMoreCarried(rows, Elements(pending[..k]), pending[k]);
        var row := rows[pending[k]];
        if row.action.Some? {
          var earliest := EarlierStamp(since, row);
          EarliestGrows(rows, Elements(pending[..k]), pending[k], since, earliest);
          wanted, since := wanted + {row.action.value}, earliest;
        }
      }
      assert pending[..|pending|] == pending;
      if since > now {
        since := EPOCH;
      }
    }

    method ReconcileOne(m: int, now: int, ending: Ending) returns (ok: bool)
      requires Valid() && phase.Reconciling? && phase.now == now && m in phase.listed && m in rows
      requires InFound(rows[m], phase.found)
      modifies this`rows, this`phase, this`trace
      ensures Valid() && old(trace) <= trace
      ensures ok <==> ending.Works?
      ensures ok ==> phase == Reconciling(now, old(phase).listed - {m}, old(phase).found)
      ensures rows == if ending.Happened() then Marked(old(rows), m, Applied, old(rows)[m].action, now) else old(rows)
    {
      ghost var was := Current();
      ok := ending.Works?;
      if ending.Happened() {
        rows := Marked(rows, m, Applied, rows[m].action, now);
        phase := Reconciling(now, phase.listed - {m}, phase.found);
        Record(was, Reconcile(m));
      }
    }

    /** Walks through the listed messages and marks those whose action was found. */
    method MarkCommitted(pending: seq<int>, now: int, found: set<ActionId>, sweep: int -> Ending)
      returns (ok: bool, remaining: seq<int>)
      requires Valid() && phase == Reconciling(now, Elements(pending), found) && NoRepeats(pending)
      requires forall m :: m in pending ==> m in rows
      modifies this`rows, this`phase, this`trace
      ensures Valid() && old(trace) <= trace
      ensures rows.Keys == old(rows).Keys && forall m :: m in rows && m !in pending ==> rows[m] == old(rows)[m]
      ensures ok ==> phase == Reconciling(now, Elements(remaining), found)
      ensures ok ==> Swept(old(rows), rows, pending, remaining, found)
      ensures ok <==> forall m :: m in pending && InFound(old(rows)[m], found) ==> sweep(m).Works?
    {
      hide Valid, Swept, NoRepeats;
      SweptStart(rows, found);
      ghost var listed := Elements(pending);
      remaining := [];
      for k := 0 to |pending|
        invariant Valid() && old(trace) <= trace
        invariant Swept(old(rows), rows, pending[..k], remaining, found)
        invariant phase == Reconciling(now, listed, found)
        invariant listed == Elements(remaining) + Elements(pending[k..])
        invariant forall m :: m in pending[..k] && InFound(old(rows)[m], found) ==> sweep(m).Works?
      {
        SweptFrame(old(rows), rows, pending[..k], remaining, found);
        StepThrough(pending, k, remaining);
        ghost var was := rows;
        if InFound(rows[pending[k]], found) {
          ok := ReconcileOne(pending[k], now, sweep(pending[k]));
          if !ok {
            return;
          }
          SweptMarked(old(rows), was, pending, k, remaining, found, now);
          listed := listed - {pending[k]};
        } else {
          SweptKept(old(rows), was, pending, k, remaining, found);
          remaining := remaining + [pending[k]];
        }
      }
      assert pending[..|pending|] == pending;
      SweptFrame(old(rows), rows, pending, remaining, found);
      ok := true;
    }

    ghost method StartReconciling(pending: seq<int>, now: int, since: int, found: set<ActionId>)
      requires Valid() && phase == Started(now) && Elements(pending) <= PendingRows(rows)
      requires var claimed := Claimed(rows, Elements(pending));
               && (Carried(rows, Elements(pending)) != {} ==> ScanBound(rows, claimed, now, since))
               && found == set a | a in Carried(rows, Elements(pending)) && a in committed && committed[a] >= since
      modifies this`phase, this`trace
      ensures Valid() && old(trace) <= trace
      ensures phase == Reconciling(now, Elements(pending), found) && forall a :: a in found ==> a in committed
    {
      ghost var was := Current();
      phase := Reconciling(now, Elements(pending), found);
      CarriedOrNone(rows, Elements(pending));
      ScannedAll(rows, Elements(pending), committed, since, found);
      Record(was, List(Elements(pending), since, found));
    }

    /**
      Marks the listed messages whose action is already committed. What remains for the model takes
      part in no published action.
     */
    method ReconcileCommittedActionClaims(pending: seq<int>, now: int, w: World) returns (ok: bool, remaining: seq<int>)
      requires Valid() && phase == Started(now) && NoRepeats(pending) && Elements(pending) <= PendingRows(rows)
      modifies this`rows, this`phase, this`trace
      ensures Valid() && old(trace) <= trace
      ensures rows.Keys == old(rows).Keys && forall m :: m in rows && m !in pending ==> rows[m] == old(rows)[m]
      ensures ok ==> phase.Reconciling? && phase.now == now && phase.listed == Elements(remaining)
      ensures ok ==> forall m :: m in remaining ==> m in rows && !InFound(rows[m], phase.found)
      ensures ok ==> Reconciled(old(rows), rows, committed, pending, remaining)
      ensures w.scan && w.sweepRecord && (forall m :: m in pending ==> w.sweep(m).Works?) ==> ok
      ensures ok ==> w.scan || forall m :: m in pending ==> m in old(rows) && old(rows)[m].action.None?
      ensures (forall m :: m in pending ==> m in old(rows) && old(rows)[m].action.None?) ==> ok
      ensures ok ==> w.sweepRecord || |remaining| == |pending|
      ensures ok ==> forall m :: m in pending && m !in remaining ==> w.sweep(m).Works?
    {
      hide Valid, Unpublished, Reconciled, PendingRows, NoRepeats, ScanBound;
      PendingAreRows(rows, pending);
      var wanted, since := ScanStart(pending, now);
      if wanted != {} && !w.scan {
        return false, pending;
      }
      NoneCarried(rows, pending);
      var found := set a | a in wanted && a in committed && committed[a] >= since;
      StartReconciling(pending, now, since, found);
      ok, remaining := MarkCommitted(pending, now, found, w.sweep);
      if ok {
        Invariant();
        RemainingUnpublished(Current(), remaining);
        SweptIsReconciled(old(rows), rows, committed, pending, remaining, found);
        NothingSwept(old(rows), rows, committed, pending, remaining);
        ok := |remaining| == |pending| || w.sweepRecord;
      }
    }

    /** The messages that are due now; the others wait for their retry delay. */
    method TakeDue(remaining: seq<int>, now: int, due: int -> bool) returns (ready: seq<int>)
      requires Valid() && phase.Reconciling? && phase.now == now && phase.listed == Elements(remaining)
      requires NoRepeats(remaining) && forall m :: m in remaining ==> m in rows && !InFound(rows[m], phase.found)
      modifies this`phase, this`trace
      ensures Valid() && old(trace) <= trace
      ensures NoRepeats(ready) && Elements(ready) <= Elements(remaining)
      ensures forall m :: m in ready <==> m in remaining && due(m)
      ensures phase == Deciding(now, Elements(ready), map[])
      ensures forall m :: m in ready ==> Unpublished(committed, m)
    {
      Invariant();
      ready := [];
      for k := 0 to |remaining|
        invariant NoRepeats(ready) && Elements(ready) <= Elements(remaining[..k])
        invariant forall m :: m in ready <==> m in remaining[..k] && due(m)
        modifies {}
      {
        StepThrough(remaining, k, ready);
        if due(remaining[k]) {
          ready := ready + [remaining[k]];
        }
      }
      assert remaining[..|remaining|] == remaining;
      assert forall m :: m in Elements(ready) ==> m in Elements(remaining) && m in remaining;
      ghost var was := Current();
      phase := Deciding(now, Elements(ready), map[]);
      Record(was, Take(Elements(ready)));
      TakeKeepsInv(was, Current(), Elements(ready));
      assert forall m :: m in ready ==> m in Elements(ready);
    }

    // ---- the whole pass ---------------------------------------------------------------------------------

    method ExpireOne(m: int, action: Option<ActionId>, now: int, ending: Ending) returns (ok: bool)
      requires Valid() && phase == Started(now) && m in PendingRows(rows)
      modifies this`rows, this`trace
      ensures Valid() && old(trace) <= trace
      ensures ok <==> ending.Works?
      ensures rows == if ending.Happened() then Marked(old(rows), m, Ignored, action, now) else old(rows)
    {
      ghost var was := Current();
      ok := ending.Works?;
      if ending.Happened() {
        rows := Marked(rows, m, Ignored, action, now);
        Record(was, Expire(m, action));
      }
    }

    /** The one statement of a store with bulk expiry; action identifiers stay. */
    method ExpireAll(before: int, now: int)
      requires Valid() && phase == Started(now)
      modifies this`rows, this`trace
      ensures Valid() && old(trace) <= trace && rows == ExpiredRows(old(rows), old(rows).Keys, before, true, now)
    {
      hide Valid, ExpiredRows;
      var todo := PendingRows(rows);
      NothingExpired(rows, rows.Keys - todo, before, true, now);
      while todo != {}
        invariant Valid() && old(trace) <= trace && phase == Started(now)
        invariant todo <= PendingRows(old(rows)) && rows.Keys == old(rows).Keys
        invariant rows == ExpiredRows(old(rows), old(rows).Keys - todo, before, true, now)
        decreases todo
      {
        assert !(forall m :: m !in todo) || todo == {};
        var m :| m in todo;
        ExpiredOneMore(old(rows), old(rows).Keys - todo, m, before, true, now);
        assert old(rows).Keys - (todo - {m}) == old(rows).Keys - todo + {m};
        if IsStale(rows[m], before) {
          var _ := ExpireOne(m, rows[m].action, now, Works);
        }
        todo := todo - {m};
      }
      assert old(rows).Keys - {} == old(rows).Keys;
    }

    /**
      Gives up on pending messages older than `before`. A store with bulk expiry handles all of them at once and
      keeps their action identifiers; otherwise one page is handled and the identifiers are cleared.
     */
    method ExpireStale(before: int, now: int, bulk: bool, w: World)
      returns (ok: bool, complete: bool, ghost page: seq<int>)
      requires Valid() && phase == Started(now)
      modifies this`rows, this`trace
      ensures Valid() && old(trace) <= trace && rows.Keys == old(rows).Keys
      ensures OnlyExpired(old(rows), rows, before, bulk, now)
      ensures bulk ==> (ok <==> w.expireAll.Works?) && (ok ==> complete)
      ensures bulk ==> rows == if w.expireAll.Happened() then ExpiredRows(old(rows), old(rows).Keys, before, true, now)
                               else old(rows)
      ensures !bulk ==> NoRepeats(page) && Elements(page) <= PendingRows(old(rows)) && |page| <= PORTABLE_LIMIT
      ensures !bulk ==> (ok <==> forall m :: m in page && m in old(rows) && IsStale(old(rows)[m], before) ==>
        w.expiry(m).Works?)
      ensures !bulk && ok ==> rows == ExpiredRows(old(rows), Elements(page), before, false, now)
      ensures !bulk && ok ==> (complete <==> |page| < PORTABLE_LIMIT)
      ensures ok && complete ==> rows == ExpiredRows(old(rows), old(rows).Keys, before, bulk, now)
    {
      hide Valid, ExpiredRows, OnlyExpired, IsStale;
      ExpiredOnly(rows, {}, before, bulk, now);
      NothingExpired(rows, {}, before, bulk, now);
      if bulk {
        ExpiredOnly(rows, rows.Keys, before, true, now);
        if w.expireAll.Happened() {
          ExpireAll(before, now);
        }
        return w.expireAll.Works?, w.expireAll.Works?, [];
      }
      var listed := ListPending(PORTABLE_LIMIT);
      page := listed;
      PendingAreRows(rows, listed);
      assert Elements(listed[..0]) == {};
      for k := 0 to |listed|
        invariant Valid() && old(trace) <= trace && phase == Started(now)
        invariant rows == ExpiredRows(old(rows), Elements(listed[..k]), before, false, now)
        invariant forall m :: m in listed[..k] && m in old(rows) && IsStale(old(rows)[m], before) ==> w.expiry(m).Works?
      {
        NextTodo(listed, k);
        assert listed[..k + 1] == listed[..k] + [listed[k]];
        ExpiredOneMore(old(rows), Elements(listed[..k]), listed[k], before, false, now);
        ExpiredOnly(old(rows), Elements(listed[..k]), before, false, now);
        ExpiredOnly(old(rows), Elements(listed[..k + 1]), before, false, now);
        if IsStale(rows[listed[k]], before) {
          ok := ExpireOne(listed[k], None, now, w.expiry(listed[k]));
          if !ok {
            return ok, false, page;
          }
        }
      }
      assert listed[..|listed|] == listed;
      ExpiredOnly(old(rows), Elements(listed), before, false, now);
      ok, complete := true, |listed| < PORTABLE_LIMIT;
      if complete {
        ExpiredPending(old(rows), Elements(listed), before, false, now);
      }
    }

    /** An invalid decision publishes nothing and leaves every message of the batch uncertain. */
    method DecideAll(messages: seq<int>, now: int, valid: bool, decision: Decision, w: World)
      returns (outcomes: map<int, Outcome>)
      requires Valid() && phase == Deciding(now, Elements(messages), map[]) && NoRepeats(messages)
      requires valid ==> ValidSources(messages, decision)
      modifies this`rows, this`committed, this`phase, this`trace
      ensures Valid() && old(trace) <= trace && phase == Deciding(now, Elements(messages), outcomes)
      ensures OnlyTouches(old(rows), rows, Elements(messages))
      ensures valid ==> Settles(AllEntries(messages, decision, w), outcomes, now, w)
      ensures valid ==> committed == Extended(old(committed), Published(AllEntries(messages, decision, w), now, w), now)
      ensures !valid ==> committed == old(committed) && rows == old(rows)
      ensures !valid ==> outcomes == map m | m in Elements(messages) :: Outcome(Uncertain, None)
    {
      hide Valid, Settles, Published, Extended;
      if valid {
        outcomes := EvaluateBatchDecisions(now, messages, decision, w);
        ghost var entries := decision.reports + decision.votes;
        ghost var forgotten := Forgotten(messages, Elements(Claims(decision)), w);
        PublishedConcat(entries, forgotten, now, w);
        ExtendedTwice(old(committed), Published(entries, now, w), Published(forgotten, now, w), now);
        ghost var was := rows;
        outcomes := AddFallbackOmittedSignalOutcomes(now, messages, outcomes, w, entries);
        TouchesChain(old(rows), was, rows, Elements(messages));
      } else {
        outcomes := MarkSources(map[], messages, Uncertain);
        assert outcomes.Keys == Elements(messages);
      }
    }

    method FinalizeModelFailure(messages: seq<int>, atomic: bool, w: World)
      returns (ok: bool, ghost final: map<int, Outcome>)
      requires Valid() && phase.Deciding? && phase.outcomes == map[] && phase.ready == Elements(messages)
      requires NoRepeats(messages) && phase.ready <= rows.Keys
      modifies this`rows, this`clock, this`phase, this`trace
      ensures Valid() && old(trace) <= trace && phase.Idle? && rows.Keys == old(rows).Keys
      ensures final.Keys == Elements(messages) && final.Keys <= rows.Keys
      ensures forall m :: m in final ==> final[m] == Outcome(Pending, old(rows)[m].action)
      ensures ok <==> Finishes(atomic, messages, w)
      ensures AfterFinish(old(rows), rows, final, ok)
    {
      Pause();
      var finishedAt := clock;
      var outcomes := Unchanged(rows, Elements(messages));
      ghost var was := Current();
      phase := Finalizing(outcomes, finishedAt);
      Record(was, ModelFailure(finishedAt));
      final := outcomes;
      ok := FinalizeBatch(atomic, outcomes, finishedAt, messages, w);
    }

    method FinalizeDecided(messages: seq<int>, outcomes: map<int, Outcome>, atomic: bool, w: World)
      returns (ok: bool, ghost final: map<int, Outcome>)
      requires Valid() && phase.Deciding? && phase.outcomes == outcomes && phase.ready == Elements(messages)
      requires NoRepeats(messages) && phase.ready <= rows.Keys
      modifies this`rows, this`clock, this`phase, this`trace
      ensures Valid() && old(trace) <= trace && phase.Idle? && rows.Keys == old(rows).Keys
      ensures final.Keys == Elements(messages) && final.Keys <= rows.Keys
      ensures forall m :: m in final ==> final[m] == if m in outcomes then outcomes[m] else Outcome(Ignored, None)
      ensures ok <==> Finishes(atomic, messages, w)
      ensures AfterFinish(old(rows), rows, final, ok)
    {
      Pause();
      var finishedAt := clock;
      var written := FinalOutcomes(Elements(messages), outcomes);
      ghost var was := Current();
      phase := Finalizing(written, finishedAt);
      Record(was, Conclude(finishedAt));
      final := written;
      ok := FinalizeBatch(atomic, written, finishedAt, messages, w);
    }

    /**
      One batch. The first answer may be missing, invalid, or merged with a second one; only a
      valid decision is evaluated. A finished batch leaves every message in the row state its outcome
      says, and an applied outcome names an action that was published with that message. With `twins` two rows
      of the batch carry the same message identifier, from two chats; then no answer is valid.
     */
    method ProcessBatch(messages: seq<int>, now: int, initial: Option<Decision>, reasoned: Option<Decision>,
                        recheckIds: seq<int>, note: string -> string, atomic: bool, twins: bool, w: World)
      returns (ok: bool, ghost final: map<int, Outcome>, ghost decision: Decision)
      requires Valid() && phase == Deciding(now, Elements(messages), map[]) && NoRepeats(messages)
      modifies this
      ensures Valid() && old(trace) <= trace && phase.Idle? && rows.Keys == old(rows).Keys
      ensures ok <==> Finishes(atomic, messages, w)
      ensures BatchEnds(messages, now, initial, reasoned, recheckIds, note, twins, decision, w,
                        old(rows), final, old(committed), committed)
      ensures ok ==> forall m :: m in final ==> rows[m].status == final[m].status && rows[m].action == final[m].action
      ensures forall m :: m in rows && m !in final ==> rows[m] == old(rows)[m]
      ensures initial.Some? ==> Honest(final, committed)
    {
      hide Valid, Settles, EndsBy, EntryOutcome, AllEntries, Published, Extended, Honest;
      Invariant();
      ReadyAreRows(Current());
      decision := Decision([], [], []);
      if initial.None? {
        ok, final := FinalizeModelFailure(messages, atomic, w);
        return;
      }
      var valid, chosen := false, initial.value;
      if !twins {
        valid, chosen := ChooseDecision(messages, initial.value, reasoned, recheckIds, note);
      }
      decision := chosen;
      var outcomes := DecideAll(messages, now, valid, chosen, w);
      Invariant();
      assert outcomes.Keys <= Elements(messages);
      ok, final := FinalizeDecided(messages, outcomes, atomic, w);
      if valid {
        SettledEnds(messages, chosen, outcomes, now, w, final);
        EndsHonestly(messages, chosen, now, w, final, old(committed));
      } else {
        UncertainHonestly(final, committed);
      }
    }

    method BeginPass() returns (now: int)
      requires Valid() && phase.Idle?
      modifies this`phase, this`trace
      ensures Valid() && old(trace) <= trace && phase == Started(now) && now == clock
    {
      ghost var was := Current();
      now := clock;
      phase := Started(now);
      Record(was, Begin);
    }

    /**
      The pass after expiry. Reconciling a message counts as progress, and so does a finished batch. Without an error
      every listed message is applied, decided, or waits for its retry or for the model's circuit to close.
     */
    method ReconcileAndDecide(now: int, limit: int, initial: Option<Decision>, reasoned: Option<Decision>,
                              recheckIds: seq<int>, note: string -> string, atomic: bool, twins: bool, w: World)
      returns (ok: bool, processed: bool, ghost page: seq<int>, ghost batch: Batch)
      requires Valid() && phase == Started(now)
      modifies this
      ensures Valid() && old(trace) <= trace && phase.Idle?
      ensures rows.Keys == old(rows).Keys && old(committed).Keys <= committed.Keys
      ensures Smooth(w) ==> ok
      ensures IsPage(page, PendingRows(old(rows)), limit)
      ensures ok ==> AllHandled(old(rows), rows, page, old(committed), batch.final, w)
      ensures ok ==> BatchDone(batch, now, initial, reasoned, recheckIds, note, twins, w, old(rows), old(committed), committed)
      ensures ok ==> batch.final.Keys <= Elements(page)
      ensures ok && !processed ==> committed == old(committed) && rows == old(rows)
      ensures ok && processed ==> batch.items != [] || exists m :: m in page && m in rows && rows[m].status == Applied
    {
      hide Valid, Smooth, Reconciled, AllHandled, BatchDone, BatchEnds, Finishes;
      var pending := ListPending(limit);
      page, batch := pending, NoBatch();
      NothingDone(batch, now, initial, reasoned, recheckIds, note, twins, w, rows, committed);
      PendingAreRows(rows, page);
      SmoothPass(w, page, atomic);
      var remaining;
      ok, remaining := ReconcileCommittedActionClaims(pending, now, w);
      processed := ok && |remaining| < |pending|;
      if !ok {
        Crash();
        return;
      }
      ghost var swept := rows;
      SweepProgress(old(rows), rows, committed, page, remaining);
      if w.circuitOpen {
        WaitingHandled(old(rows), rows, committed, page, remaining, w);
        Crash();
        return;
      }
      var ready := TakeDue(remaining, now, w.due);
      if ready == [] {
        assert forall m :: m in remaining ==> !w.due(m) by {
          assert forall m :: m !in ready;
        }
        WaitingHandled(old(rows), rows, committed, page, remaining, w);
        Crash();
        return;
      }
      if !w.opening {
        Crash();
        return false, false, page, batch;
      }
      SmoothPass(w, ready, atomic);
      ghost var final, decision;
      ok, final, decision := ProcessBatch(ready, now, initial, reasoned, recheckIds, note, atomic, twins, w);
      processed := ok;
      batch := Batch(ready, final, decision);
      BatchIsDone(batch, now, initial, reasoned, recheckIds, note, twins, w, old(rows), swept, old(committed), committed,
                  page, remaining);
      if ok {
        BatchHandled(old(rows), swept, rows, old(committed), page, remaining, batch, w);
      }
    }

    /** Expiry, where an age limit is set; `complete` tells whether the pass may go on. */
    method ExpireFirst(maxAge: int, now: int, bulk: bool, w: World) returns (ok: bool, complete: bool)
      requires Valid() && phase == Started(now)
      modifies this`rows, this`trace
      ensures Valid() && old(trace) <= trace && rows.Keys == old(rows).Keys
      ensures Smooth(w) ==> ok
      ensures OnlyIgnored(old(rows), rows)
      ensures ok && (maxAge <= 0 || bulk || |PendingRows(old(rows))| < PORTABLE_LIMIT) ==> complete
      ensures ok && complete ==>
        rows == if maxAge > 0 then ExpiredRows(old(rows), old(rows).Keys, now - maxAge, bulk, now) else old(rows)
    {
      hide Valid, Smooth;
      if maxAge <= 0 {
        return true, true;
      }
      SmoothExpiry(w);
      ghost var looked;
      ok, complete, looked := ExpireStale(now - maxAge, now, bulk, w);
      ExpiredIgnored(old(rows), rows, now - maxAge, bulk, now);
      if !bulk {
        PageComplete(looked, PendingRows(old(rows)));
      }
    }

    /**
      One pass: expire, list, reconcile, then decide the messages that are due. It stops early on any
      failure. Whatever happened, no two published actions share a message and a pending message of a
      published action still names it. A pass without an error that reports no progress published nothing and
      only ignored messages that were too old. Where expiry sees every message, a pass without an error gives up
      what is too old and handles every message of a full page of the rest; if nothing but claims and submits
      fails, it has no error.
     */
    method ProcessPendingBatch(maxAge: int, limit: int, initial: Option<Decision>, reasoned: Option<Decision>,
                               recheckIds: seq<int>, note: string -> string, atomic: bool, bulk: bool, twins: bool,
                               w: World)
      returns (ok: bool, processed: bool, ghost page: seq<int>, ghost batch: Batch)
      requires Valid() && phase.Idle?
      modifies this
      ensures Valid() && old(trace) <= trace && phase.Idle? && rows.Keys == old(rows).Keys
      ensures old(committed).Keys <= committed.Keys && Exclusive(committed) && StillCarried(rows, committed)
      ensures Smooth(w) ==> ok
      ensures ok && !processed ==> committed == old(committed) && OnlyIgnored(old(rows), rows)
      ensures ok && (maxAge <= 0 || bulk || |PendingRows(old(rows))| < PORTABLE_LIMIT) ==>
        && IsPage(page, StillPending(old(rows), maxAge, old(clock)), limit)
        && PassDone(old(rows), rows, page, old(committed), batch.final, w, maxAge, bulk, old(clock))
        && BatchDone(batch, old(clock), initial, reasoned, recheckIds, note, twins, w, old(rows), old(committed), committed)
    {
      hide Valid, Smooth, AllHandled, BatchDone, PassDone, ExpiredRows, OnlyIgnored, IsPage, Exclusive, StillCarried;
      processed, page, batch := false, [], NoBatch();
      var now := BeginPass();
      var complete;
      ok, complete := ExpireFirst(maxAge, now, bulk, w);
      if !ok || !complete {
        Crash();
        InvariantHolds();
        return;
      }
      ghost var left := rows;
      ok, processed, page, batch :=
        ReconcileAndDecide(now, limit, initial, reasoned, recheckIds, note, atomic, twins, w);
      if ok {
        ExpiredAndHandled(old(rows), left, rows, page, old(committed), batch.final, w, maxAge, bulk, now, limit);
        DoneFromBefore(batch, now, initial, reasoned, recheckIds, note, twins, w, old(rows), left, old(committed),
                       committed, page, limit, maxAge, bulk);
      }
      InvariantHolds();
    }
  }
}
