/**
  What one processing pass of the chat analyzer meets that is not its own doing, and what must become of every
  message of a batch then: told from the decision, without the loops that evaluate it.
 */
module ChatWorld {
  import opened ChatDecisions
  import opened ChatProtocol
  import opened Series
  import opened Wrappers

  /** A status that needs no published action and no later try. */
  type Settled = s: Status | s != Pending && s != Applied witness Ignored

  /** What the checks on one entry decide: publish it, or settle its messages without publishing. */
  datatype Verdict = Publish | Settle(status: Settled)

  /**
    The endings of all calls of a pass. Store writes go by message, submits by action; `late` tells whether a
    submit that reports an error has committed. `fallback` is the report made for a message the model left out
    although it looks like a signal, if any.
   */
  datatype World = World(
    expiry: int -> Ending, expireAll: Ending, scan: bool, sweep: int -> Ending, sweepRecord: bool, circuitOpen: bool,
    due: int -> bool, opening: bool, verdict: Entry -> Verdict, claim: int -> Ending, reply: ActionId -> Reply,
    late: ActionId -> bool, fallback: int -> Option<string>, finish: int -> Ending, finishAll: Ending,
    finishRecord: bool)

  // ---- rows ------------------------------------------------------------------------------------------

  /** The rows with the identifier of `a` persisted on the messages `ids`. */
  function ClaimedRows(rows: map<int, Row>, ids: set<int>, a: ActionId, now: int): map<int, Row> {
    map m | m in rows ::
      if m in ids then rows[m].(status := Pending, action := Some(a), processedAt := now) else rows[m]
  }

  lemma ClaimedOneMore(rows: map<int, Row>, ids: set<int>, m: int, a: ActionId, now: int)
    ensures m in rows ==>
              ClaimedRows(rows, ids + {m}, a, now) == Marked(ClaimedRows(rows, ids, a, now), m, Pending, Some(a), now)
    ensures ClaimedRows(rows, ids, a, now).Keys == rows.Keys && ClaimedRows(rows, {}, a, now) == rows
  {
  }

  /** The rows outside `ids` are as before. */
  predicate OnlyTouches(before: map<int, Row>, rows: map<int, Row>, ids: set<int>) {
    rows.Keys == before.Keys && forall m :: m in rows && m !in ids ==> rows[m] == before[m]
  }

  lemma ClaimsTouchSources(rows: map<int, Row>, sources: seq<int>, endings: int -> Ending, a: ActionId, now: int,
                           ids: set<int>)
    requires Elements(sources) <= ids
    ensures OnlyTouches(rows, ClaimedRows(rows, WrittenBy(sources, endings), a, now), ids)
  {
    forall m | m in WrittenBy(sources, endings)
      ensures m in ids
    {
      assert m in Elements(sources);
    }
  }

  lemma TouchesChain(a: map<int, Row>, b: map<int, Row>, c: map<int, Row>, ids: set<int>)
    requires OnlyTouches(a, b, ids) && OnlyTouches(b, c, ids)
    ensures OnlyTouches(a, c, ids)
  {
  }

  // ---- one entry ------------------------------------------------------------------------------------

  predicate ClaimsWork(sources: seq<int>, w: World) {
    forall m :: m in sources ==> w.claim(m).Works?
  }

  function Planned(e: Entry, now: int): ActionId {
    ActionId(now, e.content, Elements(e.sources))
  }

  /** The submit is reached and commits. */
  predicate Commits(e: Entry, now: int, w: World) {
    var a := Planned(e, now);
    w.verdict(e).Publish? && ClaimsWork(e.sources, w) && (w.reply(a).Accepted? || (w.reply(a).Error? && w.late(a)))
  }

  /** What the messages of an entry are told: applied, refused, or still open under the claimed action. */
  predicate Answers(outcome: Outcome, a: ActionId, claimed: bool, reply: Reply) {
    && (outcome == Outcome(Applied, Some(a)) <==> claimed && reply.Accepted?)
    && (outcome == Outcome(Uncertain, None) <==> claimed && reply.Rejected?)
    && (outcome == Outcome(Pending, Some(a)) <==> !claimed || reply.Error?)
  }

  function EntryOutcome(e: Entry, now: int, w: World): (outcome: Outcome)
    ensures w.verdict(e).Settle? ==> outcome == Outcome(w.verdict(e).status, None)
    ensures w.verdict(e).Publish? ==>
      Answers(outcome, Planned(e, now), ClaimsWork(e.sources, w), w.reply(Planned(e, now)))
  {
    var a := Planned(e, now);
    match w.verdict(e)
    case Settle(status) => Outcome(status, None)
    case Publish => if ClaimsWork(e.sources, w) then ReplyOutcome(w.reply(a), a) else Failure(a)
  }

  // ---- a list of entries ------------------------------------------------------------------------------

  /** The actions published for the entries. */
  function Published(entries: seq<Entry>, now: int, w: World): set<ActionId> {
    set e | e in entries && Commits(e, now, w) :: Planned(e, now)
  }

  function Extended(committed: map<ActionId, int>, actions: set<ActionId>, now: int): map<ActionId, int> {
    committed + map a | a in actions :: now
  }

  lemma PublishedConcat(a: seq<Entry>, b: seq<Entry>, now: int, w: World)
    ensures Published(a + b, now, w) == Published(a, now, w) + Published(b, now, w)
  {
    hide Commits, Planned;
    assert forall e :: e in a + b <==> e in a || e in b;
  }

  lemma ExtendedTwice(committed: map<ActionId, int>, a: set<ActionId>, b: set<ActionId>, now: int)
    ensures Extended(Extended(committed, a, now), b, now) == Extended(committed, a + b, now)
  {
  }

  lemma PublishedOne(e: Entry, now: int, w: World)
    ensures Published([e], now, w) == if Commits(e, now, w) then {Planned(e, now)} else {}
  {
    assert forall x :: x in [e] <==> x == e;
  }

  /** The messages of the entries have their entry's outcome; what else is decided is ignored. */
  predicate Settles(entries: seq<Entry>, outcomes: map<int, Outcome>, now: int, w: World) {
    && (forall e, m :: e in entries && m in e.sources ==> m in outcomes && outcomes[m] == EntryOutcome(e, now, w))
    && forall m :: m in outcomes && m !in Flat(entries) ==> outcomes[m] == Outcome(Ignored, None)
  }

  lemma NothingSettled(now: int, w: World)
    ensures Settles([], map[], now, w)
  {
  }

  lemma SettlesOneMore(entries: seq<Entry>, outcomes: map<int, Outcome>, e: Entry, now: int, w: World)
    requires Settles(entries, outcomes, now, w) && forall m :: m in e.sources ==> m !in outcomes
    ensures Settles(entries + [e], Decided(outcomes, Elements(e.sources), EntryOutcome(e, now, w)), now, w)
  {
    hide EntryOutcome, Flat;
    var after := Decided(outcomes, Elements(e.sources), EntryOutcome(e, now, w));
    FlatAppend(entries, e);
    forall f, m | f in entries + [e] && m in f.sources
      ensures m in after && after[m] == EntryOutcome(f, now, w)
    {
      if f in entries {
        assert m in outcomes;
      } else {
        assert f == e;
      }
    }
  }

  lemma {:induction false} FlatMember(entries: seq<Entry>, m: int) returns (e: Entry)
    requires m in Flat(entries)
    ensures e in entries && m in e.sources
  {
    var n := |entries| - 1;
    if m in entries[n].sources {
      e := entries[n];
    } else {
      e := FlatMember(entries[..n], m);
    }
  }

  /** Ignoring a message nothing decided yet. */
  lemma SettlesIgnored(entries: seq<Entry>, outcomes: map<int, Outcome>, id: int, now: int, w: World)
    requires Settles(entries, outcomes, now, w)
    ensures id !in outcomes ==> Settles(entries, outcomes[id := Outcome(Ignored, None)], now, w)
  {
    hide EntryOutcome, Flat;
    if id !in outcomes {
      forall e, m | e in entries && m in e.sources
        ensures m != id
      {
        assert m in outcomes;
      }
    }
  }

  // ---- a whole batch ----------------------------------------------------------------------------------

  /** The reports made for messages that nothing decided. */
  function Forgotten(items: seq<int>, decided: set<int>, w: World): (r: seq<Entry>)
    ensures forall e :: e in r ==> |e.sources| == 1 && e.sources[0] in items && e.sources[0] !in decided
  {
    if items == [] then []
    else
      var front, m := Forgotten(items[..|items| - 1], decided, w), items[|items| - 1];
      if m !in decided && w.fallback(m).Some? then front + [Entry(w.fallback(m).value, "", [m])] else front
  }

  /** All entries of a batch: those of the decision, and one for each message it forgot that gets a report. */
  function AllEntries(items: seq<int>, d: Decision, w: World): seq<Entry> {
    d.reports + d.votes + Forgotten(items, Elements(Claims(d)), w)
  }

  /** The decision of a batch, when it is valid, tells how every message ends. */
  predicate EndsBy(items: seq<int>, d: Decision, now: int, w: World, final: map<int, Outcome>) {
    && final.Keys == Elements(items)
    && (forall e, m :: e in AllEntries(items, d, w) && m in e.sources ==>
          m in final && final[m] == EntryOutcome(e, now, w))
    && forall m :: m in items && (forall e :: e in AllEntries(items, d, w) ==> m !in e.sources) ==>
         final[m] == Outcome(Ignored, None)
  }

  /** The decision a pass goes by: a valid first answer, merged with the second one if there is one. */
  ghost predicate GoesBy(items: seq<int>, initial: Decision, reasoned: Option<Decision>, recheckIds: seq<int>,
                         note: string -> string, d: Decision)
  {
    if ValidSources(items, initial) && reasoned.Some? && |recheckIds| > 0
    then IsMerge(d, initial, reasoned.value, Elements(recheckIds), note) else d == initial
  }

  /** The end of a batch: the outcomes written for its messages, and what it published. */
  ghost predicate BatchEnds(items: seq<int>, now: int, initial: Option<Decision>, reasoned: Option<Decision>,
                            recheckIds: seq<int>, note: string -> string, twins: bool, d: Decision, w: World,
                            rows: map<int, Row>, final: map<int, Outcome>,
                            before: map<ActionId, int>, after: map<ActionId, int>)
  {
    && final.Keys == Elements(items) && final.Keys <= rows.Keys
    && if initial.None? then after == before && forall m :: m in final ==> final[m] == Outcome(Pending, rows[m].action)
       else
         && (!twins ==> GoesBy(items, initial.value, reasoned, recheckIds, note, d))
         && if twins || !ValidSources(items, d)
            then after == before && forall m :: m in final ==> final[m] == Outcome(Uncertain, None)
            else EndsBy(items, d, now, w, final) && after == Extended(before, Published(AllEntries(items, d, w), now, w), now)
  }

  /** Writing the outcomes gets through. */
  predicate Finishes(atomic: bool, ids: seq<int>, w: World) {
    if atomic then w.finishAll.Works? else (forall m :: m in ids ==> w.finish(m).Works?) && w.finishRecord
  }

  /** Nothing but claims and submits fails. */
  ghost predicate Smooth(w: World) {
    && (forall m :: w.expiry(m).Works? && w.sweep(m).Works? && w.finish(m).Works?)
    && w.expireAll.Works? && w.scan && w.sweepRecord && w.opening && w.finishAll.Works? && w.finishRecord
  }

  /**
    What a pass makes of a listed message: applied if its action was committed before; decided by the batch if it is
    due and takes part in no committed action; otherwise it waits as it was.
   */
  predicate Handled(m: int, before: Row, row: Row, published: map<ActionId, int>, final: map<int, Outcome>, w: World) {
    if m in final then
      && Unpublished(published, m) && w.due(m) && !w.circuitOpen
      && row.status == final[m].status && row.action == final[m].action
    else
      || (row.status == Applied && row.action.Some? && row.action.value in published)
      || (row == before && Unpublished(published, m) && (w.circuitOpen || !w.due(m)))
  }

  /** An applied outcome names a published action of its message, a pending one the claimed action, others none. */
  predicate Honest(outcomes: map<int, Outcome>, committed: map<ActionId, int>) {
    forall m :: m in outcomes ==>
      match outcomes[m].status
      case Applied =>
        outcomes[m].action.Some? && outcomes[m].action.value in committed && m in outcomes[m].action.value.sources
      case Pending => outcomes[m].action.Some? && m in outcomes[m].action.value.sources
      case _ => outcomes[m].action.None?
  }

  /** What the rules above make of a batch is honest. */
  lemma EndsHonestly(items: seq<int>, d: Decision, now: int, w: World, final: map<int, Outcome>,
                     committed: map<ActionId, int>)
    requires EndsBy(items, d, now, w, final)
    ensures Honest(final, Extended(committed, Published(AllEntries(items, d, w), now, w), now))
  {
    hide AllEntries;
    var entries := AllEntries(items, d, w);
    forall m | m in final
      ensures Honest(map[m := final[m]], Extended(committed, Published(entries, now, w), now))
    {
      assert m in items;
      if e :| e in entries && m in e.sources {
        assert final[m] == EntryOutcome(e, now, w);
        assert final[m].status == Applied ==> Commits(e, now, w);
      }
    }
  }
}
