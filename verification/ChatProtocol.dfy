/**
  The claim / submit / finalize / reconcile protocol of the chat analyzer as a state machine. A message
  is named by one integer. The process is sequential, may stop after any store write, and talks to a
  report service whose submit may commit and still report an error.
 */
module ChatProtocol {
  import opened Wrappers

  /** The zero instant, and the start of Unix time; every reading of the local clock is later. */
  const NEVER := 0
  const EPOCH := 1

  datatype Status = Pending | Applied | Ignored | Uncertain | DryRun

  /** Action identifiers are hashes of the batch, the decision and the sorted sources; taken as injective. */
  datatype ActionId = ActionId(batch: int, content: string, sources: set<int>)

  datatype Row = Row(status: Status, action: Option<ActionId>, messageDate: int, receivedAt: int, processedAt: int)

  datatype Outcome = Outcome(status: Status, action: Option<ActionId>)

  /** Where the process is. Everything in a phase is lost when it stops. */
  datatype Phase =
    | Idle
    | Started(now: int)
    | Reconciling(now: int, listed: set<int>, found: set<ActionId>)
    | Deciding(now: int, ready: set<int>, outcomes: map<int, Outcome>)
    | Claiming(now: int, ready: set<int>, outcomes: map<int, Outcome>, action: ActionId, todo: set<int>)
    | Finalizing(final: map<int, Outcome>, finishedAt: int)

  /** `committed` maps each published action to the instant of its event. */
  datatype State = State(rows: map<int, Row>, committed: map<ActionId, int>, clock: int, phase: Phase)

  // ---- the steps ----------------------------------------------------------------------------------

  /** An update of one row: status, action and processing time; the dates of the message stay. */
  function Marked(rows: map<int, Row>, m: int, status: Status, action: Option<ActionId>, at: int): map<int, Row>
    requires m in rows
  {
    rows[m := rows[m].(status := status, action := action, processedAt := at)]
  }

  function PendingRows(rows: map<int, Row>): set<int> {
    set m | m in rows && rows[m].status == Pending
  }

  function Claimed(rows: map<int, Row>, listed: set<int>): set<int> {
    set m | m in listed && m in rows && rows[m].action.Some?
  }

  predicate Stamp(row: Row, t: int) {
    t != NEVER && (t == row.messageDate || t == row.receivedAt || t == row.processedAt)
  }

  /** `t` is the earliest instant the claimed rows know. */
  ghost predicate Earliest(rows: map<int, Row>, claimed: set<int>, t: int) {
    && (exists m :: m in claimed && m in rows && Stamp(rows[m], t))
    && forall m, u :: m in claimed && m in rows && Stamp(rows[m], u) ==> t <= u
  }

  /** The scan for committed events starts at that instant, and from the start of time if it lies in the future. */
  ghost predicate ScanBound(rows: map<int, Row>, claimed: set<int>, now: int, since: int) {
    exists t :: Earliest(rows, claimed, t) && since == if t > now then EPOCH else t
  }

  /** The claimed actions whose events lie at or after `since`. */
  predicate Scanned(rows: map<int, Row>, claimed: set<int>, committed: map<ActionId, int>, since: int,
                    found: set<ActionId>)
  {
    && (forall a :: a in found ==> a in committed)
    && forall m :: m in claimed && m in rows && rows[m].action.Some? && rows[m].action.value in committed ==>
         (rows[m].action.value in found <==> committed[rows[m].action.value] >= since)
  }

  function Failure(a: ActionId): Outcome {
    Outcome(Pending, Some(a))
  }

  function Decided(outcomes: map<int, Outcome>, sources: set<int>, outcome: Outcome): map<int, Outcome> {
    outcomes + map m | m in sources :: outcome
  }

  /** A message no decision mentions ends ignored. */
  function FinalOutcomes(ready: set<int>, outcomes: map<int, Outcome>): map<int, Outcome> {
    map m | m in ready :: if m in outcomes then outcomes[m] else Outcome(Ignored, None)
  }

  /** After a model failure every message stays pending under the action it already carried. */
  function Unchanged(rows: map<int, Row>, ready: set<int>): map<int, Outcome>
    requires ready <= rows.Keys
  {
    map m | m in ready :: Outcome(Pending, rows[m].action)
  }

  datatype Reply = Accepted | Rejected | Error

  function ReplyOutcome(reply: Reply, a: ActionId): Outcome {
    match reply
    case Accepted => Outcome(Applied, Some(a))
    case Rejected => Outcome(Uncertain, None)
    case Error => Failure(a)
  }

  datatype Step =
    | Tick(t: int)
    | Enqueue(id: int, row: Row)
    | Begin
    | Expire(id: int, action: Option<ActionId>)
    | List(listed: set<int>, since: int, found: set<ActionId>)
    | Reconcile(id: int)
    | Take(ready: set<int>)
    | Decide(sources: set<int>, status: Status)
    | Claim(planned: ActionId)
    | ClaimMark(id: int)
    | ClaimFail(id: int, stored: bool)
    | Submit(reply: Reply, commits: bool)
    | Conclude(finishedAt: int)
    | ModelFailure(finishedAt: int)
    | FinalMark(id: int)
    | FinalCommit
    | Stop

  /** The single transaction a store with batch finalization uses. */
  function AllMarked(rows: map<int, Row>, final: map<int, Outcome>, at: int): map<int, Row> {
    map m | m in rows ::
      if m in final then rows[m].(status := final[m].status, action := final[m].action, processedAt := at) else rows[m]
  }

  ghost predicate Next(s: State, s': State, step: Step) {
    match step
    case Tick(t) => t >= s.clock && s' == s.(clock := t)
    case Enqueue(id, row) =>
      && s.phase.Idle? && row.status == Pending && row.action.None? && EPOCH <= row.receivedAt <= s.clock
      && s' == if id in s.rows then s else s.(rows := s.rows[id := row])
    case Begin => s.phase.Idle? && s' == s.(phase := Started(s.clock))
    case Expire(id, action) =>
      && s.phase.Started? && id in PendingRows(s.rows)
      && s' == s.(rows := Marked(s.rows, id, Ignored, action, s.phase.now))
    case List(listed, since, found) =>
      && s.phase.Started? && listed <= PendingRows(s.rows)
      && (if Claimed(s.rows, listed) == {} then found == {}
          else ScanBound(s.rows, Claimed(s.rows, listed), s.phase.now, since) &&
               Scanned(s.rows, Claimed(s.rows, listed), s.committed, since, found))
      && s' == s.(phase := Reconciling(s.phase.now, listed, found))
    case Reconcile(id) =>
      && s.phase.Reconciling? && id in s.phase.listed && id in s.rows
      && s.rows[id].action.Some? && s.rows[id].action.value in s.phase.found
      && s' == s.(rows := Marked(s.rows, id, Applied, s.rows[id].action, s.phase.now),
                  phase := s.phase.(listed := s.phase.listed - {id}))
    case Take(ready) =>
      && s.phase.Reconciling? && ready <= s.phase.listed && ready <= s.rows.Keys
      && (forall m :: m in ready && s.rows[m].action.Some? ==> s.rows[m].action.value !in s.phase.found)
      && s' == s.(phase := Deciding(s.phase.now, ready, map[]))
    case Decide(sources, status) =>
      && s.phase.Deciding? && sources <= s.phase.ready - s.phase.outcomes.Keys && !status.Pending? && !status.Applied?
      && s' == s.(phase := Deciding(s.phase.now, s.phase.ready,
                                    Decided(s.phase.outcomes, sources, Outcome(status, None))))
    case Claim(a) =>
      && s.phase.Deciding? && a.sources != {} && a.sources <= s.phase.ready - s.phase.outcomes.Keys
      && s' == s.(phase := Claiming(s.phase.now, s.phase.ready, s.phase.outcomes, a, a.sources))
    case ClaimMark(id) =>
      && s.phase.Claiming? && id in s.phase.todo && id in s.rows
      && s' == s.(rows := Marked(s.rows, id, Pending, Some(s.phase.action), s.phase.now),
                  phase := s.phase.(todo := s.phase.todo - {id}))
    case ClaimFail(id, stored) =>
      && s.phase.Claiming? && id in s.phase.todo && id in s.rows
      && s' == s.(rows := if stored then Marked(s.rows, id, Pending, Some(s.phase.action), s.phase.now) else s.rows,
                  phase := Deciding(s.phase.now, s.phase.ready,
                                    Decided(s.phase.outcomes, s.phase.action.sources, Failure(s.phase.action))))
    case Submit(reply, commits) =>
      && s.phase.Claiming? && s.phase.todo == {} && (reply.Accepted? ==> commits) && (reply.Rejected? ==> !commits)
      && s' == s.(committed := if commits then s.committed[s.phase.action := s.phase.now] else s.committed,
                  phase := Deciding(s.phase.now, s.phase.ready,
                                    Decided(s.phase.outcomes, s.phase.action.sources,
                                            ReplyOutcome(reply, s.phase.action))))
    case Conclude(finishedAt) =>
      && s.phase.Deciding? && finishedAt <= s.clock
      && s' == s.(phase := Finalizing(FinalOutcomes(s.phase.ready, s.phase.outcomes), finishedAt))
    case ModelFailure(finishedAt) =>
      && s.phase.Deciding? && s.phase.outcomes == map[] && s.phase.ready <= s.rows.Keys && finishedAt <= s.clock
      && s' == s.(phase := Finalizing(Unchanged(s.rows, s.phase.ready), finishedAt))
    case FinalMark(id) =>
      && s.phase.Finalizing? && id in s.phase.final && id in s.rows
      && s' == s.(rows := Marked(s.rows, id, s.phase.final[id].status, s.phase.final[id].action, s.phase.finishedAt),
                  phase := s.phase.(final := s.phase.final - {id}))
    case FinalCommit =>
      && s.phase.Finalizing? && s.phase.final.Keys <= s.rows.Keys
      && s' == s.(rows := AllMarked(s.rows, s.phase.final, s.phase.finishedAt), phase := Idle)
    case Stop => s' == s.(phase := Idle)
  }

  predicate Init(s: State) {
    s.rows == map[] && s.committed == map[] && s.phase.Idle? && s.clock >= EPOCH
  }

  // ---- the invariant ------------------------------------------------------------------------------

  /** A pending source of a published action still carries that action's identifier. */
  predicate StillCarried(rows: map<int, Row>, committed: map<ActionId, int>) {
    forall a, m :: a in committed && m in a.sources ==>
      && m in rows && rows[m].receivedAt <= committed[a]
      && (rows[m].status == Pending ==> rows[m].action == Some(a))
  }

  predicate Exclusive(committed: map<ActionId, int>) {
    forall a, b :: a in committed && b in committed && a != b ==> a.sources !! b.sources
  }

  predicate LocalTimes(s: State) {
    && s.clock >= EPOCH
    && (forall m :: m in s.rows ==> EPOCH <= s.rows[m].receivedAt <= s.clock)
    && (forall a :: a in s.committed ==> a.sources != {} && EPOCH <= s.committed[a] <= s.clock)
  }

  /** `m` takes part in no published action. */
  predicate Unpublished(committed: map<ActionId, int>, m: int) {
    forall a :: a in committed ==> m !in a.sources
  }

  /** What is about to be written for the source of a published action keeps its identifier while pending. */
  predicate Agrees(committed: map<ActionId, int>, m: int, outcome: Outcome) {
    forall a :: a in committed && m in a.sources ==> outcome.status == Pending ==> outcome.action == Some(a)
  }

  predicate Open(s: State, now: int, ready: set<int>, outcomes: map<int, Outcome>) {
    && EPOCH <= now <= s.clock
    && (forall m :: m in ready ==> m in s.rows && s.rows[m].receivedAt <= now)
    && outcomes.Keys <= ready
    && (forall m :: m in ready && m !in outcomes ==> Unpublished(s.committed, m))
    && (forall m :: m in outcomes ==> Agrees(s.committed, m, outcomes[m]))
  }

  predicate PhaseOk(s: State) {
    match s.phase
    case Idle => true
    case Started(now) =>
      EPOCH <= now <= s.clock && forall m :: m in s.rows ==> s.rows[m].receivedAt <= now
    case Reconciling(now, listed, found) =>
      && EPOCH <= now <= s.clock
      && (forall m :: m in listed ==> m in s.rows && s.rows[m].receivedAt <= now && s.rows[m].status == Pending)
      && (forall a :: a in found ==> a in s.committed)
      && (forall a, m :: a in s.committed && m in a.sources && m in listed ==> a in found)
    case Deciding(now, ready, outcomes) => Open(s, now, ready, outcomes)
    case Claiming(now, ready, outcomes, a, todo) =>
      && Open(s, now, ready, outcomes)
      && a.sources != {} && a.sources <= ready - outcomes.Keys && todo <= a.sources
      && forall m :: m in a.sources && m !in todo ==> s.rows[m].status == Pending && s.rows[m].action == Some(a)
    case Finalizing(final, finishedAt) =>
      forall m :: m in final ==> m in s.rows && Agrees(s.committed, m, final[m])
  }

  predicate Inv(s: State) {
    LocalTimes(s) && StillCarried(s.rows, s.committed) && Exclusive(s.committed) && PhaseOk(s)
  }

  // ---- preservation, step by step -------------------------------------------------------------------

  /** The scan bound of a pass is never later than the commit of any action a listed message takes part in. */
  lemma ScanReachesCommit(s: State, listed: set<int>, since: int, a: ActionId, m: int)
    requires Inv(s) && s.phase.Started? && listed <= PendingRows(s.rows)
    requires ScanBound(s.rows, Claimed(s.rows, listed), s.phase.now, since)
    requires m in listed && a in s.committed && m in a.sources
    ensures since <= s.committed[a] && since <= s.phase.now
  {
    assert m in PendingRows(s.rows);
    assert m in Claimed(s.rows, listed) && Stamp(s.rows[m], s.rows[m].receivedAt);
  }

  lemma ListKeepsInv(s: State, s': State, listed: set<int>, since: int, found: set<ActionId>)
    requires Inv(s) && Next(s, s', List(listed, since, found))
    ensures Inv(s')
  {
    forall m | m in listed
      ensures m in s.rows && s.rows[m].status == Pending
    {
      assert m in PendingRows(s.rows);
    }
    forall a, m | a in s.committed && m in a.sources && m in listed
      ensures a in found
    {
      assert m in Claimed(s.rows, listed);
      ScanReachesCommit(s, listed, since, a, m);
    }
  }

  lemma MarkKeepsCarried(rows: map<int, Row>, committed: map<ActionId, int>, m: int, status: Status,
                         action: Option<ActionId>, at: int)
    requires m in rows && StillCarried(rows, committed) && Agrees(committed, m, Outcome(status, action))
    ensures StillCarried(Marked(rows, m, status, action, at), committed)
  {
  }

  lemma ExpireKeepsInv(s: State, s': State, id: int, action: Option<ActionId>)
    requires Inv(s) && Next(s, s', Expire(id, action))
    ensures Inv(s')
  {
    MarkKeepsCarried(s.rows, s.committed, id, Ignored, action, s.phase.now);
  }

  lemma ReconcileKeepsInv(s: State, s': State, id: int)
    requires Inv(s) && Next(s, s', Reconcile(id))
    ensures Inv(s')
  {
    MarkKeepsCarried(s.rows, s.committed, id, Applied, s.rows[id].action, s.phase.now);
  }

  /** Reconciliation leaves no message of a published action for the model. */
  lemma TakeKeepsInv(s: State, s': State, ready: set<int>)
    requires Inv(s) && Next(s, s', Take(ready))
    ensures Inv(s') && forall m :: m in ready ==> Unpublished(s.committed, m)
  {
  }

  lemma DecidedKeepsOpen(s: State, now: int, ready: set<int>, outcomes: map<int, Outcome>, sources: set<int>,
                         outcome: Outcome)
    requires Open(s, now, ready, outcomes) && sources <= ready
    requires forall m :: m in sources ==> Agrees(s.committed, m, outcome)
    ensures Open(s, now, ready, Decided(outcomes, sources, outcome))
  {
  }

  lemma DecideKeepsInv(s: State, s': State, sources: set<int>, status: Status)
    requires Inv(s) && Next(s, s', Decide(sources, status))
    ensures Inv(s')
  {
    DecidedKeepsOpen(s, s.phase.now, s.phase.ready, s.phase.outcomes, sources, Outcome(status, None));
  }

  lemma ClaimMarkKeepsInv(s: State, s': State, id: int)
    requires Inv(s) && Next(s, s', ClaimMark(id))
    ensures Inv(s')
  {
    MarkKeepsCarried(s.rows, s.committed, id, Pending, Some(s.phase.action), s.phase.now);
  }

  lemma ClaimFailKeepsInv(s: State, s': State, id: int, stored: bool)
    requires Inv(s) && Next(s, s', ClaimFail(id, stored))
    ensures Inv(s')
  {
    if stored {
      MarkKeepsCarried(s.rows, s.committed, id, Pending, Some(s.phase.action), s.phase.now);
    }
    DecidedKeepsOpen(s', s.phase.now, s.phase.ready, s.phase.outcomes, s.phase.action.sources,
                     Failure(s.phase.action));
  }

  lemma SourcesUnpublished(s: State)
    requires Inv(s) && s.phase.Claiming?
    ensures forall m :: m in s.phase.action.sources ==> Unpublished(s.committed, m)
    ensures s.phase.action !in s.committed
  {
    var a := s.phase.action;
    forall m | m in a.sources
      ensures Unpublished(s.committed, m)
    {
    }
    assert !(forall m :: m !in a.sources) || a.sources == {};
    var m :| m in a.sources;
    assert Unpublished(s.committed, m);
  }

  lemma PublishKeepsCarried(s: State, s': State, reply: Reply, commits: bool)
    requires Inv(s) && Next(s, s', Submit(reply, commits))
    ensures StillCarried(s'.rows, s'.committed)
  {
  }

  lemma PublishAgrees(s: State, s': State, reply: Reply, commits: bool, m: int)
    requires Inv(s) && Next(s, s', Submit(reply, commits)) && m in s'.phase.outcomes
    ensures Agrees(s'.committed, m, s'.phase.outcomes[m])
  {
    var a := s.phase.action;
    forall b | b in s'.committed && m in b.sources && s'.phase.outcomes[m].status == Pending
      ensures s'.phase.outcomes[m].action == Some(b)
    {
      if m in a.sources {
        assert b == a;
      } else {
        assert b in s.committed && s'.phase.outcomes[m] == s.phase.outcomes[m];
      }
    }
  }

  lemma PublishKeepsExclusive(s: State, s': State, reply: Reply, commits: bool)
    requires Inv(s) && Next(s, s', Submit(reply, commits))
    ensures Exclusive(s'.committed) && LocalTimes(s')
  {
    SourcesUnpublished(s);
    assert forall b, m :: b in s.committed && m in s.phase.action.sources ==> m !in b.sources;
  }

  lemma PublishKeepsOpen(s: State, s': State, reply: Reply, commits: bool)
    requires Inv(s) && Next(s, s', Submit(reply, commits))
    ensures PhaseOk(s')
  {
    forall m | m in s'.phase.outcomes
      ensures Agrees(s'.committed, m, s'.phase.outcomes[m])
    {
      PublishAgrees(s, s', reply, commits, m);
    }
  }

  /** Publishing is exclusive: no source of the new action takes part in an older one. */
  lemma SubmitKeepsInv(s: State, s': State, reply: Reply, commits: bool)
    requires Inv(s) && Next(s, s', Submit(reply, commits))
    ensures Inv(s') && forall m :: m in s.phase.action.sources ==> Unpublished(s.committed, m)
  {
    SourcesUnpublished(s);
    PublishKeepsExclusive(s, s', reply, commits);
    PublishKeepsCarried(s, s', reply, commits);
    PublishKeepsOpen(s, s', reply, commits);
  }

  lemma ConcludeKeepsInv(s: State, s': State, step: Step)
    requires Inv(s) && Next(s, s', step) && (step.Conclude? || step.ModelFailure?)
    ensures Inv(s')
  {
  }

  lemma FinalMarkKeepsInv(s: State, s': State, id: int)
    requires Inv(s) && Next(s, s', FinalMark(id))
    ensures Inv(s')
  {
    var outcome := s.phase.final[id];
    MarkKeepsCarried(s.rows, s.committed, id, outcome.status, outcome.action, s.phase.finishedAt);
  }

  lemma FinalCommitKeepsInv(s: State, s': State)
    requires Inv(s) && Next(s, s', FinalCommit)
    ensures Inv(s')
  {
  }

  lemma EnvironmentKeepsInv(s: State, s': State, step: Step)
    requires Inv(s) && Next(s, s', step) && (step.Tick? || step.Enqueue?)
    ensures Inv(s')
  {
    assert StillCarried(s'.rows, s'.committed);
    assert PhaseOk(s');
  }

  lemma PhaseChangeKeepsInv(s: State, s': State, step: Step)
    requires Inv(s) && Next(s, s', step) && (step.Begin? || step.Claim? || step.Stop?)
    ensures Inv(s')
  {
    assert PhaseOk(s');
  }

  lemma StepKeepsInv(s: State, s': State, step: Step)
    requires Inv(s) && Next(s, s', step)
    ensures Inv(s')
  {
    hide *;
    match step
    case Expire(id, action) => ExpireKeepsInv(s, s', id, action);
    case List(listed, since, found) => ListKeepsInv(s, s', listed, since, found);
    case Reconcile(id) => ReconcileKeepsInv(s, s', id);
    case Take(ready) => TakeKeepsInv(s, s', ready);
    case Decide(sources, status) => DecideKeepsInv(s, s', sources, status);
    case ClaimMark(id) => ClaimMarkKeepsInv(s, s', id);
    case ClaimFail(id, stored) => ClaimFailKeepsInv(s, s', id, stored);
    case Submit(reply, commits) => SubmitKeepsInv(s, s', reply, commits);
    case Conclude(_) => ConcludeKeepsInv(s, s', step);
    case ModelFailure(_) => ConcludeKeepsInv(s, s', step);
    case Tick(_) => EnvironmentKeepsInv(s, s', step);
    case Enqueue(_, _) => EnvironmentKeepsInv(s, s', step);
    case Begin => PhaseChangeKeepsInv(s, s', step);
    case Claim(_) => PhaseChangeKeepsInv(s, s', step);
    case Stop => PhaseChangeKeepsInv(s, s', step);
    case FinalMark(id) => FinalMarkKeepsInv(s, s', id);
    case FinalCommit => FinalCommitKeepsInv(s, s');
  }

  // ---- whole runs -----------------------------------------------------------------------------------

  ghost predicate Steps(s: State, s': State) {
    exists step :: Next(s, s', step)
  }

  ghost predicate Run(states: seq<State>) {
    && |states| > 0 && Init(states[0])
    && forall i :: 0 <= i < |states| - 1 ==> Steps(states[i], states[i + 1])
  }

  lemma {:induction false} RunKeepsInv(states: seq<State>, i: nat)
    requires Run(states) && i < |states|
    ensures Inv(states[i])
  {
    if i > 0 {
      RunKeepsInv(states, i - 1);
      assert Steps(states[i - 1], states[i - 1 + 1]);
      var step :| Next(states[i - 1], states[i], step);
      StepKeepsInv(states[i - 1], states[i], step);
    }
  }

  lemma PublishedOnce(s: State, s': State, step: Step, a: ActionId)
    requires Inv(s) && Next(s, s', step) && a in s.committed
    ensures a in s'.committed && s'.committed[a] == s.committed[a]
  {
    if step.Submit? {
      SourcesUnpublished(s);
    }
  }

  /** A published action stays published, with its instant. */
  lemma {:induction false} PublishedStays(states: seq<State>, i: nat, j: nat, a: ActionId)
    requires Run(states) && i <= j < |states| && a in states[i].committed
    ensures a in states[j].committed && states[j].committed[a] == states[i].committed[a]
    decreases j
  {
    if i < j {
      PublishedStays(states, i, j - 1, a);
      RunKeepsInv(states, j - 1);
      assert Steps(states[j - 1], states[j - 1 + 1]);
      var step :| Next(states[j - 1], states[j], step);
      PublishedOnce(states[j - 1], states[j], step, a);
    }
  }

  /**
    At most once: over every run, whatever calls fail and wherever the process stops, no message
    takes part in two published actions, even ones published far apart.
   */
  lemma AtMostOncePublished(states: seq<State>, i: nat, j: nat, a: ActionId, b: ActionId, m: int)
    requires Run(states) && i <= j < |states|
    requires a in states[i].committed && b in states[j].committed && m in a.sources && m in b.sources
    ensures a == b
  {
    PublishedStays(states, i, j, a);
    RunKeepsInv(states, j);
  }

  /** The key fact behind it: a pending message of a published action still names that action. */
  lemma PendingNamesItsAction(states: seq<State>, i: nat, a: ActionId, m: int)
    requires Run(states) && i < |states| && a in states[i].committed && m in a.sources
    ensures m in states[i].rows && (states[i].rows[m].status == Pending ==> states[i].rows[m].action == Some(a))
  {
    RunKeepsInv(states, i);
  }
}
