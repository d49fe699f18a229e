/**
  Whole runs of the housekeeper: polls that may be cut off after any API call, downloads, new torrents, finished
  deletions and changes from outside, in any order. The used bytes never exceed the cap, and neither do the
  committed bytes where no torrent is admitted and rejected at once.
 */
module HousekeeperRuns {
  import opened Sums
  import opened HousekeeperCapacity
  import opened HousekeeperPoll
  import opened HousekeeperTheorems
  import opened HousekeeperCrash
  import opened HousekeeperCommitment
  import opened HousekeeperUsage

  // ---- runs --------------------------------------------------------------------------------------------------

  /**
    Data comes in, anything but the hash of a listed torrent changes from outside, a torrent is added, a deletion
    has finished, or a poll runs until its k-th call while `gains` come in for the listed torrents.
   */
  datatype Event =
    | Grow(i: nat, bytes: nat)
    | Change(i: nat, u: Torrent)
    | Arrive(t: Torrent)
    | Gone(i: nat, freed: nat)
    | PollCut(k: nat, gains: seq<nat>)

  /** The listed torrents after the first `k` calls of the poll. */
  function CutAt(d: Disk, k: nat, cap: int): (ws: seq<Torrent>)
    requires k <= |Poll(d.ts, d.used, cap).p.calls|
    ensures |ws| == |d.ts|
  {
    PollSynced(d.ts, d.used, cap);
    Replay(d.ts, Poll(d.ts, d.used, cap).p.calls[..k])
  }

  predicate Possible(d: Disk, e: Event, cap: int) {
    match e
    case Grow(i, bytes) => i < |d.ts| && 0 <= d.ts[i].completed && d.ts[i].completed + bytes <= d.ts[i].size
    case Change(i, u) => i < |d.ts| && u.hash == d.ts[i].hash
    case Arrive(_) => true
    case Gone(i, _) => i < |d.ts|
    case PollCut(k, gains) => k <= |Poll(d.ts, d.used, cap).p.calls| && Fitting(CutAt(d, k, cap), gains)
  }

  /**
    What the used bytes can bear: data comes in only for held torrents while they are not stopped, and no torrent is
    given room from outside. Tags, run states, places, sizes and ages may change in any other way.
   */
  predicate Bearable(d: Disk, e: Event, cap: int)
    requires Possible(d, e, cap)
  {
    match e
    case Grow(i, _) => i < |d.ts| && Running(d.ts[i])
    case Change(i, u) => i < |d.ts| && Room(u) <= Room(d.ts[i])
    case Arrive(t) => Room(t) == 0
    case Gone(_, _) => true
    case PollCut(k, gains) =>
      PollSynced(d.ts, d.used, cap);
      var ran := Ran(d.ts, Poll(d.ts, d.used, cap).p.calls[..k]);
      forall x: nat :: x < |d.ts| && gains[x] > 0 ==> x in ran
  }

  /**
    What the committed bytes can bear: no torrent comes to be held from outside, none that is held changes in size
    or progress otherwise than by data coming in, and no acceptable one gets both tags.
   */
  predicate Accountable(d: Disk, e: Event, cap: int)
    requires Possible(d, e, cap)
  {
    match e
    case Grow(i, _) => i < |d.ts| && Held(d.ts[i])
    case Change(i, u) =>
      && i < |d.ts| && Clean(u, cap)
      && (Held(u) ==> Held(d.ts[i]) && u.size == d.ts[i].size && u.completed == d.ts[i].completed)
    case Arrive(t) => !Held(t) && Clean(t, cap)
    case Gone(i, freed) => i < |d.ts| && (Held(d.ts[i]) ==> Materialized(d.ts[i]) <= freed)
    case PollCut(k, gains) =>
      var ws := CutAt(d, k, cap);
      forall x: nat :: x < |ws| && gains[x] > 0 ==> Held(ws[x])
  }

  predicate May(d: Disk, e: Event, cap: int, strict: bool) {
    Possible(d, e, cap) && if strict then Accountable(d, e, cap) else Bearable(d, e, cap)
  }

  function Happen(d: Disk, e: Event, cap: int): Disk
    requires Possible(d, e, cap)
  {
    match e
    case Grow(i, bytes) =>
      Disk(d.ts[i := d.ts[i].(completed := d.ts[i].completed + bytes)], d.used + bytes)
    case Change(i, u) => Disk(d.ts[i := u], d.used)
    case Arrive(t) => Disk(d.ts + [t], d.used)
    case Gone(i, freed) => Disk(Remaining(d.ts, {i}, |d.ts|), d.used - freed)
    case PollCut(k, gains) => Disk(Grown(CutAt(d, k, cap), gains), d.used + Total(gains, |gains|))
  }

  predicate IsRun(d: Disk, events: seq<Event>, cap: int, strict: bool)
    decreases |events|
  {
    events == [] ||
    (May(d, events[0], cap, strict) && IsRun(Happen(d, events[0], cap), events[1..], cap, strict))
  }

  function Finally(d: Disk, events: seq<Event>, cap: int, strict: bool): Disk
    requires IsRun(d, events, cap, strict)
    decreases |events|
  {
    if events == [] then d else Finally(Happen(d, events[0], cap), events[1..], cap, strict)
  }

  // ---- runs keep the used bytes within the cap -----------------------------------------------------------------

  lemma {:induction false} RoomsOfPrefix(ts: seq<Torrent>, t: Torrent, n: nat)
    requires n <= |ts|
    ensures Rooms(ts + [t], n) == Rooms(ts, n)
  {
    if n > 0 {
      RoomsOfPrefix(ts, t, n - 1);
    }
  }

  lemma {:induction false} RoomsRemaining(ts: seq<Torrent>, out: set<nat>, n: nat)
    requires n <= |ts|
    ensures Rooms(Remaining(ts, out, n), |Remaining(ts, out, n)|) <= Rooms(ts, n)
  {
    if n > 0 {
      RoomsRemaining(ts, out, n - 1);
      if n - 1 !in out {
        var head := Remaining(ts, out, n - 1);
        RoomsOfPrefix(head, ts[n - 1], |head|);
      }
    }
  }

  lemma GrowKeepsExposure(d: Disk, i: nat, bytes: nat, cap: int)
    requires Possible(d, Grow(i, bytes), cap) && Running(d.ts[i])
    ensures Exposed(Happen(d, Grow(i, bytes), cap).ts, d.used + bytes) == Exposed(d.ts, d.used)
  {
    RoomChange(d.ts, i, d.ts[i].(completed := d.ts[i].completed + bytes), |d.ts|);
  }

  /** What came in, during the poll, for torrents that this poll rejects. */
  function Strayed(d: Disk, e: Event, cap: int): nat
    requires Possible(d, e, cap)
  {
    if e.PollCut? then
      PollSynced(d.ts, d.used, cap);
      StrayTotal(e.gains, Kept(d.ts, Poll(d.ts, d.used, cap).p.calls[..e.k], cap), |e.gains|)
    else 0
  }

  function AllStrayed(d: Disk, events: seq<Event>, cap: int, strict: bool): nat
    requires IsRun(d, events, cap, strict)
    decreases |events|
  {
    if events == [] then 0
    else Strayed(d, events[0], cap) + AllStrayed(Happen(d, events[0], cap), events[1..], cap, strict)
  }

  lemma CutKeepsExposure(d: Disk, k: nat, gains: seq<nat>, cap: int, limit: int)
    requires May(d, PollCut(k, gains), cap, false) && Exposed(d.ts, d.used) <= limit && cap <= limit && cap < MAX_INT64
    ensures var after := Happen(d, PollCut(k, gains), cap);
            Exposed(after.ts, after.used) <= limit + Strayed(d, PollCut(k, gains), cap)
  {
    hide Poll, Exposed, Kept;
    PollSynced(d.ts, d.used, cap);
    GrowingPollKeepsExposure(d.ts, d.used, cap, k, gains, limit);
  }

  lemma EventKeepsExposure(d: Disk, e: Event, cap: int, limit: int)
    requires May(d, e, cap, false) && Exposed(d.ts, d.used) <= limit && cap <= limit && cap < MAX_INT64
    ensures Exposed(Happen(d, e, cap).ts, Happen(d, e, cap).used) <= limit + Strayed(d, e, cap)
  {
    hide Poll, Remaining;
    match e
    case Grow(i, bytes) => GrowKeepsExposure(d, i, bytes, cap);
    case Change(i, u) => RoomChange(d.ts, i, u, |d.ts|);
    case Arrive(t) => RoomsOfPrefix(d.ts, t, |d.ts|);
    case Gone(i, _) => RoomsRemaining(d.ts, {i}, |d.ts|);
    case PollCut(k, gains) => CutKeepsExposure(d, k, gains, cap, limit);
  }

  /**
    Whatever the tags: if the used bytes and the room of the running torrents are within a limit of at least the cap
    once, no run of any length ever uses more than the limit and what polls let in for torrents they were rejecting.
   */
  lemma {:induction false} RunsStayWithin(d: Disk, events: seq<Event>, cap: int, limit: int)
    requires Exposed(d.ts, d.used) <= limit && cap <= limit && cap < MAX_INT64 && IsRun(d, events, cap, false)
    ensures var last := Finally(d, events, cap, false);
            last.used <= Exposed(last.ts, last.used) <= limit + AllStrayed(d, events, cap, false)
    decreases |events|
  {
    hide Exposed, Possible, Bearable, Happen, Strayed;
    if events != [] {
      EventKeepsExposure(d, events[0], cap, limit);
      RunsStayWithin(Happen(d, events[0], cap), events[1..], cap, limit + Strayed(d, events[0], cap));
    }
  }

  /** After a poll that admits, whatever happens next, later polls and their crashes included, the cap is kept. */
  lemma AdmittingPollIsSafe(ts: seq<Torrent>, used: int, cap: int, events: seq<Event>)
    requires cap < MAX_INT64 && Poll(ts, used, cap).admitted != []
    requires IsRun(Disk(Poll(ts, used, cap).p.ts, used), events, cap, false)
    ensures var d := Disk(Poll(ts, used, cap).p.ts, used);
            Finally(d, events, cap, false).used <= cap + AllStrayed(d, events, cap, false)
  {
    hide Poll;
    PollRespectsCap(ts, used, cap);
    ExposedAtMostHoldings(Poll(ts, used, cap).p.ts, used);
    RunsStayWithin(Disk(Poll(ts, used, cap).p.ts, used), events, cap, cap);
  }

  // ---- runs keep the committed bytes within the cap where the tags are clean ----------------------------------------

  predicate Safe(d: Disk, cap: int) {
    CleanTags(d.ts, cap) && Holdings(d.ts, d.used) <= cap
  }

  lemma GrowIsSafe(d: Disk, i: nat, bytes: nat, cap: int)
    requires Safe(d, cap) && May(d, Grow(i, bytes), cap, true)
    ensures Safe(Happen(d, Grow(i, bytes), cap), cap)
  {
    StepKeepsCapacity(d, Download(i, bytes), cap);
  }

  lemma ChangeIsSafe(d: Disk, i: nat, u: Torrent, cap: int)
    requires Safe(d, cap) && May(d, Change(i, u), cap, true)
    ensures Safe(Disk(d.ts[i := u], d.used), cap)
  {
    hide Holdings;
    var disk, reserved := HoldingsUpdate(d.ts, i, u, d.used, d.used);
  }

  lemma ArriveIsSafe(d: Disk, t: Torrent, cap: int)
    requires Safe(d, cap) && !Held(t) && Clean(t, cap)
    ensures Safe(Disk(d.ts + [t], d.used), cap)
  {
    TotalsIgnoreSuffix(d.ts, t, |d.ts|);
    assert (d.ts + [t])[|d.ts|] == t;
    TotalsBounds(d.ts, NO_CANDIDATE, {}, |d.ts|);
    TotalsBounds(d.ts + [t], NO_CANDIDATE, {}, |d.ts| + 1);
  }

  /** Without one torrent the totals lose its terms. */
  lemma {:induction false} WithoutOne(ts: seq<Torrent>, i: nat, n: nat)
    requires i < |ts| && n <= |ts|
    ensures Reserved(ts, NO_CANDIDATE, {i}, n) ==
            Reserved(ts, NO_CANDIDATE, {}, n) - if i < n then ReserveTerm(ts, i, NO_CANDIDATE, {}) else 0
    ensures OnDisk(ts, NO_CANDIDATE, {i}, n) ==
            OnDisk(ts, NO_CANDIDATE, {}, n) - if i < n then DiskTerm(ts, i, NO_CANDIDATE, {}) else 0
  {
    if n > 0 {
      WithoutOne(ts, i, n - 1);
    }
  }

  lemma {:induction false} RemainingMembers(ts: seq<Torrent>, out: set<nat>, n: nat)
    requires n <= |ts|
    ensures forall t :: t in Remaining(ts, out, n) ==> t in ts
  {
    if n > 0 {
      RemainingMembers(ts, out, n - 1);
    }
  }

  lemma GoneIsSafe(d: Disk, i: nat, freed: nat, cap: int)
    requires Safe(d, cap) && i < |d.ts| && (Held(d.ts[i]) ==> Materialized(d.ts[i]) <= freed)
    ensures Safe(Disk(Remaining(d.ts, {i}, |d.ts|), d.used - freed), cap)
  {
    var rest := Remaining(d.ts, {i}, |d.ts|);
    RemainingMembers(d.ts, {i}, |d.ts|);
    assert forall j :: 0 <= j < |rest| ==> rest[j] in d.ts;
    RemainingTotals(d.ts, {i}, |d.ts|);
    WithoutOne(d.ts, i, |d.ts|);
    TotalsBounds(d.ts, NO_CANDIDATE, {}, |d.ts|);
    TotalsBounds(rest, NO_CANDIDATE, {}, |rest|);
  }

  /** Data for held torrents changes nothing of the committed bytes. */
  lemma {:induction false} GrownTotals(ws: seq<Torrent>, gains: seq<nat>, n: nat)
    requires Fitting(ws, gains) && n <= |ws| && forall x: nat :: x < |ws| && gains[x] > 0 ==> Held(ws[x])
    ensures Reserved(Grown(ws, gains), NO_CANDIDATE, {}, n) == Reserved(ws, NO_CANDIDATE, {}, n)
    ensures OnDisk(Grown(ws, gains), NO_CANDIDATE, {}, n) == OnDisk(ws, NO_CANDIDATE, {}, n) + Total(gains, n)
  {
    if n > 0 {
      GrownTotals(ws, gains, n - 1);
    }
  }

  lemma GrownHoldings(ws: seq<Torrent>, gains: seq<nat>, used: int)
    requires Fitting(ws, gains) && forall x: nat :: x < |ws| && gains[x] > 0 ==> Held(ws[x])
    ensures Holdings(Grown(ws, gains), used + Total(gains, |gains|)) == Holdings(ws, used)
  {
    hide Grown, Reserved, OnDisk, Reclaimed, Total;
    GrownTotals(ws, gains, |ws|);
    TotalsBounds(ws, NO_CANDIDATE, {}, |ws|);
    TotalsBounds(Grown(ws, gains), NO_CANDIDATE, {}, |ws|);
  }

  lemma PollCutIsSafe(d: Disk, k: nat, gains: seq<nat>, cap: int)
    requires Safe(d, cap) && May(d, PollCut(k, gains), cap, true) && cap < MAX_INT64
    ensures Safe(Happen(d, PollCut(k, gains), cap), cap)
  {
    hide Poll, Holdings;
    PollKeepsCapacity(d.ts, d.used, cap, k);
    GrownHoldings(CutAt(d, k, cap), gains, d.used);
  }

  lemma EventKeepsSafe(d: Disk, e: Event, cap: int)
    requires Safe(d, cap) && May(d, e, cap, true) && cap < MAX_INT64
    ensures Safe(Happen(d, e, cap), cap)
  {
    hide Safe, Poll, Remaining;
    match e
    case Grow(i, bytes) => GrowIsSafe(d, i, bytes, cap);
    case Change(i, u) => ChangeIsSafe(d, i, u, cap);
    case Arrive(t) => ArriveIsSafe(d, t, cap);
    case Gone(i, freed) => GoneIsSafe(d, i, freed, cap);
    case PollCut(k, gains) => PollCutIsSafe(d, k, gains, cap);
  }

  /** From clean torrents within the cap, no accountable run ever commits to more than the cap. */
  lemma {:induction false} RunsStaySafe(d: Disk, events: seq<Event>, cap: int)
    requires Safe(d, cap) && IsRun(d, events, cap, true) && cap < MAX_INT64
    ensures Safe(Finally(d, events, cap, true), cap) && Finally(d, events, cap, true).used <= cap
    decreases |events|
  {
    hide Possible, Accountable, Happen, Holdings;
    if events == [] {
      UsedAtMostHoldings(d.ts, d.used);
    } else {
      EventKeepsSafe(d, events[0], cap);
      RunsStaySafe(Happen(d, events[0], cap), events[1..], cap);
    }
  }

  // ---- a run of the engine's own making that commits to more than the cap --------------------------------------------

  lemma TwoCommitted(t: Torrent, u: Torrent, cand: int)
    requires t.completed <= 0 && u.completed <= 0
    ensures Committed([t, u], cand, {}, 0) ==
            (if cand == 0 || Held(t) then Max0(t.size) else 0) + (if cand == 1 || Held(u) then Max0(u.size) else 0)
  {
    var ts := [t, u];
    assert Reserved(ts, cand, {}, 1) == Reserved(ts, cand, {}, 0) + ReserveTerm(ts, 0, cand, {});
    assert OnDisk(ts, cand, {}, 1) == OnDisk(ts, cand, {}, 0) + DiskTerm(ts, 0, cand, {});
    TotalsBounds(ts, cand, {}, 2);
  }

  lemma NothingExpires(t: Torrent, u: Torrent)
    requires !RetentionEligible(t) && !RetentionEligible(u)
    ensures RetentionOrder([t, u]) == []
  {
    FirstIsListed(RetentionOrder([t, u]));
  }

  /** A torrent to be rejected that is admitted and stopped: the first call tags it rejected. */
  lemma FirstCallRejects(t: Torrent, u: Torrent, cap: int)
    requires t.tags == {Admitted} && !t.inside && IsStopped(t.state) && !RetentionEligible(u) && cap < MAX_INT64
    ensures var calls := Poll([t, u], 0, cap).p.calls;
            calls != [] && calls[0] == AddTag(0, Rejected)
  {
    var ts := [t, u];
    NothingExpires(t, u);
    assert NormalizeView(0, t, cap).calls[0] == AddTag(0, Rejected);
    assert NormalizeUpTo(ts, cap, 0) == Phase(ts, [], {});
    assert NormalizeUpTo(ts, cap, 1).calls == NormalizeView(0, t, cap).calls;
    NormalizeCallsGrow(ts, cap, 1, 2);
    AdmissionIsCareful(ts, 0, cap);
  }

  lemma OnlyListed(xs: seq<nat>, x: nat)
    requires x in xs && (forall y :: y in xs ==> y == x) && forall j, k :: 0 <= j < k < |xs| ==> xs[j] != xs[k]
    ensures xs == [x]
  {
    var k :| 0 <= k < |xs| && xs[k] == x;
    forall j | 0 <= j < |xs|
      ensures xs[j] == x && j == k
    {
      assert xs[j] in xs;
    }
    assert xs[0] == x && xs[|xs| - 1] == x;
  }

  lemma PreparedAsListed(ts: seq<Torrent>, cap: int)
    requires AllNormal(ts, cap) && forall i :: 0 <= i < |ts| ==> !Interrupted(ts[i])
    ensures Prepared(ts, 0, cap).ts == ts && Prepared(ts, 0, cap).blocked == {}
  {
    NormalListNeedsNoCalls(ts, cap, |ts|);
    FinishPointwise(Phase(ts, [], {}), 0, cap, |ts|);
  }

  lemma AdmitsOne(p: Phase, i: nat, used: int, cap: int)
    requires i < |p.ts| && IsStopped(p.ts[i].state) && Fits(p.ts, i, {}, used, cap)
    ensures AdmitFrom(p, [i], used, cap).p.ts == p.ts[i := AdmitView(i, p.ts[i]).t]
    ensures AdmitFrom(p, [i], used, cap).evicted == []
  {
    var q := Put(p, i, AdmitView(i, p.ts[i]));
    assert [i][1..] == [];
    assert AdmitFrom(q, [], used, cap) == Admission(q, [], []);
  }

  /** While the first torrent is still being checked, the second one is admitted. */
  lemma AdmitsSecond(t: Torrent, u: Torrent, cap: int)
    requires t.inside && !MetadataReady(t) && Admitted in t.tags && Rejected in t.tags && t.completed <= 0
    requires u.tags == {Waiting} && u.inside && IsStopped(u.state) && MetadataReady(u) && u.size == cap && u.completed <= 0
    requires !RetentionEligible(t) && !RetentionEligible(u) && cap < MAX_INT64
    ensures Poll([t, u], 0, cap).p.ts == [t, AdmitView(1, u).t]
  {
    var ts, p := [t, u], Prepared([t, u], 0, cap);
    NothingExpires(t, u);
    PreparedAsListed(ts, cap);
    hide Prepared;
    var order := Candidates(p, cap);
    assert Candidate(p, 1, cap) && !Candidate(p, 0, cap);
    OnlyListed(order, 1);
    TwoCommitted(t, u, 1);
    AdmitsOne(p, 1, 0, cap);
  }

  /** A poll over two torrents, cut off after its k-th call, while no data comes in. */
  function Quietly(k: nat): Event {
    PollCut(k, [0, 0])
  }

  lemma QuietCut(d: Disk, k: nat, cap: int)
    requires |d.ts| == 2 && k <= |Poll(d.ts, d.used, cap).p.calls|
    ensures May(d, Quietly(k), cap, false) && Happen(d, Quietly(k), cap) == Disk(CutAt(d, k, cap), d.used)
  {
    hide Poll, CutAt;
    assert Grown(CutAt(d, k, cap), [0, 0]) == CutAt(d, k, cap);
  }

  /** A poll that runs to its end. */
  lemma WholePoll(t: Torrent, u: Torrent, cap: int)
    ensures var d, whole := Disk([t, u], 0), |Poll([t, u], 0, cap).p.calls|;
            May(d, Quietly(whole), cap, false) && Happen(d, Quietly(whole), cap) == Disk(Poll(d.ts, 0, cap).p.ts, 0)
  {
    hide Poll;
    var calls := Poll([t, u], 0, cap).p.calls;
    assert calls[..|calls|] == calls;
    PollSynced([t, u], 0, cap);
    QuietCut(Disk([t, u], 0), |calls|, cap);
  }

  lemma FirstRejected(t: Torrent, u: Torrent)
    requires t.tags == {Admitted}
    ensures Replay([t, u], [AddTag(0, Rejected)]) == [t.(tags := {Admitted, Rejected}), u]
  {
    assert [AddTag(0, Rejected)][..0] == [];
    assert t.tags + {Rejected} == {Admitted, Rejected};
  }

  /** A poll that is cut off after tagging its first torrent rejected. */
  lemma CutAfterRejecting(t: Torrent, u: Torrent, cap: int)
    requires t.tags == {Admitted} && !t.inside && IsStopped(t.state) && !RetentionEligible(u) && cap < MAX_INT64
    ensures May(Disk([t, u], 0), Quietly(1), cap, false)
    ensures Happen(Disk([t, u], 0), Quietly(1), cap) == Disk([t.(tags := {Admitted, Rejected}), u], 0)
  {
    hide Poll;
    var calls := Poll([t, u], 0, cap).p.calls;
    FirstCallRejects(t, u, cap);
    PollSynced([t, u], 0, cap);
    assert calls[..1] == [AddTag(0, Rejected)];
    FirstRejected(t, u);
    QuietCut(Disk([t, u], 0), 1, cap);
  }

  lemma RunFrom(d: Disk, e: Event, rest: seq<Event>, cap: int)
    requires May(d, e, cap, false) && IsRun(Happen(d, e, cap), rest, cap, false)
    ensures IsRun(d, [e] + rest, cap, false)
    ensures Finally(d, [e] + rest, cap, false) == Finally(Happen(d, e, cap), rest, cap, false)
  {
    assert ([e] + rest)[1..] == rest;
  }

  lemma LastEvent(d: Disk, e: Event, cap: int)
    requires May(d, e, cap, false)
    ensures IsRun(d, [e], cap, false) && Finally(d, [e], cap, false) == Happen(d, e, cap)
  {
    assert [e] + [] == [e];
    RunFrom(d, e, [], cap);
  }

  lemma TwoHoldings(t: Torrent, u: Torrent)
    requires t.completed <= 0 && u.completed <= 0
    ensures Holdings([t, u], 0) == (if Held(t) then Max0(t.size) else 0) + (if Held(u) then Max0(u.size) else 0)
  {
    TwoCommitted(t, u, NO_CANDIDATE);
  }

  /** Un-rejecting the first torrent next to the second one, each of the size of the cap. */
  lemma UnrejectOvercommits(t: Torrent, u: Torrent, cap: int) returns (k: nat)
    requires Unrejected(t, cap) && !RetentionEligible(t) && t.size == cap && t.completed <= 0
    requires Held(u) && !RetentionEligible(u) && u.size == cap && u.completed <= 0 && 0 < cap < MAX_INT64
    ensures k <= |Poll([t, u], 0, cap).p.calls| && Holdings(CutAt(Disk([t, u], 0), k, cap), 0) > cap
  {
    hide Poll, Holdings;
    var ts := [t, u];
    NothingExpires(t, u);
    TwoHoldings(t, u);
    TwoCommitted(t, u, 0);
    assert SettledUpTo(ts, cap, 0) == ts;
    assert !UnrejectedFit(ts, 0, cap) by {
      assert Unrejected(ts[0], cap) && Committed(SettledUpTo(ts, cap, 0), 0, {}, 0) > cap;
    }
    PollCapacityExact(ts, 0, cap);
    PollSynced(ts, 0, cap);
    k :| k <= |Poll(ts, 0, cap).p.calls| && Holdings(Replay(ts, Poll(ts, 0, cap).p.calls[..k]), 0) > cap;
  }

  lemma AdmittedSecond(u: Torrent)
    requires u.tags == {Waiting}
    ensures var v := AdmitView(1, u).t;
            Held(v) && v.size == u.size && v.completed == u.completed && RetentionEligible(v) == RetentionEligible(u)
  {
  }

  lemma ChangeFirst(t: Torrent, t': Torrent, u: Torrent, cap: int)
    requires t.hash == t'.hash && Room(t') == 0
    ensures May(Disk([t, u], 0), Change(0, t'), cap, false)
    ensures Happen(Disk([t, u], 0), Change(0, t'), cap) == Disk([t', u], 0)
  {
  }

  /**
    Where a torrent may move, the engine makes both tags itself: a poll is cut off while it rejects an admitted torrent
    outside the root; the torrent moves inside and is being checked while the next poll admits another one of the
    size of the cap; once it is ready, the third poll un-rejects it. No byte is used by then, and `RunsStayWithin`
    applies all the same.
   */
  lemma EngineMadeOvercommit(t: Torrent, u: Torrent, cap: int) returns (events: seq<Event>)
    requires 0 < cap < MAX_INT64 && t.size == u.size == cap && t.completed == u.completed == 0
    requires t.tags == {Admitted} && !t.inside && IsStopped(t.state)
    requires u.tags == {Waiting} && u.inside && IsStopped(u.state) && MetadataReady(u) && !RetentionEligible(u)
    ensures var d := Disk([t, u], 0);
            && Safe(d, cap) && IsRun(d, events, cap, false)
            && var last := Finally(d, events, cap, false);
            last.used == 0 < cap < Holdings(last.ts, last.used)
  {
    hide Poll, Holdings, AdmitView, CutAt, May, IsRun, Finally, Happen;
    var both := t.(tags := {Admitted, Rejected});
    var checked := both.(inside := true, state := "checkingResumeData", pastRetention := false);
    var ready, admitted := checked.(state := STOPPED), AdmitView(1, u).t;
    StoppedState();
    AdmittedSecond(u);
    var d, d1, d2 := Disk([t, u], 0), Disk([both, u], 0), Disk([checked, u], 0);
    var d3, d4 := Disk([checked, admitted], 0), Disk([ready, admitted], 0);
    var whole := |Poll(d2.ts, 0, cap).p.calls|;
    var k := UnrejectOvercommits(ready, admitted, cap);
    QuietCut(d4, k, cap);
    LastEvent(d4, Quietly(k), cap);
    ChangeFirst(checked, ready, admitted, cap);
    RunFrom(d3, Change(0, ready), [Quietly(k)], cap);
    AdmitsSecond(checked, u, cap);
    WholePoll(checked, u, cap);
    RunFrom(d2, Quietly(whole), [Change(0, ready)] + [Quietly(k)], cap);
    ChangeFirst(both, checked, u, cap);
    RunFrom(d1, Change(0, checked), [Quietly(whole)] + ([Change(0, ready)] + [Quietly(k)]), cap);
    CutAfterRejecting(t, u, cap);
    events := [Quietly(1)] + ([Change(0, checked)] + ([Quietly(whole)] + ([Change(0, ready)] + [Quietly(k)])));
    RunFrom(d, Quietly(1), [Change(0, checked)] + ([Quietly(whole)] + ([Change(0, ready)] + [Quietly(k)])), cap);
    TwoHoldings(t, u);
  }

  // ---- a poll that lets in more than the cap --------------------------------------------------------------------------

  lemma {:induction false} RanFromStart(ts: seq<Torrent>, calls: seq<Call>, x: nat)
    requires InRange(calls, |ts|) && x < |ts| && Running(ts[x])
    ensures x in Ran(ts, calls)
  {
    if calls != [] {
      RanFromStart(ts, calls[..|calls| - 1], x);
    }
  }

  lemma RejectedFirst(t: Torrent, u: Torrent, cap: int)
    requires !t.inside && u.tags == {Waiting} && u.inside && IsStopped(u.state) && MetadataReady(u) && u.size <= cap
    ensures var q := NormalizeUpTo([t, u], cap, 2);
            |q.ts| == 2 && q.ts[1] == u && 1 !in q.blocked && Rejected in q.ts[0].tags && Admitted !in q.ts[0].tags
    ensures NormalizeUpTo([t, u], cap, 2).ts[0].completed == t.completed
    ensures NormalizeUpTo([t, u], cap, 2).ts[0].size == t.size
  {
    NormalizedPointwise([t, u], cap, 2);
    RejectReachesNormal(0, t, cap);
    NormalizeKeepsIdentity(0, t, cap);
    NormalIsFixed(1, u, cap);
  }

  /** The poll rejects the first torrent and admits the second one. */
  lemma RejectsAndAdmits(t: Torrent, u: Torrent, cap: int)
    requires !t.inside && t.completed == 0
    requires u.tags == {Waiting} && u.inside && IsStopped(u.state) && MetadataReady(u) && u.size == cap && u.completed == 0
    requires !RetentionEligible(u) && cap < MAX_INT64
    ensures var us := Poll([t, u], 0, cap).p.ts;
            |us| == 2 && !Held(us[0]) && us[0].size == t.size && us[0].completed == 0 && us[1] == AdmitView(1, u).t
  {
    var q, p := NormalizeUpTo([t, u], cap, 2), Prepared([t, u], 0, cap);
    NothingExpires(t, u);
    RejectedFirst(t, u, cap);
    FinishPointwise(q, 0, cap, 2);
    assert p.ts == q.ts;
    hide Prepared;
    assert Candidate(p, 1, cap) && !Candidate(p, 0, cap);
    OnlyListed(Candidates(p, cap), 1);
    TwoCommitted(p.ts[0], u, 1);
    assert p.ts == [p.ts[0], u];
    AdmitsOne(p, 1, 0, cap);
  }

  lemma AdmittedRuns(u: Torrent)
    requires u.tags == {Waiting}
    ensures var v := AdmitView(1, u).t;
            Running(v) && v.size == u.size && v.completed == u.completed
  {
    StoppedState();
  }

  lemma TwoTotals(kept: set<nat>, cap: nat)
    requires 0 !in kept && 1 in kept
    ensures Total([cap, cap], 2) == 2 * cap && StrayTotal([cap, cap], kept, 2) == cap
  {
    assert Total([cap, cap], 1) == cap && StrayTotal([cap, cap], kept, 1) == cap;
  }

  /**
    The bound is met: while the poll rejects a running torrent of the size of the cap, all of it comes in, and the poll
    admits another one of that size, of which all comes in as well.
   */
  lemma StrayedOverfills(t: Torrent, u: Torrent, cap: int)
    requires 0 < cap < MAX_INT64 && t.size == u.size == cap && t.completed == u.completed == 0
    requires t.tags == {Admitted} && !t.inside && !IsStopped(t.state)
    requires u.tags == {Waiting} && u.inside && IsStopped(u.state) && MetadataReady(u) && !RetentionEligible(u)
    ensures var d := Disk([t, u], 0); var e := PollCut(|Poll(d.ts, 0, cap).p.calls|, [cap, cap]);
            && Holdings(d.ts, 0) == cap && May(d, e, cap, false)
            && Happen(d, e, cap).used == 2 * cap == cap + Strayed(d, e, cap)
  {
    hide Poll, Holdings, NormalizeView, AdmitView;
    var ts, calls := [t, u], Poll([t, u], 0, cap).p.calls;
    TwoHoldings(t, u);
    RejectsAndAdmits(t, u, cap);
    PollSynced(ts, 0, cap);
    assert calls[..|calls|] == calls;
    AdmittedRuns(u);
    RanFromStart(ts, calls, 0);
    TwoTotals(Kept(ts, calls, cap), cap);
  }
}
