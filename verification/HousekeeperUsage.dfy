/** The used bytes of the housekeeper call by call: what can come in for the torrents that run, even while a poll does. */
module HousekeeperUsage {
  import opened Sums
  import opened HousekeeperCapacity
  import opened HousekeeperPoll
  import opened HousekeeperTheorems
  import opened HousekeeperCrash
  import opened HousekeeperCommitment

  // ---- the bytes that can still come in ---------------------------------------------------------------------------

  /** The bytes a torrent can still receive: nothing while it is stopped or not held. */
  function Room(t: Torrent): (r: int)
    ensures 0 <= r <= Max0(t.size)
  {
    if Running(t) then Max0(t.size) - Materialized(t) else 0
  }

  function Rooms(ts: seq<Torrent>, n: nat): (r: int)
    requires n <= |ts|
    ensures 0 <= r
  {
    if n == 0 then 0 else Rooms(ts, n - 1) + Room(ts[n - 1])
  }

  /** The bytes that are used or can come to be used while nothing is started. */
  function Exposed(ts: seq<Torrent>, used: int): (r: int)
    ensures used <= r
  {
    used + Rooms(ts, |ts|)
  }

  lemma {:induction false} RoomsBound(ts: seq<Torrent>, n: nat)
    requires n <= |ts|
    ensures Rooms(ts, n) <= Reserved(ts, NO_CANDIDATE, {}, n) - OnDisk(ts, NO_CANDIDATE, {}, n)
  {
    if n > 0 {
      RoomsBound(ts, n - 1);
    }
  }

  lemma ExposedAtMostHoldings(ts: seq<Torrent>, used: int)
    ensures Exposed(ts, used) <= Holdings(ts, used)
  {
    RoomsBound(ts, |ts|);
    TotalsBounds(ts, NO_CANDIDATE, {}, |ts|);
  }

  lemma {:induction false} RoomChange(ts: seq<Torrent>, i: nat, u: Torrent, n: nat)
    requires i < |ts| && n <= |ts|
    ensures Rooms(ts[i := u], n) == Rooms(ts, n) + if i < n then Room(u) - Room(ts[i]) else 0
  {
    if n > 0 {
      RoomChange(ts, i, u, n - 1);
    }
  }

  /** Only a start makes room. */
  lemma CalmRoom(ws: seq<Torrent>, c: Call, used: int, cap: int)
    requires c.i < |ws| && Calm(ws, c, used, cap) && !c.Start?
    ensures Room(Effect(ws[c.i], c)) <= Room(ws[c.i])
  {
    hide Committed;
    StoppedState();
  }

  lemma CallKeepsExposure(ws: seq<Torrent>, c: Call, used: int, cap: int)
    requires c.i < |ws| && Calm(ws, c, used, cap) && Exposed(ws, used) <= cap
    ensures Exposed(ws[c.i := Effect(ws[c.i], c)], used) <= cap
  {
    var us := ws[c.i := Effect(ws[c.i], c)];
    if c.Start? {
      AdmittedTotals(ws, c.i, us[c.i], |ws|);
      TotalsBounds(ws, c.i, {}, |ws|);
      TotalsBounds(us, NO_CANDIDATE, {}, |ws|);
      ExposedAtMostHoldings(us, used);
    } else {
      CalmRoom(ws, c, used, cap);
      RoomChange(ws, c.i, us[c.i], |ws|);
    }
  }

  lemma {:induction false} ExposureAfter(ts: seq<Torrent>, calls: seq<Call>, k: nat, used: int, cap: int)
    requires InRange(calls, |ts|) && GuardedFrom(ts, calls, 0, used, cap, false) && k <= |calls|
    requires Exposed(ts, used) <= cap
    ensures Exposed(Replay(ts, calls[..k]), used) <= cap
  {
    if k == 0 {
      assert calls[..0] == [];
    } else {
      hide Exposed, Calm, Replay;
      ExposureAfter(ts, calls, k - 1, used, cap);
      ReplayStep(ts, calls, k);
      CallKeepsExposure(Replay(ts, calls[..k - 1]), calls[k - 1], used, cap);
    }
  }

  /** Cut off after any call, a poll over any torrents whatever their tags exposes at most the cap. */
  lemma PollKeepsExposure(ts: seq<Torrent>, used: int, cap: int, k: nat)
    requires cap < MAX_INT64 && Exposed(ts, used) <= cap && k <= |Poll(ts, used, cap).p.calls|
    ensures InRange(Poll(ts, used, cap).p.calls[..k], |ts|)
    ensures Exposed(Replay(ts, Poll(ts, used, cap).p.calls[..k]), used) <= cap
  {
    hide GuardedFrom, Poll, Exposed;
    PollIsGuarded(ts, used, cap, false);
    ExposureAfter(ts, Poll(ts, used, cap).p.calls, k, used, cap);
  }

  // ---- data that comes in while a poll runs ------------------------------------------------------------------------

  /** Only a torrent that is to be rejected can stop being held in a poll. */
  predicate KeepsHolding(ts: seq<Torrent>, calls: seq<Call>, cap: int)
    requires InRange(calls, |ts|)
  {
    forall j :: 0 <= j < |calls| && EndsHolding(calls[j]) ==> MustReject(ts[calls[j].i], cap)
  }

  lemma {:induction false} NormalizationKeepsHolding(ts: seq<Torrent>, cap: int, n: nat)
    requires n <= |ts| && InRange(NormalizeUpTo(ts, cap, n).calls, |ts|)
    ensures KeepsHolding(ts, NormalizeUpTo(ts, cap, n).calls, cap)
  {
    hide NormalizeView;
    if n > 0 {
      var before, v := NormalizeUpTo(ts, cap, n - 1).calls, NormalizeView(n - 1, ts[n - 1], cap);
      NormalizeSynced(ts, cap, n - 1);
      NormalizationKeepsHolding(ts, cap, n - 1);
      NormalizeTracks(n - 1, ts[n - 1], cap);
      NormalizeIsLawful(n - 1, ts[n - 1], cap);
      assert NormalizeUpTo(ts, cap, n).calls == before + v.calls;
    }
  }

  lemma RestKeepsHolding(ts: seq<Torrent>, first: seq<Call>, calls: seq<Call>, deletions: seq<Call>, cap: int)
    requires first <= calls && InRange(calls + deletions, |ts|) && InRange(calls, |ts|) && InRange(first, |ts|)
    requires KeepsHolding(ts, first, cap) && CarefulFrom(ts, calls, |first|, cap)
    requires forall j :: 0 <= j < |deletions| ==> deletions[j].Delete?
    ensures KeepsHolding(ts, calls + deletions, cap)
  {
    hide Timely, Replay;
    var all := calls + deletions;
    forall j | 0 <= j < |all| && EndsHolding(all[j])
      ensures MustReject(ts[all[j].i], cap)
    {
      if j < |first| {
        assert all[j] == first[j];
      }
    }
  }

  lemma PollKeepsHolding(ts: seq<Torrent>, used: int, cap: int)
    requires cap < MAX_INT64 && InRange(Poll(ts, used, cap).p.calls, |ts|)
    ensures KeepsHolding(ts, Poll(ts, used, cap).p.calls, cap)
  {
    if RetentionOrder(ts) == [] {
      var p, first := Prepared(ts, used, cap), NormalizeUpTo(ts, cap, |ts|).calls;
      var a := AdmitFrom(p, Candidates(p, cap), used, cap);
      NormalizeSynced(ts, cap, |ts|);
      NormalizationKeepsHolding(ts, cap, |ts|);
      AdmissionIsCareful(ts, used, cap);
      RestKeepsHolding(ts, first, a.p.calls, Deletions(a.evicted), cap);
    }
  }

  /** The torrents that were running at some time while the calls went out. */
  function Ran(ts: seq<Torrent>, calls: seq<Call>): set<nat>
    requires InRange(calls, |ts|)
  {
    (set x: nat | x < |ts| && Running(Replay(ts, calls)[x])) +
    if calls == [] then {} else Ran(ts, calls[..|calls| - 1])
  }

  /** Those of them that the poll does not reject. */
  function Kept(ts: seq<Torrent>, calls: seq<Call>, cap: int): set<nat>
    requires InRange(calls, |ts|)
  {
    set x: nat | x in Ran(ts, calls) && x < |ts| && !MustReject(ts[x], cap)
  }

  /** The room of the running torrents and of those in `kept`. */
  function Reach(ws: seq<Torrent>, kept: set<nat>, n: nat): (r: int)
    requires n <= |ws|
    ensures 0 <= r
  {
    if n == 0 then 0
    else Reach(ws, kept, n - 1) +
         if Running(ws[n - 1]) || n - 1 in kept then Max0(ws[n - 1].size) - Materialized(ws[n - 1]) else 0
  }

  lemma {:induction false} ReachBound(ws: seq<Torrent>, kept: set<nat>, n: nat)
    requires n <= |ws| && forall x :: x in kept && x < |ws| ==> Held(ws[x])
    ensures Reach(ws, kept, n) <= Reserved(ws, NO_CANDIDATE, {}, n) - OnDisk(ws, NO_CANDIDATE, {}, n)
  {
    if n > 0 {
      ReachBound(ws, kept, n - 1);
    }
  }

  lemma {:induction false} ReachShrinks(ws: seq<Torrent>, kept: set<nat>, us: seq<Torrent>, kept': set<nat>, n: nat)
    requires n <= |ws| == |us|
    requires forall x: nat :: x < |ws| ==> us[x].size == ws[x].size && us[x].completed == ws[x].completed
    requires forall x: nat :: x < |ws| && (Running(us[x]) || x in kept') ==> Running(ws[x]) || x in kept
    ensures Reach(us, kept', n) <= Reach(ws, kept, n)
  {
    if n > 0 {
      ReachShrinks(ws, kept, us, kept', n - 1);
    }
  }

  lemma ReachWithin(ws: seq<Torrent>, kept: set<nat>, used: int)
    requires forall x :: x in kept && x < |ws| ==> Held(ws[x])
    ensures used + Reach(ws, kept, |ws|) <= Holdings(ws, used)
  {
    ReachBound(ws, kept, |ws|);
    TotalsBounds(ws, NO_CANDIDATE, {}, |ws|);
  }

  lemma CalmRunning(ws: seq<Torrent>, c: Call, used: int, cap: int)
    requires c.i < |ws| && Calm(ws, c, used, cap) && !c.Start?
    ensures var u := Effect(ws[c.i], c);
            u.size == ws[c.i].size && u.completed == ws[c.i].completed && (Running(u) ==> Running(ws[c.i]))
  {
    hide Committed;
    StoppedState();
  }

  /** One calm call that does not end the holding of a kept torrent. */
  lemma CallKeepsReach(ws: seq<Torrent>, kept: set<nat>, c: Call, kept': set<nat>, used: int, cap: int, limit: int)
    requires c.i < |ws| && Calm(ws, c, used, cap) && used + Reach(ws, kept, |ws|) <= limit && cap <= limit
    requires var us := ws[c.i := Effect(ws[c.i], c)];
             && (forall x :: x in kept' && x < |ws| ==> Held(us[x]))
             && forall x :: x in kept' && x < |ws| ==> x in kept || Running(us[x])
    ensures used + Reach(ws[c.i := Effect(ws[c.i], c)], kept', |ws|) <= limit
  {
    var us := ws[c.i := Effect(ws[c.i], c)];
    if c.Start? {
      AdmittedTotals(ws, c.i, us[c.i], |ws|);
      TotalsBounds(ws, c.i, {}, |ws|);
      TotalsBounds(us, NO_CANDIDATE, {}, |ws|);
      ReachWithin(us, kept', used);
    } else {
      CalmRunning(ws, c, used, cap);
      ReachShrinks(ws, kept, us, kept', |ws|);
    }
  }

  lemma {:induction false} ReachAtFirst(ts: seq<Torrent>, kept: set<nat>, n: nat)
    requires n <= |ts| && forall x :: x in kept && x < |ts| ==> Running(ts[x])
    ensures Reach(ts, kept, n) == Rooms(ts, n)
  {
    if n > 0 {
      ReachAtFirst(ts, kept, n - 1);
    }
  }

  lemma KeptGrows(ts: seq<Torrent>, calls: seq<Call>, k: nat, cap: int)
    requires InRange(calls, |ts|) && 0 < k <= |calls|
    ensures forall x :: x in Kept(ts, calls[..k], cap) ==> x < |ts| && !MustReject(ts[x], cap)
    ensures forall x :: x in Kept(ts, calls[..k], cap) ==>
              x in Kept(ts, calls[..k - 1], cap) || Running(Replay(ts, calls[..k])[x])
  {
    hide Replay, Running;
    assert calls[..k][..k - 1] == calls[..k - 1];
  }

  lemma HoldingGoesOn(ts: seq<Torrent>, ws: seq<Torrent>, c: Call, kept: set<nat>, kept': set<nat>, cap: int)
    requires c.i < |ts| == |ws| && (EndsHolding(c) ==> MustReject(ts[c.i], cap))
    requires forall x :: x in kept ==> x < |ts| && Held(ws[x])
    requires forall x :: x in kept' ==> x < |ts| && !MustReject(ts[x], cap)
    requires forall x :: x in kept' ==> x in kept || Running(ws[c.i := Effect(ws[c.i], c)][x])
    ensures forall x :: x in kept' ==> Held(ws[c.i := Effect(ws[c.i], c)][x])
  {
  }

  /** What a poll lets in while it runs, from its start to its k-th call. */
  lemma {:induction false} PollKeepsReach(ts: seq<Torrent>, calls: seq<Call>, k: nat, used: int, cap: int, limit: int)
    requires InRange(calls, |ts|) && GuardedFrom(ts, calls, 0, used, cap, false) && KeepsHolding(ts, calls, cap)
    requires k <= |calls| && Exposed(ts, used) <= limit && cap <= limit
    ensures var ws, kept := Replay(ts, calls[..k]), Kept(ts, calls[..k], cap);
            used + Reach(ws, kept, |ts|) <= limit && forall x :: x in kept ==> x < |ts| && Held(ws[x])
  {
    if k == 0 {
      assert calls[..0] == [];
      ReachAtFirst(ts, Kept(ts, [], cap), |ts|);
    } else {
      hide Calm, Reach, Exposed;
      PollKeepsReach(ts, calls, k - 1, used, cap, limit);
      ReplayStep(ts, calls, k);
      var ws, c := Replay(ts, calls[..k - 1]), calls[k - 1];
      KeptGrows(ts, calls, k, cap);
      HoldingGoesOn(ts, ws, c, Kept(ts, calls[..k - 1], cap), Kept(ts, calls[..k], cap), cap);
      CallKeepsReach(ws, Kept(ts, calls[..k - 1], cap), c, Kept(ts, calls[..k], cap), used, cap, limit);
    }
  }

  /** Data that came in, torrent by torrent. */
  predicate Fitting(ws: seq<Torrent>, gains: seq<nat>) {
    |gains| == |ws| && forall x: nat :: x < |ws| && gains[x] > 0 ==>
      0 <= ws[x].completed && ws[x].completed + gains[x] <= ws[x].size
  }

  function Grown(ws: seq<Torrent>, gains: seq<nat>): (us: seq<Torrent>)
    requires Fitting(ws, gains)
    ensures |us| == |ws|
  {
    seq(|ws|, x requires 0 <= x < |ws| =>
      if gains[x] == 0 then ws[x] else ws[x].(completed := ws[x].completed + gains[x]))
  }

  function Total(gains: seq<nat>, n: nat): nat
    requires n <= |gains|
  {
    if n == 0 then 0 else Total(gains, n - 1) + gains[n - 1]
  }

  /** What came in for torrents outside `kept`. */
  function StrayTotal(gains: seq<nat>, kept: set<nat>, n: nat): nat
    requires n <= |gains|
  {
    if n == 0 then 0 else StrayTotal(gains, kept, n - 1) + if n - 1 in kept then 0 else gains[n - 1]
  }

  lemma {:induction false} GrownReach(ws: seq<Torrent>, gains: seq<nat>, kept: set<nat>, n: nat)
    requires Fitting(ws, gains) && n <= |ws|
    ensures Total(gains, n) + Rooms(Grown(ws, gains), n) <= Reach(ws, kept, n) + StrayTotal(gains, kept, n)
  {
    if n > 0 {
      GrownReach(ws, gains, kept, n - 1);
    }
  }

  /**
    Data may come in all the while a poll runs, although the poll goes by the figures it started with: only what came
    in for torrents this very poll rejects can take the exposed bytes above the cap.
   */
  lemma GrowingPollKeepsExposure(ts: seq<Torrent>, used: int, cap: int, k: nat, gains: seq<nat>, limit: int)
    requires cap < MAX_INT64 && cap <= limit && Exposed(ts, used) <= limit && k <= |Poll(ts, used, cap).p.calls|
    requires InRange(Poll(ts, used, cap).p.calls[..k], |ts|)
    requires Fitting(Replay(ts, Poll(ts, used, cap).p.calls[..k]), gains)
    ensures var calls := Poll(ts, used, cap).p.calls[..k];
            Exposed(Grown(Replay(ts, calls), gains), used + Total(gains, |gains|))
            <= limit + StrayTotal(gains, Kept(ts, calls, cap), |gains|)
  {
    hide GuardedFrom, Poll, Kept, KeepsHolding;
    var calls := Poll(ts, used, cap).p.calls;
    PollIsGuarded(ts, used, cap, false);
    PollKeepsHolding(ts, used, cap);
    PollKeepsReach(ts, calls, k, used, cap, limit);
    GrownReach(Replay(ts, calls[..k]), gains, Kept(ts, calls[..k], cap), |ts|);
  }
}
