/** Admission survives a poll that is cut off after any API call. */
module HousekeeperCrash {
  import opened Sums
  import opened HousekeeperCapacity
  import opened HousekeeperPoll
  import opened HousekeeperTheorems

  /** Normalization never starts a torrent and never reserves one. */
  predicate Quiet(c: Call) {
    !c.Start? && !(c.AddTag? && c.tag == Admitted)
  }

  /** After normalization a reservation is never taken back. */
  predicate KeepsReservations(c: Call) {
    (c.AddTag? ==> c.tag == Admitted) && (c.RemoveTags? ==> Admitted !in c.tags)
  }

  /** Independent of the run state: a pass never rejects such a torrent. */
  predicate Acceptable(t: Torrent, cap: int) {
    t.inside && t.size <= cap
  }

  /** A start hits an acceptable torrent that is reserved by then; a reservation, one not rejected. */
  predicate Timely(t: Torrent, c: Call, cap: int) {
    (c.Start? ==> Held(t) && Acceptable(t, cap)) &&
    (c.AddTag? ==> Rejected !in t.tags && Acceptable(t, cap))
  }

  predicate AllQuiet(calls: seq<Call>) {
    forall k :: 0 <= k < |calls| ==> Quiet(calls[k])
  }

  lemma StepsAreQuiet(i: nat, v: View, was: string, tag: Tag, tags: set<Tag>)
    requires AllQuiet(v.calls) && tag != Admitted
    ensures AllQuiet(Stopped(i, v, was).calls) && AllQuiet(Tagged(i, v, tag).calls) && AllQuiet(Untagged(i, v, tags).calls)
  {
  }

  lemma RejectIsQuiet(i: nat, v: View)
    requires AllQuiet(v.calls)
    ensures AllQuiet(RejectView(i, v).calls)
  {
    StepsAreQuiet(i, v, v.t.state, Rejected, {});
    var stopped := Stopped(i, v, v.t.state);
    StepsAreQuiet(i, stopped, v.t.state, Rejected, {});
    var marked := if Rejected in stopped.t.tags then stopped else Tagged(i, stopped, Rejected);
    StepsAreQuiet(i, marked, v.t.state, Rejected, {Waiting, Admitted});
  }

  lemma NormalizeIsQuiet(i: nat, t: Torrent, cap: int)
    ensures AllQuiet(NormalizeView(i, t, cap).calls)
  {
    var v := View(t, [], false);
    RejectIsQuiet(i, v);
    StepsAreQuiet(i, v, t.state, Waiting, {});
    var tagged := Tagged(i, Stopped(i, v, t.state), Waiting);
    StepsAreQuiet(i, Stopped(i, v, t.state), t.state, Waiting, {});
    StepsAreQuiet(i, tagged, t.state, Waiting, {Rejected});
    var freed := if Rejected in t.tags then Untagged(i, tagged, {Rejected}) else v;
    StepsAreQuiet(i, freed, t.state, Waiting, {});
    StepsAreQuiet(i, Stopped(i, freed, t.state).(blocked := !IsStopped(t.state)), t.state, Waiting, {});
  }

  lemma {:induction false} NormalizationIsQuiet(ts: seq<Torrent>, cap: int, n: nat)
    requires n <= |ts|
    ensures AllQuiet(NormalizeUpTo(ts, cap, n).calls)
  {
    if n > 0 {
      NormalizationIsQuiet(ts, cap, n - 1);
      NormalizeIsQuiet(n - 1, ts[n - 1], cap);
    }
  }

  /** From call `from` on, `calls` keep reservations and are timely for the list they meet. */
  predicate CarefulFrom(ts: seq<Torrent>, calls: seq<Call>, from: nat, cap: int)
    requires InRange(calls, |ts|) && from <= |calls|
  {
    forall j :: from <= j < |calls| ==>
      KeepsReservations(calls[j]) && Timely(Replay(ts, calls[..j])[calls[j].i], calls[j], cap)
  }

  /** The same for the calls of a view, which all concern one torrent. */
  predicate CarefulView(t: Torrent, calls: seq<Call>, cap: int) {
    forall j :: 0 <= j < |calls| ==> KeepsReservations(calls[j]) && Timely(EffectAll(t, calls[..j]), calls[j], cap)
  }

  lemma PutCareful(ts: seq<Torrent>, p: Phase, i: nat, v: View, cap: int, from: nat)
    requires Synced(ts, p) && i < |ts| && Tracks(i, p.ts[i], v) && CarefulView(p.ts[i], v.calls, cap)
    requires from <= |p.calls| && CarefulFrom(ts, p.calls, from, cap)
    ensures Synced(ts, Put(p, i, v)) && CarefulFrom(ts, Put(p, i, v).calls, from, cap)
  {
    PutSynced(ts, p, i, v);
    var calls := p.calls + v.calls;
    forall j | from <= j < |calls|
      ensures KeepsReservations(calls[j]) && Timely(Replay(ts, calls[..j])[calls[j].i], calls[j], cap)
    {
      if j < |p.calls| {
        assert calls[..j] == p.calls[..j];
      } else {
        var m := j - |p.calls|;
        assert calls[..j] == p.calls + v.calls[..m];
        ReplayOne(p.ts, v.calls[..m], i);
        ReplayConcat(ts, p.calls, v.calls[..m]);
        assert calls[j] == v.calls[m] && calls[j].i == i;
      }
    }
  }

  lemma FinishIsCareful(i: nat, t: Torrent, fits: bool, cap: int)
    requires Interrupted(t) && fits ==> Acceptable(t, cap)
    ensures CarefulView(t, FinishView(i, t, fits).calls, cap)
  {
    var calls := FinishView(i, t, fits).calls;
    forall j | 0 <= j < |calls|
      ensures KeepsReservations(calls[j]) && Timely(EffectAll(t, calls[..j]), calls[j], cap)
    {
      assert calls[..0] == [];
    }
  }

  lemma AdmitIsCareful(i: nat, t: Torrent, cap: int)
    requires Rejected !in t.tags && Acceptable(t, cap)
    ensures CarefulView(t, AdmitView(i, t).calls, cap)
  {
    var calls := AdmitView(i, t).calls;
    assert calls[0] == AddTag(i, Admitted) && calls[1] == Start(i);
    assert calls[..1] == [AddTag(i, Admitted)];
    assert [AddTag(i, Admitted)][..0] == [];
    assert EffectAll(t, calls[..1]) == t.(tags := t.tags + {Admitted});
    forall j | 0 <= j < |calls|
      ensures KeepsReservations(calls[j]) && Timely(EffectAll(t, calls[..j]), calls[j], cap)
    {
      assert calls[..0] == [];
      if j == 2 {
        assert calls[2].RemoveTags? && Admitted !in calls[2].tags;
      }
    }
  }

  lemma {:induction false} TermBelowTotal(ts: seq<Torrent>, i: nat, n: nat)
    requires i < |ts| && n <= |ts|
    ensures (if i < n then Max0(ts[i].size) else 0) <= Reserved(ts, i, {}, n)
  {
    if n > 0 {
      TermBelowTotal(ts, i, n - 1);
    }
  }

  lemma FittingIsSmall(ts: seq<Torrent>, i: nat, used: int, cap: int)
    requires i < |ts| && cap <= MAX_INT64 && Fits(ts, i, {}, used, cap)
    ensures ts[i].size <= cap
  {
    TermBelowTotal(ts, i, |ts|);
  }

  lemma {:induction false} FinishCareful(ts: seq<Torrent>, p: Phase, used: int, cap: int, n: nat)
    requires n <= |p.ts| == |ts| && Synced(ts, p) && cap <= MAX_INT64
    requires forall i :: 0 <= i < |ts| && Interrupted(p.ts[i]) ==> p.ts[i].inside
    ensures var q := FinishUpTo(p, used, cap, n);
            Synced(ts, q) && |p.calls| <= |q.calls| && CarefulFrom(ts, q.calls, |p.calls|, cap) && p.calls <= q.calls
  {
    if n > 0 {
      FinishCareful(ts, p, used, cap, n - 1);
      var q := FinishUpTo(p, used, cap, n - 1);
      assert q.ts[n - 1] == q.ts[n - 1..][0] == p.ts[n - 1..][0];
      var fits := Fits(q.ts, n - 1, {}, used, cap);
      FinishTracks(n - 1, p.ts[n - 1], fits);
      if fits {
        FittingIsSmall(q.ts, n - 1, used, cap);
      }
      FinishIsCareful(n - 1, p.ts[n - 1], fits, cap);
      PutCareful(ts, q, n - 1, FinishView(n - 1, p.ts[n - 1], fits), cap, |p.calls|);
    }
  }

  predicate AcceptableOrder(ts: seq<Torrent>, order: seq<nat>, cap: int)
    requires Indices(order, |ts|)
  {
    forall k :: 0 <= k < |order| ==> Rejected !in ts[order[k]].tags && Acceptable(ts[order[k]], cap)
  }

  lemma OrderTail(ts: seq<Torrent>, order: seq<nat>, u: Torrent, cap: int)
    requires Indices(order, |ts|) && order != [] && AcceptableOrder(ts, order, cap)
    ensures Indices(order[1..], |ts|) && AcceptableOrder(ts[order[0] := u], order[1..], cap)
    ensures AcceptableOrder(ts, order[1..], cap)
  {
  }

  lemma {:induction false} AdmitCareful(ts: seq<Torrent>, p: Phase, order: seq<nat>, used: int, cap: int, from: nat)
    requires Indices(order, |p.ts|) && |p.ts| == |ts| && Synced(ts, p)
    requires from <= |p.calls| && CarefulFrom(ts, p.calls, from, cap)
    requires AcceptableOrder(p.ts, order, cap)
    ensures var q := AdmitFrom(p, order, used, cap).p;
            Synced(ts, q) && from <= |q.calls| && CarefulFrom(ts, q.calls, from, cap)
    decreases |order|
  {
    if order != [] {
      var i := order[0];
      var v := AdmitView(i, p.ts[i]);
      OrderTail(p.ts, order, v.t, cap);
      if !IsStopped(p.ts[i].state) {
        AdmitCareful(ts, p, order[1..], used, cap, from);
      } else if Fits(p.ts, i, {}, used, cap) {
        AdmitTracks(i, p.ts[i]);
        AdmitIsCareful(i, p.ts[i], cap);
        PutCareful(ts, p, i, v, cap, from);
        AdmitCareful(ts, Put(p, i, v), order[1..], used, cap, from);
      }
    }
  }

  lemma DeletionsCareful(ts: seq<Torrent>, calls: seq<Call>, xs: seq<nat>, from: nat, cap: int)
    requires InRange(calls, |ts|) && from <= |calls| && CarefulFrom(ts, calls, from, cap)
    requires forall k :: 0 <= k < |xs| ==> xs[k] < |ts|
    ensures InRange(calls + Deletions(xs), |ts|) && CarefulFrom(ts, calls + Deletions(xs), from, cap)
  {
    var all := calls + Deletions(xs);
    forall j | from <= j < |all|
      ensures KeepsReservations(all[j]) && Timely(Replay(ts, all[..j])[all[j].i], all[j], cap)
    {
      if j < |calls| {
        assert all[..j] == calls[..j];
      }
    }
  }

  lemma PreparationIsCareful(ts: seq<Torrent>, used: int, cap: int)
    requires cap <= MAX_INT64
    ensures var q, p := NormalizeUpTo(ts, cap, |ts|), Prepared(ts, used, cap);
            && AllQuiet(q.calls) && q.calls <= p.calls && Synced(ts, p)
            && CarefulFrom(ts, p.calls, |q.calls|, cap)
  {
    var q := NormalizeUpTo(ts, cap, |ts|);
    NormalizeSynced(ts, cap, |ts|);
    NormalizationIsQuiet(ts, cap, |ts|);
    NormalizationFixedPoint(ts, cap);
    assert forall i :: 0 <= i < |ts| && Interrupted(q.ts[i]) ==>
             Normal(q.ts[i], cap) && q.ts[i].inside && (MetadataReady(q.ts[i]) ==> q.ts[i].size <= cap);
    FinishCareful(ts, q, used, cap, |ts|);
  }

  lemma CandidatesAreAcceptable(ts: seq<Torrent>, used: int, cap: int)
    ensures var p := Prepared(ts, used, cap);
            AcceptableOrder(p.ts, Candidates(p, cap), cap)
  {
    var p := Prepared(ts, used, cap);
    var order := Candidates(p, cap);
    CandidatesAreStopped(ts, used, cap);
    forall k | 0 <= k < |order|
      ensures Rejected !in p.ts[order[k]].tags && Acceptable(p.ts[order[k]], cap)
    {
      assert order[k] in order;
      assert Candidate(p, order[k], cap);
    }
  }

  lemma AdmissionIsCareful(ts: seq<Torrent>, used: int, cap: int)
    requires cap <= MAX_INT64
    ensures var q, p := NormalizeUpTo(ts, cap, |ts|), Prepared(ts, used, cap);
            var a := AdmitFrom(p, Candidates(p, cap), used, cap);
            && AllQuiet(q.calls) && q.calls <= a.p.calls && Synced(ts, a.p)
            && CarefulFrom(ts, a.p.calls, |q.calls|, cap)
  {
    var p := Prepared(ts, used, cap);
    PreparationIsCareful(ts, used, cap);
    CandidatesAreAcceptable(ts, used, cap);
    AdmitExtendsCalls(p, Candidates(p, cap), used, cap);
    AdmitCareful(ts, p, Candidates(p, cap), used, cap, |NormalizeUpTo(ts, cap, |ts|).calls|);
  }

  /** A poll's calls are quiet up to the end of normalization and careful from there on. */
  lemma PollIsCareful(ts: seq<Torrent>, used: int, cap: int) returns (from: nat)
    requires cap <= MAX_INT64
    ensures var calls := Poll(ts, used, cap).p.calls;
            && InRange(calls, |ts|) && from <= |calls|
            && AllQuiet(calls[..from]) && CarefulFrom(ts, calls, from, cap)
  {
    var expired := RetentionOrder(ts);
    if expired != [] {
      from := |Deletions(expired)|;
      DeletionsReplay(ts, expired);
    } else {
      var p := Prepared(ts, used, cap);
      var quiet := NormalizeUpTo(ts, cap, |ts|).calls;
      from := |quiet|;
      AdmissionIsCareful(ts, used, cap);
      EvictedAreEligible(p, Candidates(p, cap), used, cap);
      var a := AdmitFrom(p, Candidates(p, cap), used, cap);
      DeletionsCareful(ts, a.p.calls, a.evicted, from, cap);
      assert (a.p.calls + Deletions(a.evicted))[..from] == quiet;
    }
  }

  /** The engine reserved or started torrent `i` within `calls`. */
  predicate Touched(calls: seq<Call>, i: nat) {
    Start(i) in calls || AddTag(i, Admitted) in calls
  }

  lemma CarefulStep(t: Torrent, c: Call, cap: int)
    requires KeepsReservations(c) && Timely(t, c, cap)
    requires (Held(t) && Acceptable(t, cap)) || c.Start? || (c.AddTag? && c.tag == Admitted)
    ensures Held(Effect(t, c)) && Acceptable(Effect(t, c), cap)
  {
  }

  lemma UntouchedWhileQuiet(calls: seq<Call>, from: nat, k: nat, i: nat)
    requires from <= |calls| && k <= |calls| && AllQuiet(calls[..from])
    ensures Touched(calls[..k], i) ==> from < k
  {
    if k <= from {
      assert calls[..k] == calls[..from][..k];
      assert AllQuiet(calls[..k]);
    }
  }

  lemma ReplayStep(ts: seq<Torrent>, calls: seq<Call>, k: nat)
    requires InRange(calls, |ts|) && 0 < k <= |calls|
    ensures calls[..k] == calls[..k - 1] + [calls[k - 1]]
    ensures var c, before := calls[k - 1], Replay(ts, calls[..k - 1]);
            Replay(ts, calls[..k]) == before[c.i := Effect(before[c.i], c)]
  {
    assert calls[..k][..k - 1] == calls[..k - 1];
  }

  lemma {:induction false} TouchedStaysHeld(ts: seq<Torrent>, calls: seq<Call>, from: nat, k: nat, i: nat, cap: int)
    requires InRange(calls, |ts|) && from <= |calls| && k <= |calls| && i < |ts|
    requires AllQuiet(calls[..from]) && CarefulFrom(ts, calls, from, cap)
    requires Touched(calls[..k], i)
    ensures Held(Replay(ts, calls[..k])[i]) && Acceptable(Replay(ts, calls[..k])[i], cap)
  {
    hide Timely, KeepsReservations, Effect, Acceptable, Held, Quiet;
    UntouchedWhileQuiet(calls, from, k, i);
    var c := calls[k - 1];
    ReplayStep(ts, calls, k);
    if Touched(calls[..k - 1], i) {
      TouchedStaysHeld(ts, calls, from, k - 1, i, cap);
    }
    if c.i == i {
      CarefulStep(Replay(ts, calls[..k - 1])[i], c, cap);
    }
  }

  /**
    Crash safety: cut a poll off after any number `k` of API calls. Every torrent the engine has
    reserved or started by then is reserved by the accounting of the next poll, which never rejects it.
   */
  lemma CrashLeavesReservations(ts: seq<Torrent>, used: int, cap: int, k: nat, i: nat)
    requires cap <= MAX_INT64 && k <= |Poll(ts, used, cap).p.calls| && i < |ts|
    requires Touched(Poll(ts, used, cap).p.calls[..k], i)
    ensures InRange(Poll(ts, used, cap).p.calls[..k], |ts|)
    ensures var w := Replay(ts, Poll(ts, used, cap).p.calls[..k]);
            Held(w[i]) && !MustReject(w[i], cap)
  {
    var from := PollIsCareful(ts, used, cap);
    TouchedStaysHeld(ts, Poll(ts, used, cap).p.calls, from, k, i, cap);
  }

  /** Completing interrupted admissions does not change what any check sees. */
  lemma {:induction false} TotalsOfSame(ts: seq<Torrent>, us: seq<Torrent>, cand: int, n: nat)
    requires n <= |ts| == |us|
    requires forall i :: 0 <= i < |ts| ==>
               ts[i].size == us[i].size && ts[i].completed == us[i].completed && Held(ts[i]) == Held(us[i])
    ensures Reserved(ts, cand, {}, n) == Reserved(us, cand, {}, n)
    ensures OnDisk(ts, cand, {}, n) == OnDisk(us, cand, {}, n)
    ensures Reclaimed(ts, {}, n) == Reclaimed(us, {}, n)
  {
    if n > 0 {
      TotalsOfSame(ts, us, cand, n - 1);
    }
  }

  lemma FinishKeepsFits(p: Phase, used: int, cap: int, n: nat, cand: int)
    requires n <= |p.ts|
    ensures Fits(FinishUpTo(p, used, cap, n).ts, cand, {}, used, cap) <==> Fits(p.ts, cand, {}, used, cap)
  {
    FinishPointwise(p, used, cap, n);
    TotalsOfSame(FinishUpTo(p, used, cap, n).ts, p.ts, cand, |p.ts|);
  }

  lemma {:induction false} FinishedAt(p: Phase, used: int, cap: int, n: nat, i: nat)
    requires i < n <= |p.ts|
    ensures FinishUpTo(p, used, cap, n).ts[i] == FinishView(i, p.ts[i], Fits(p.ts, i, {}, used, cap)).t
  {
    if i == n - 1 {
      FinishKeepsFits(p, used, cap, n - 1, i);
    } else {
      FinishedAt(p, used, cap, n - 1, i);
    }
  }

  /**
    Recovery: a torrent a crash left reserved but still waiting is completed by the next poll's
    preparation whenever capacity still allows; it ends started, admitted and no longer waiting.
   */
  lemma InterruptedAdmissionCompletes(ts: seq<Torrent>, used: int, cap: int, i: nat)
    requires i < |ts| && Interrupted(ts[i]) && !MustReject(ts[i], cap)
    requires Fits(NormalizeUpTo(ts, cap, |ts|).ts, i, {}, used, cap)
    ensures var u := Prepared(ts, used, cap).ts[i];
            !IsStopped(u.state) && Admitted in u.tags && Waiting !in u.tags && Rejected !in u.tags
  {
    var q := NormalizeUpTo(ts, cap, |ts|);
    NormalizedPointwise(ts, cap, |ts|);
    NormalIsFixed(i, ts[i], cap);
    FinishedAt(q, used, cap, |ts|, i);
    FinishOne(i, ts[i], true);
    FinishPointwise(q, used, cap, |ts|);
  }

  /** Both together: whatever call a poll was cut off after, the next one finishes the admission. */
  lemma CrashedAdmissionCompletes(ts: seq<Torrent>, used: int, cap: int, k: nat, i: nat, used': int)
    requires cap <= MAX_INT64 && k <= |Poll(ts, used, cap).p.calls| && i < |ts|
    requires Touched(Poll(ts, used, cap).p.calls[..k], i)
    requires InRange(Poll(ts, used, cap).p.calls[..k], |ts|)
    requires var w := Replay(ts, Poll(ts, used, cap).p.calls[..k]);
             Waiting in w[i].tags && Fits(NormalizeUpTo(w, cap, |ts|).ts, i, {}, used', cap)
    ensures var u := Prepared(Replay(ts, Poll(ts, used, cap).p.calls[..k]), used', cap).ts[i];
            !IsStopped(u.state) && Held(u) && Waiting !in u.tags
  {
    CrashLeavesReservations(ts, used, cap, k, i);
    InterruptedAdmissionCompletes(Replay(ts, Poll(ts, used, cap).p.calls[..k]), used', cap, i);
  }
}
