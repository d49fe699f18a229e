/**
  The committed bytes of the housekeeper call by call: which calls of a poll reserve anything, and when a poll keeps
  the commitment within the cap at each of them.
 */
module HousekeeperCommitment {
  import opened Sums
  import opened HousekeeperCapacity
  import opened HousekeeperPoll
  import opened HousekeeperTheorems
  import opened HousekeeperCrash

  predicate Clean(t: Torrent, cap: int) {
    Acceptable(t, cap) ==> !(Admitted in t.tags && Rejected in t.tags)
  }

  /**
    No torrent inside the root that is small enough is both admitted and rejected. The engine takes the rejected
    tag off such a torrent without asking whether it fits; it leaves both tags itself only on a torrent it was
    about to reject, when the poll is cut off between tagging and untagging it.
   */
  predicate CleanTags(ts: seq<Torrent>, cap: int) {
    forall i :: 0 <= i < |ts| ==> Clean(ts[i], cap)
  }

  /** A call that reserves nothing: it rejects what is not acceptable, and clears only what is not admitted. */
  predicate Harmless(t: Torrent, c: Call, cap: int) {
    && (c.AddTag? ==> c.tag != Admitted && (c.tag == Rejected ==> !Acceptable(t, cap)))
    && (c.RemoveTags? && Rejected in c.tags ==> Admitted !in t.tags)
  }

  /** A reservation of a torrent that is not rejected and fits when it is made. */
  predicate Reservation(ws: seq<Torrent>, c: Call, used: int, cap: int)
    requires c.i < |ws|
  {
    c == AddTag(c.i, Admitted) && Rejected !in ws[c.i].tags && Committed(ws, c.i, {}, used) <= cap
  }

  /** A torrent that can receive data. */
  predicate Running(t: Torrent) {
    Held(t) && !IsStopped(t.state)
  }

  /** A start is of a stopped, held torrent that fits; only a stopped torrent comes to be held. */
  predicate Calm(ws: seq<Torrent>, c: Call, used: int, cap: int)
    requires c.i < |ws|
  {
    var t := ws[c.i];
    match c
    case Start(i) => Held(t) && IsStopped(t.state) && Committed(ws, i, {}, used) <= cap
    case AddTag(_, tag) => tag == Admitted ==> IsStopped(t.state)
    case RemoveTags(_, tags) => Rejected in tags ==> IsStopped(t.state)
    case _ => true
  }

  /** Every call is calm; a strictly guarded one is also harmless or a reservation. */
  predicate Guarded(ws: seq<Torrent>, c: Call, used: int, cap: int, strict: bool)
    requires c.i < |ws|
  {
    Calm(ws, c, used, cap) && (strict ==> Harmless(ws[c.i], c, cap) || Reservation(ws, c, used, cap))
  }

  // ---- one call keeps the capacity ------------------------------------------------------------------------

  /** A harmless call may end that a torrent is held, but not start it. */
  lemma HarmlessEffect(t: Torrent, c: Call, cap: int)
    requires Harmless(t, c, cap)
    ensures var u := Effect(t, c);
            && u.size == t.size && Materialized(u) == Materialized(t) && (Held(u) ==> Held(t))
            && (Clean(t, cap) ==> Clean(u, cap))
  {
  }

  lemma HarmlessKeepsCapacity(ws: seq<Torrent>, c: Call, used: int, cap: int)
    requires c.i < |ws| && Harmless(ws[c.i], c, cap) && Holdings(ws, used) <= cap
    ensures Holdings(ws[c.i := Effect(ws[c.i], c)], used) <= cap
  {
    hide Holdings;
    HarmlessEffect(ws[c.i], c, cap);
    var disk, reserved := HoldingsUpdate(ws, c.i, Effect(ws[c.i], c), used, used);
  }

  lemma ReservationKeepsCapacity(ws: seq<Torrent>, c: Call, used: int, cap: int)
    requires c.i < |ws| && Reservation(ws, c, used, cap)
    ensures Holdings(ws[c.i := Effect(ws[c.i], c)], used) <= cap
  {
    var u := Effect(ws[c.i], c);
    AdmittedTotals(ws, c.i, u, |ws|);
    TotalsBounds(ws, c.i, {}, |ws|);
    TotalsBounds(ws[c.i := u], NO_CANDIDATE, {}, |ws|);
  }

  lemma CallKeepsCapacity(ws: seq<Torrent>, c: Call, used: int, cap: int)
    requires c.i < |ws| && Guarded(ws, c, used, cap, true) && Holdings(ws, used) <= cap
    ensures Holdings(ws[c.i := Effect(ws[c.i], c)], used) <= cap
  {
    hide Holdings, Harmless, Reservation, Calm;
    if Harmless(ws[c.i], c, cap) {
      HarmlessKeepsCapacity(ws, c, used, cap);
    } else {
      ReservationKeepsCapacity(ws, c, used, cap);
    }
  }

  // ---- every call of a poll is guarded -----------------------------------------------------------------------

  predicate GuardedFrom(ts: seq<Torrent>, calls: seq<Call>, from: nat, used: int, cap: int, strict: bool)
    requires InRange(calls, |ts|)
  {
    && from <= |calls|
    && forall j :: from <= j < |calls| ==> Guarded(Replay(ts, calls[..j]), calls[j], used, cap, strict)
  }

  /** The same for the calls of a view, which all concern torrent `i`. */
  predicate GuardedView(ws: seq<Torrent>, i: nat, calls: seq<Call>, used: int, cap: int, strict: bool)
    requires i < |ws| && AllAbout(calls, i)
  {
    forall j :: 0 <= j < |calls| ==> Guarded(ws[i := EffectAll(ws[i], calls[..j])], calls[j], used, cap, strict)
  }

  lemma ViewCallGuarded(ts: seq<Torrent>, p: Phase, i: nat, v: View, used: int, cap: int, strict: bool, m: nat)
    requires Synced(ts, p) && i < |ts| && Tracks(i, p.ts[i], v) && GuardedView(p.ts, i, v.calls, used, cap, strict)
    requires m < |v.calls| && InRange(p.calls + v.calls, |ts|)
    ensures var calls := p.calls + v.calls;
            Guarded(Replay(ts, calls[..|p.calls| + m]), calls[|p.calls| + m], used, cap, strict)
  {
    hide Guarded, Replay, EffectAll;
    var calls := p.calls + v.calls;
    assert calls[..|p.calls| + m] == p.calls + v.calls[..m];
    ReplayOne(p.ts, v.calls[..m], i);
    ReplayConcat(ts, p.calls, v.calls[..m]);
  }

  lemma PutGuarded(ts: seq<Torrent>, p: Phase, i: nat, v: View, from: nat, used: int, cap: int, strict: bool)
    requires Synced(ts, p) && i < |ts| && Tracks(i, p.ts[i], v) && GuardedView(p.ts, i, v.calls, used, cap, strict)
    requires GuardedFrom(ts, p.calls, from, used, cap, strict)
    ensures Synced(ts, Put(p, i, v)) && GuardedFrom(ts, Put(p, i, v).calls, from, used, cap, strict)
  {
    hide Guarded, GuardedView, Tracks;
    PutSynced(ts, p, i, v);
    var calls := p.calls + v.calls;
    forall j | from <= j < |calls|
      ensures Guarded(Replay(ts, calls[..j]), calls[j], used, cap, strict)
    {
      if j < |p.calls| {
        assert calls[..j] == p.calls[..j];
      } else {
        ViewCallGuarded(ts, p, i, v, used, cap, strict, j - |p.calls|);
      }
    }
  }

  /** A call that can end that a torrent is held. */
  predicate EndsHolding(c: Call) {
    (c.AddTag? && c.tag == Rejected) || (c.RemoveTags? && Admitted in c.tags)
  }

  /** A call normalization may make about `t`: it admits nothing, and rejects and clears what the listing says. */
  predicate Lawful(t: Torrent, c: Call, cap: int) {
    && Quiet(c) && (EndsHolding(c) ==> MustReject(t, cap))
    && (c.RemoveTags? && Rejected in c.tags ==> Acceptable(t, cap) && Rejected in t.tags)
  }

  predicate AllLawful(t: Torrent, calls: seq<Call>, cap: int) {
    forall k :: 0 <= k < |calls| ==> Lawful(t, calls[k], cap)
  }

  lemma StepsAreLawful(i: nat, t: Torrent, v: View, was: string, tag: Tag, tags: set<Tag>, cap: int)
    requires AllLawful(t, v.calls, cap) && Lawful(t, AddTag(i, tag), cap) && Lawful(t, RemoveTags(i, tags), cap)
    ensures AllLawful(t, Stopped(i, v, was).calls, cap) && AllLawful(t, Tagged(i, v, tag).calls, cap)
    ensures AllLawful(t, Untagged(i, v, tags).calls, cap)
  {
  }

  lemma NothingLawful(t: Torrent, cap: int)
    ensures AllLawful(t, [], cap)
  {
  }

  lemma RejectIsLawful(i: nat, t: Torrent, cap: int)
    requires MustReject(t, cap)
    ensures AllLawful(t, RejectView(i, View(t, [], false)).calls, cap)
  {
    hide AllLawful;
    NothingLawful(t, cap);
    var v := View(t, [], false);
    StepsAreLawful(i, t, v, t.state, Rejected, {}, cap);
    var stopped := Stopped(i, v, t.state);
    StepsAreLawful(i, t, stopped, t.state, Rejected, {}, cap);
    var marked := if Rejected in stopped.t.tags then stopped else Tagged(i, stopped, Rejected);
    StepsAreLawful(i, t, marked, t.state, Rejected, {Waiting, Admitted}, cap);
  }

  lemma NormalizeIsLawful(i: nat, t: Torrent, cap: int)
    ensures AllLawful(t, NormalizeView(i, t, cap).calls, cap)
  {
    hide AllLawful, RejectView;
    NothingLawful(t, cap);
    if MustReject(t, cap) {
      RejectIsLawful(i, t, cap);
    } else if MetadataReady(t) {
      var v := View(t, [], false);
      if Rejected in t.tags {
        StepsAreLawful(i, t, v, t.state, Waiting, {}, cap);
        StepsAreLawful(i, t, Stopped(i, v, t.state), t.state, Waiting, {}, cap);
        StepsAreLawful(i, t, Tagged(i, Stopped(i, v, t.state), Waiting), t.state, Waiting, {Rejected}, cap);
        v := Untagged(i, Tagged(i, Stopped(i, v, t.state), Waiting), {Rejected});
      }
      StepsAreLawful(i, t, v, t.state, Waiting, {}, cap);
      StepsAreLawful(i, t, Stopped(i, v, t.state).(blocked := !IsStopped(t.state)), t.state, Waiting, {}, cap);
    }
  }

  /** The calls so far changed neither size nor place, and admitted nothing. */
  lemma {:induction false} QuietEffect(t: Torrent, calls: seq<Call>)
    requires AllQuiet(calls)
    ensures var u := EffectAll(t, calls);
            && u.size == t.size && u.inside == t.inside && u.completed == t.completed
            && (Admitted in u.tags ==> Admitted in t.tags)
  {
    if calls != [] {
      QuietEffect(t, calls[..|calls| - 1]);
    }
  }

  lemma QuietPrefix(calls: seq<Call>, m: nat)
    requires m <= |calls| && AllQuiet(calls)
    ensures AllQuiet(calls[..m])
  {
  }

  /** Calls that start nothing leave a stopped torrent stopped, and so do all calls after a stop. */
  lemma {:induction false} StaysStopped(t: Torrent, calls: seq<Call>)
    requires AllQuiet(calls) && (IsStopped(t.state) || (calls != [] && calls[0].Stop?))
    ensures IsStopped(EffectAll(t, calls).state)
  {
    StoppedState();
    if |calls| > 1 || (calls != [] && IsStopped(t.state)) {
      QuietPrefix(calls, |calls| - 1);
      StaysStopped(t, calls[..|calls| - 1]);
    } else if calls != [] {
      assert calls[..0] == [];
    }
  }

  /** Before the rejected tag is taken off a torrent, the torrent is stopped. */
  lemma UnrejectStops(i: nat, t: Torrent, cap: int, j: nat)
    requires var calls := NormalizeView(i, t, cap).calls;
             j < |calls| && calls[j].RemoveTags? && Rejected in calls[j].tags
    ensures IsStopped(t.state) || (j > 0 && NormalizeView(i, t, cap).calls[0].Stop?)
  {
  }

  lemma LawfulIsHarmless(t: Torrent, calls: seq<Call>, j: nat, cap: int)
    requires AllLawful(t, calls, cap) && Clean(t, cap) && j < |calls|
    ensures Harmless(EffectAll(t, calls[..j]), calls[j], cap)
  {
    hide EffectAll;
    QuietEffect(t, calls[..j]);
  }

  lemma LawfulIsCalm(ws: seq<Torrent>, i: nat, j: nat, used: int, cap: int)
    requires i < |ws| && j < |NormalizeView(i, ws[i], cap).calls|
    requires AllLawful(ws[i], NormalizeView(i, ws[i], cap).calls, cap) && NormalizeView(i, ws[i], cap).calls[j].i == i
    ensures var calls := NormalizeView(i, ws[i], cap).calls;
            Calm(ws[i := EffectAll(ws[i], calls[..j])], calls[j], used, cap)
  {
    hide EffectAll, NormalizeView, Committed;
    var calls := NormalizeView(i, ws[i], cap).calls;
    if calls[j].RemoveTags? && Rejected in calls[j].tags {
      UnrejectStops(i, ws[i], cap, j);
      StaysStopped(ws[i], calls[..j]);
    }
  }

  lemma NormalizeViewGuarded(ws: seq<Torrent>, i: nat, used: int, cap: int, strict: bool)
    requires i < |ws| && (strict ==> Clean(ws[i], cap))
    ensures Tracks(i, ws[i], NormalizeView(i, ws[i], cap))
    ensures GuardedView(ws, i, NormalizeView(i, ws[i], cap).calls, used, cap, strict)
  {
    hide NormalizeView, AllLawful, Harmless, EffectAll, Calm;
    var v := NormalizeView(i, ws[i], cap);
    NormalizeTracks(i, ws[i], cap);
    NormalizeIsLawful(i, ws[i], cap);
    forall j | 0 <= j < |v.calls|
      ensures Guarded(ws[i := EffectAll(ws[i], v.calls[..j])], v.calls[j], used, cap, strict)
    {
      LawfulIsCalm(ws, i, j, used, cap);
      if strict {
        LawfulIsHarmless(ws[i], v.calls, j, cap);
      }
    }
  }

  lemma NoEffect(ws: seq<Torrent>, i: nat)
    requires i < |ws|
    ensures ws[i := EffectAll(ws[i], [])] == ws
  {
  }

  lemma FinishViewGuarded(ws: seq<Torrent>, i: nat, fits: bool, used: int, cap: int, strict: bool)
    requires i < |ws| && (fits ==> Committed(ws, i, {}, used) <= cap)
    ensures Tracks(i, ws[i], FinishView(i, ws[i], fits))
    ensures GuardedView(ws, i, FinishView(i, ws[i], fits).calls, used, cap, strict)
  {
    hide EffectAll, Committed;
    FinishTracks(i, ws[i], fits);
    assert FinishView(i, ws[i], fits).calls[..0] == [];
    NoEffect(ws, i);
  }

  /** What a candidate is tagged with does not matter for its own check. */
  lemma {:induction false} CandidateTotals(ts: seq<Torrent>, i: nat, u: Torrent, n: nat)
    requires i < |ts| && n <= |ts| && u.size == ts[i].size && u.completed == ts[i].completed
    ensures Reserved(ts[i := u], i, {}, n) == Reserved(ts, i, {}, n) && OnDisk(ts[i := u], i, {}, n) == OnDisk(ts, i, {}, n)
  {
    if n > 0 {
      CandidateTotals(ts, i, u, n - 1);
    }
  }

  lemma CandidateCommitted(ts: seq<Torrent>, i: nat, u: Torrent, used: int)
    requires i < |ts| && u.size == ts[i].size && u.completed == ts[i].completed
    ensures Committed(ts[i := u], i, {}, used) == Committed(ts, i, {}, used)
  {
    CandidateTotals(ts, i, u, |ts|);
    TotalsBounds(ts, i, {}, |ts|);
    TotalsBounds(ts[i := u], i, {}, |ts|);
  }

  /** The calls of an admission: reserve, start, and take off what is left of the other tags. */
  lemma AdmitShape(i: nat, t: Torrent)
    requires Rejected !in t.tags
    ensures var calls := AdmitView(i, t).calls;
            && 2 <= |calls| <= 3 && calls[0] == AddTag(i, Admitted) && calls[1] == Start(i)
            && (|calls| == 3 ==> calls[2].RemoveTags? && Rejected !in calls[2].tags)
            && EffectAll(t, calls[..0]) == t && EffectAll(t, calls[..1]) == t.(tags := t.tags + {Admitted})
  {
    var calls := AdmitView(i, t).calls;
    assert calls[0] == AddTag(i, Admitted) && calls[1] == Start(i);
    assert calls[..0] == [] && calls[..1] == [AddTag(i, Admitted)] && [AddTag(i, Admitted)][..0] == [];
  }

  lemma AboutOne(calls: seq<Call>, i: nat, t: Torrent, j: nat)
    requires calls == AdmitView(i, t).calls && j < |calls|
    ensures calls[j].i == i
  {
    AdmitTracks(i, t);
  }

  lemma AdmitGuarded(ws: seq<Torrent>, i: nat, used: int, cap: int, strict: bool)
    requires i < |ws| && Rejected !in ws[i].tags && IsStopped(ws[i].state) && Committed(ws, i, {}, used) <= cap
    ensures Tracks(i, ws[i], AdmitView(i, ws[i]))
    ensures GuardedView(ws, i, AdmitView(i, ws[i]).calls, used, cap, strict)
  {
    hide Committed, IsStopped, AdmitView, EffectAll, Tracks;
    AdmitTracks(i, ws[i]);
    AdmitShape(i, ws[i]);
    var calls := AdmitView(i, ws[i]).calls;
    assert ws[i := ws[i]] == ws;
    CandidateCommitted(ws, i, ws[i].(tags := ws[i].tags + {Admitted}), used);
    forall j | 0 <= j < |calls|
      ensures calls[j].i == i && Guarded(ws[i := EffectAll(ws[i], calls[..j])], calls[j], used, cap, strict)
    {
      AboutOne(calls, i, ws[i], j);
    }
  }

  lemma {:induction false} NormalizeGuarded(ts: seq<Torrent>, used: int, cap: int, n: nat, strict: bool)
    requires n <= |ts| && (strict ==> CleanTags(ts, cap))
    ensures Synced(ts, NormalizeUpTo(ts, cap, n)) && GuardedFrom(ts, NormalizeUpTo(ts, cap, n).calls, 0, used, cap, strict)
  {
    hide GuardedView, NormalizeView, Guarded;
    if n > 0 {
      NormalizeGuarded(ts, used, cap, n - 1, strict);
      var p := NormalizeUpTo(ts, cap, n - 1);
      assert p.ts[n - 1] == p.ts[n - 1..][0] == ts[n - 1..][0];
      NormalizeViewGuarded(p.ts, n - 1, used, cap, strict);
      PutGuarded(ts, p, n - 1, NormalizeView(n - 1, ts[n - 1], cap), 0, used, cap, strict);
    }
  }

  lemma {:induction false} FinishGuarded(ts: seq<Torrent>, p: Phase, from: nat, used: int, cap: int, n: nat,
                                          strict: bool)
    requires n <= |p.ts| == |ts| && cap < MAX_INT64 && Synced(ts, p) && GuardedFrom(ts, p.calls, from, used, cap, strict)
    ensures var q := FinishUpTo(p, used, cap, n);
            Synced(ts, q) && GuardedFrom(ts, q.calls, from, used, cap, strict)
  {
    hide GuardedFrom, GuardedView, Tracks, Synced, FinishView, Committed;
    if n > 0 {
      FinishGuarded(ts, p, from, used, cap, n - 1, strict);
      var q := FinishUpTo(p, used, cap, n - 1);
      assert q.ts[n - 1] == q.ts[n - 1..][0] == p.ts[n - 1..][0];
      var fits := Fits(q.ts, n - 1, {}, used, cap);
      FinishViewGuarded(q.ts, n - 1, fits, used, cap, strict);
      PutGuarded(ts, q, n - 1, FinishView(n - 1, p.ts[n - 1], fits), from, used, cap, strict);
    }
  }

  lemma {:induction false} AdmitFromGuarded(ts: seq<Torrent>, p: Phase, order: seq<nat>, from: nat, used: int, cap: int,
                                             strict: bool)
    requires Indices(order, |p.ts|) && |p.ts| == |ts| && Synced(ts, p) && GuardedFrom(ts, p.calls, from, used, cap, strict)
    requires AcceptableOrder(p.ts, order, cap) && cap < MAX_INT64
    ensures var q := AdmitFrom(p, order, used, cap).p;
            Synced(ts, q) && GuardedFrom(ts, q.calls, from, used, cap, strict)
    decreases |order|
  {
    hide GuardedFrom, Synced, Committed, PressureOrder, EvictionCount, IsStopped;
    if order != [] {
      var i := order[0];
      var v := AdmitView(i, p.ts[i]);
      OrderTail(p.ts, order, v.t, cap);
      if !IsStopped(p.ts[i].state) {
        AdmitFromGuarded(ts, p, order[1..], from, used, cap, strict);
      } else if Fits(p.ts, i, {}, used, cap) {
        AdmitGuarded(p.ts, i, used, cap, strict);
        PutGuarded(ts, p, i, v, from, used, cap, strict);
        AdmitFromGuarded(ts, Put(p, i, v), order[1..], from, used, cap, strict);
      }
    }
  }

  lemma DeletionsGuarded(ts: seq<Torrent>, calls: seq<Call>, xs: seq<nat>, from: nat, used: int, cap: int,
                         strict: bool)
    requires InRange(calls, |ts|) && GuardedFrom(ts, calls, from, used, cap, strict)
    requires forall k :: 0 <= k < |xs| ==> xs[k] < |ts|
    ensures InRange(calls + Deletions(xs), |ts|) && GuardedFrom(ts, calls + Deletions(xs), from, used, cap, strict)
  {
    var all := calls + Deletions(xs);
    forall j | from <= j < |all|
      ensures Guarded(Replay(ts, all[..j]), all[j], used, cap, strict)
    {
      if j < |calls| {
        assert all[..j] == calls[..j];
      }
    }
  }

  /** After normalization every call of a poll is guarded, whatever the tags. */
  lemma RestIsGuarded(ts: seq<Torrent>, from: nat, used: int, cap: int, strict: bool)
    requires cap < MAX_INT64 && RetentionOrder(ts) == []
    requires InRange(NormalizeUpTo(ts, cap, |ts|).calls, |ts|)
    requires GuardedFrom(ts, NormalizeUpTo(ts, cap, |ts|).calls, from, used, cap, strict)
    ensures var calls := Poll(ts, used, cap).p.calls;
            && NormalizeUpTo(ts, cap, |ts|).calls <= calls
            && InRange(calls, |ts|) && GuardedFrom(ts, calls, from, used, cap, strict)
  {
    hide GuardedFrom;
    var p := Prepared(ts, used, cap);
    NormalizeSynced(ts, cap, |ts|);
    FinishGuarded(ts, NormalizeUpTo(ts, cap, |ts|), from, used, cap, |ts|, strict);
    CandidatesAreAcceptable(ts, used, cap);
    AdmitFromGuarded(ts, p, Candidates(p, cap), from, used, cap, strict);
    EvictedAreEligible(p, Candidates(p, cap), used, cap);
    AdmissionIsCareful(ts, used, cap);
    var a := AdmitFrom(p, Candidates(p, cap), used, cap);
    DeletionsGuarded(ts, a.p.calls, a.evicted, from, used, cap, strict);
  }

  lemma ExpiryIsGuarded(ts: seq<Torrent>, used: int, cap: int, strict: bool)
    requires RetentionOrder(ts) != []
    ensures InRange(Poll(ts, used, cap).p.calls, |ts|) && GuardedFrom(ts, Poll(ts, used, cap).p.calls, 0, used, cap, strict)
  {
    DeletionsGuarded(ts, [], RetentionOrder(ts), 0, used, cap, strict);
    assert [] + Deletions(RetentionOrder(ts)) == Deletions(RetentionOrder(ts));
  }

  /** Whatever a poll does is guarded, call by call, and what it does to clean torrents strictly so. */
  lemma PollIsGuarded(ts: seq<Torrent>, used: int, cap: int, strict: bool)
    requires cap < MAX_INT64 && (strict ==> CleanTags(ts, cap))
    ensures InRange(Poll(ts, used, cap).p.calls, |ts|) && GuardedFrom(ts, Poll(ts, used, cap).p.calls, 0, used, cap, strict)
  {
    hide GuardedFrom;
    if RetentionOrder(ts) != [] {
      ExpiryIsGuarded(ts, used, cap, strict);
    } else {
      NormalizeGuarded(ts, used, cap, |ts|, strict);
      RestIsGuarded(ts, 0, used, cap, strict);
    }
  }

  lemma {:induction false} CapacityFrom(ts: seq<Torrent>, calls: seq<Call>, from: nat, k: nat, used: int, cap: int)
    requires InRange(calls, |ts|) && GuardedFrom(ts, calls, from, used, cap, true) && from <= k <= |calls|
    requires Holdings(Replay(ts, calls[..from]), used) <= cap
    ensures Holdings(Replay(ts, calls[..k]), used) <= cap
  {
    hide Holdings, Guarded, Replay;
    if k > from {
      CapacityFrom(ts, calls, from, k - 1, used, cap);
      ReplayStep(ts, calls, k);
      CallKeepsCapacity(Replay(ts, calls[..k - 1]), calls[k - 1], used, cap);
    }
  }

  lemma CallStaysClean(ws: seq<Torrent>, c: Call, used: int, cap: int)
    requires c.i < |ws| && Guarded(ws, c, used, cap, true) && CleanTags(ws, cap)
    ensures CleanTags(ws[c.i := Effect(ws[c.i], c)], cap)
  {
    hide Committed;
    if Harmless(ws[c.i], c, cap) {
      HarmlessEffect(ws[c.i], c, cap);
    }
  }

  lemma {:induction false} StaysClean(ts: seq<Torrent>, calls: seq<Call>, k: nat, used: int, cap: int)
    requires InRange(calls, |ts|) && GuardedFrom(ts, calls, 0, used, cap, true) && k <= |calls| && CleanTags(ts, cap)
    ensures CleanTags(Replay(ts, calls[..k]), cap)
  {
    if k == 0 {
      assert calls[..0] == [];
    } else {
      hide Guarded, Replay, CleanTags;
      StaysClean(ts, calls, k - 1, used, cap);
      ReplayStep(ts, calls, k);
      CallStaysClean(Replay(ts, calls[..k - 1]), calls[k - 1], used, cap);
    }
  }

  /** Cut off after any call, a poll over clean torrents leaves the holdings at most the cap if they were before. */
  lemma PollKeepsCapacity(ts: seq<Torrent>, used: int, cap: int, k: nat)
    requires CleanTags(ts, cap) && cap < MAX_INT64 && Holdings(ts, used) <= cap && k <= |Poll(ts, used, cap).p.calls|
    ensures InRange(Poll(ts, used, cap).p.calls[..k], |ts|)
    ensures var ws := Replay(ts, Poll(ts, used, cap).p.calls[..k]);
            Holdings(ws, used) <= cap && CleanTags(ws, cap)
  {
    hide GuardedFrom, Poll, CleanTags;
    var calls := Poll(ts, used, cap).p.calls;
    PollIsGuarded(ts, used, cap, true);
    assert calls[..0] == [];
    CapacityFrom(ts, calls, 0, k, used, cap);
    StaysClean(ts, calls, k, used, cap);
  }

  // ---- exactly when a poll keeps the capacity --------------------------------------------------------------------

  /** Admitted, but held only once normalization has taken the rejected tag off. */
  predicate Unrejected(t: Torrent, cap: int) {
    !MustReject(t, cap) && MetadataReady(t) && Admitted in t.tags && Rejected in t.tags
  }

  /** A torrent as normalization leaves it, as far as holding it is concerned. */
  function Settled(t: Torrent, cap: int): Torrent {
    if MustReject(t, cap) then WithTag(t, Admitted, false)
    else if Unrejected(t, cap) then WithTag(t, Rejected, false)
    else t
  }

  function SettledUpTo(ts: seq<Torrent>, cap: int, n: nat): seq<Torrent> {
    seq(|ts|, i requires 0 <= i < |ts| => if i < n then Settled(ts[i], cap) else ts[i])
  }

  /** The holdings never exceed the cap while the listed torrents are settled one after the other. */
  ghost predicate SettlesWithin(ts: seq<Torrent>, used: int, cap: int) {
    forall n: nat :: n <= |ts| ==> Holdings(SettledUpTo(ts, cap, n), used) <= cap
  }

  /** Every torrent that comes to be held this way fits by then. */
  ghost predicate UnrejectedFit(ts: seq<Torrent>, used: int, cap: int) {
    forall n: nat :: n < |ts| && Unrejected(ts[n], cap) ==> Committed(SettledUpTo(ts, cap, n), n, {}, used) <= cap
  }

  /** Settling one more torrent reserves it, if it is un-rejected, and otherwise reserves nothing. */
  lemma SettleOne(ts: seq<Torrent>, used: int, cap: int, n: nat)
    requires n < |ts|
    ensures var before, after := SettledUpTo(ts, cap, n), SettledUpTo(ts, cap, n + 1);
            if Unrejected(ts[n], cap) then Holdings(after, used) == Committed(before, n, {}, used)
            else Holdings(after, used) <= Holdings(before, used)
  {
    var before, after, u := SettledUpTo(ts, cap, n), SettledUpTo(ts, cap, n + 1), Settled(ts[n], cap);
    assert after == before[n := u] && before[n] == ts[n];
    if Unrejected(ts[n], cap) {
      AdmittedTotals(before, n, u, |ts|);
      TotalsBounds(before, n, {}, |ts|);
      TotalsBounds(after, NO_CANDIDATE, {}, |ts|);
    } else {
      hide Holdings, SettledUpTo;
      var disk, reserved := HoldingsUpdate(before, n, u, used, used);
    }
  }

  lemma {:induction false} FittingSettles(ts: seq<Torrent>, used: int, cap: int, n: nat)
    requires n <= |ts| && Holdings(ts, used) <= cap && UnrejectedFit(ts, used, cap)
    ensures Holdings(SettledUpTo(ts, cap, n), used) <= cap
  {
    if n == 0 {
      assert SettledUpTo(ts, cap, 0) == ts;
    } else {
      FittingSettles(ts, used, cap, n - 1);
      SettleOne(ts, used, cap, n - 1);
    }
  }

  lemma FittingIsSettling(ts: seq<Torrent>, used: int, cap: int)
    requires Holdings(ts, used) <= cap
    ensures UnrejectedFit(ts, used, cap) <==> SettlesWithin(ts, used, cap)
  {
    if UnrejectedFit(ts, used, cap) {
      forall n: nat | n <= |ts|
        ensures Holdings(SettledUpTo(ts, cap, n), used) <= cap
      {
        FittingSettles(ts, used, cap, n);
      }
    }
    if SettlesWithin(ts, used, cap) {
      forall n: nat | n < |ts| && Unrejected(ts[n], cap)
        ensures Committed(SettledUpTo(ts, cap, n), n, {}, used) <= cap
      {
        SettleOne(ts, used, cap, n);
      }
    }
  }

  predicate SameHolding(t: Torrent, u: Torrent) {
    t.size == u.size && t.completed == u.completed && Held(t) == Held(u)
  }

  lemma HoldingsOfSame(ts: seq<Torrent>, us: seq<Torrent>, used: int)
    requires |ts| == |us| && forall i :: 0 <= i < |ts| ==> SameHolding(ts[i], us[i])
    ensures Holdings(ts, used) == Holdings(us, used)
  {
    TotalsOfSame(ts, us, NO_CANDIDATE, |ts|);
  }

  lemma NormalizeSettles(i: nat, t: Torrent, cap: int)
    ensures SameHolding(NormalizeView(i, t, cap).t, Settled(t, cap))
  {
    NormalizeKeepsIdentity(i, t, cap);
    if MustReject(t, cap) {
      RejectReachesNormal(i, t, cap);
    } else if MetadataReady(t) {
      ReadyTags(i, t, cap);
    }
  }

  lemma NormalizedHoldings(ts: seq<Torrent>, used: int, cap: int, n: nat)
    requires n <= |ts|
    ensures Holdings(NormalizeUpTo(ts, cap, n).ts, used) == Holdings(SettledUpTo(ts, cap, n), used)
  {
    var p := NormalizeUpTo(ts, cap, n);
    NormalizedPointwise(ts, cap, n);
    forall i: nat | i < |ts|
      ensures SameHolding(p.ts[i], SettledUpTo(ts, cap, n)[i])
    {
      if i < n {
        NormalizeSettles(i, ts[i], cap);
      } else {
        assert p.ts[i] == p.ts[n..][i - n] == ts[n..][i - n];
      }
    }
    HoldingsOfSame(p.ts, SettledUpTo(ts, cap, n), used);
  }

  /** Calls that never take the rejected tag off leave what is rejected so. */
  lemma {:induction false} StaysRejected(t: Torrent, calls: seq<Call>)
    requires Rejected in t.tags
    requires forall j :: 0 <= j < |calls| ==> (calls[j].RemoveTags? ==> Rejected !in calls[j].tags)
    ensures Rejected in EffectAll(t, calls).tags
  {
    if calls != [] {
      StaysRejected(t, calls[..|calls| - 1]);
    }
  }

  lemma RejectKeepsRejected(i: nat, t: Torrent)
    requires Rejected in t.tags
    ensures var calls := RejectView(i, View(t, [], false)).calls;
            forall j :: 0 <= j < |calls| ==> (calls[j].RemoveTags? ==> Rejected !in calls[j].tags)
  {
  }

  lemma AdmittedNeedsNoCalls(i: nat, t: Torrent, cap: int)
    requires !MustReject(t, cap) && Admitted in t.tags && (MetadataReady(t) ==> Rejected !in t.tags)
    ensures NormalizeView(i, t, cap).calls == []
  {
  }

  /** An admitted torrent that normalization does not start or stop holding. */
  lemma HeldAlike(i: nat, t: Torrent, cap: int, m: nat)
    requires m <= |NormalizeView(i, t, cap).calls| && Admitted in t.tags && Held(t) == Held(NormalizeView(i, t, cap).t)
    ensures Held(EffectAll(t, NormalizeView(i, t, cap).calls[..m])) == Held(t)
  {
    NormalizeSettles(i, t, cap);
    if MustReject(t, cap) {
      RejectKeepsRejected(i, t);
      StaysRejected(t, NormalizeView(i, t, cap).calls[..m]);
    } else {
      AdmittedNeedsNoCalls(i, t, cap);
    }
  }

  /** Between two calls of its normalization a torrent is held as before it or as after it. */
  lemma HeldBetween(i: nat, t: Torrent, cap: int, m: nat)
    requires m <= |NormalizeView(i, t, cap).calls|
    ensures var u := EffectAll(t, NormalizeView(i, t, cap).calls[..m]);
            SameHolding(u, t) || SameHolding(u, NormalizeView(i, t, cap).t)
  {
    hide NormalizeView, RejectView, AllQuiet;
    var v := NormalizeView(i, t, cap);
    NormalizeIsQuiet(i, t, cap);
    QuietPrefix(v.calls, m);
    QuietEffect(t, v.calls[..m]);
    NormalizeKeepsIdentity(i, t, cap);
    NormalizeSettles(i, t, cap);
    if Admitted in t.tags && Held(t) == Held(v.t) {
      HeldAlike(i, t, cap, m);
    }
  }

  lemma NormalizingOne(ts: seq<Torrent>, used: int, cap: int, n: nat, m: nat)
    requires n < |ts| && SettlesWithin(ts, used, cap) && m <= |NormalizeView(n, ts[n], cap).calls|
    ensures var calls := NormalizeUpTo(ts, cap, n).calls + NormalizeView(n, ts[n], cap).calls[..m];
            InRange(calls, |ts|) && Holdings(Replay(ts, calls), used) <= cap
  {
    hide Holdings, NormalizeView, SettledUpTo, EffectAll;
    var p, v := NormalizeUpTo(ts, cap, n), NormalizeView(n, ts[n], cap);
    NormalizeSynced(ts, cap, n);
    NormalizeTracks(n, ts[n], cap);
    assert p.ts[n] == p.ts[n..][0] == ts[n..][0];
    ReplayOne(p.ts, v.calls[..m], n);
    ReplayConcat(ts, p.calls, v.calls[..m]);
    HeldBetween(n, ts[n], cap, m);
    var u := EffectAll(ts[n], v.calls[..m]);
    NormalizedHoldings(ts, used, cap, n);
    NormalizedHoldings(ts, used, cap, n + 1);
    if SameHolding(u, ts[n]) {
      HoldingsOfSame(p.ts[n := u], p.ts, used);
    } else {
      HoldingsOfSame(p.ts[n := u], p.ts[n := v.t], used);
    }
  }

  /** While the first `n` torrents are normalized the holdings are those of a settled prefix. */
  lemma {:induction false} NormalizingWithin(ts: seq<Torrent>, used: int, cap: int, n: nat, k: nat)
    requires n <= |ts| && SettlesWithin(ts, used, cap) && k <= |NormalizeUpTo(ts, cap, n).calls|
    ensures InRange(NormalizeUpTo(ts, cap, n).calls[..k], |ts|)
    ensures Holdings(Replay(ts, NormalizeUpTo(ts, cap, n).calls[..k]), used) <= cap
  {
    hide Holdings, NormalizeView, SettledUpTo;
    NormalizeSynced(ts, cap, n);
    if n == 0 {
      NormalizedHoldings(ts, used, cap, 0);
    } else {
      var p, v := NormalizeUpTo(ts, cap, n - 1), NormalizeView(n - 1, ts[n - 1], cap);
      assert NormalizeUpTo(ts, cap, n).calls == p.calls + v.calls;
      if k <= |p.calls| {
        NormalizingWithin(ts, used, cap, n - 1, k);
        assert (p.calls + v.calls)[..k] == p.calls[..k];
      } else {
        assert (p.calls + v.calls)[..k] == p.calls + v.calls[..k - |p.calls|];
        NormalizingOne(ts, used, cap, n - 1, k - |p.calls|);
      }
    }
  }

  /** The holdings are at most the cap after every call of the poll. */
  ghost predicate KeepsCapacity(ts: seq<Torrent>, used: int, cap: int) {
    forall k: nat :: k <= |Poll(ts, used, cap).p.calls| ==>
      InRange(Poll(ts, used, cap).p.calls[..k], |ts|) &&
      Holdings(Replay(ts, Poll(ts, used, cap).p.calls[..k]), used) <= cap
  }

  lemma ExpiryKeepsCapacity(ts: seq<Torrent>, used: int, cap: int)
    requires RetentionOrder(ts) != [] && Holdings(ts, used) <= cap
    ensures KeepsCapacity(ts, used, cap)
  {
    hide GuardedFrom, Holdings, Poll;
    ExpiryIsGuarded(ts, used, cap, true);
    var calls := Poll(ts, used, cap).p.calls;
    assert calls[..0] == [];
    forall k: nat | k <= |calls|
      ensures InRange(calls[..k], |ts|) && Holdings(Replay(ts, calls[..k]), used) <= cap
    {
      CapacityFrom(ts, calls, 0, k, used, cap);
    }
  }

  lemma SettlingSuffices(ts: seq<Torrent>, used: int, cap: int)
    requires cap < MAX_INT64 && RetentionOrder(ts) == [] && SettlesWithin(ts, used, cap)
    ensures KeepsCapacity(ts, used, cap)
  {
    hide Holdings, Poll, SettlesWithin;
    var calls, first := Poll(ts, used, cap).p.calls, NormalizeUpTo(ts, cap, |ts|).calls;
    NormalizeSynced(ts, cap, |ts|);
    RestIsGuarded(ts, |first|, used, cap, true);
    NormalizingWithin(ts, used, cap, |ts|, |first|);
    assert calls[..|first|] == first == first[..|first|];
    forall k: nat | k <= |calls|
      ensures InRange(calls[..k], |ts|) && Holdings(Replay(ts, calls[..k]), used) <= cap
    {
      if k <= |first| {
        NormalizingWithin(ts, used, cap, |ts|, k);
        assert calls[..k] == first[..k];
      } else {
        CapacityFrom(ts, calls, |first|, k, used, cap);
      }
    }
  }

  lemma SettlingIsNeeded(ts: seq<Torrent>, used: int, cap: int)
    requires cap < MAX_INT64 && RetentionOrder(ts) == [] && KeepsCapacity(ts, used, cap)
    ensures SettlesWithin(ts, used, cap)
  {
    hide Holdings, Poll, SettledUpTo;
    var calls, first := Poll(ts, used, cap).p.calls, NormalizeUpTo(ts, cap, |ts|).calls;
    NormalizeSynced(ts, cap, |ts|);
    RestIsGuarded(ts, |first|, used, cap, true);
    forall n: nat | n <= |ts|
      ensures Holdings(SettledUpTo(ts, cap, n), used) <= cap
    {
      var k := |NormalizeUpTo(ts, cap, n).calls|;
      NormalizeCallsGrow(ts, cap, n, |ts|);
      NormalizeSynced(ts, cap, n);
      assert calls[..k] == NormalizeUpTo(ts, cap, n).calls;
      NormalizedHoldings(ts, used, cap, n);
    }
  }

  /**
    For all torrents: a poll that deletes for retention always keeps the capacity; any other one keeps it at each
    of its calls if and only if every admitted torrent that it un-rejects fits when it does.
   */
  lemma PollCapacityExact(ts: seq<Torrent>, used: int, cap: int)
    requires cap < MAX_INT64 && Holdings(ts, used) <= cap
    ensures KeepsCapacity(ts, used, cap) <==> RetentionOrder(ts) != [] || UnrejectedFit(ts, used, cap)
  {
    FittingIsSettling(ts, used, cap);
    if RetentionOrder(ts) != [] {
      ExpiryKeepsCapacity(ts, used, cap);
    } else {
      if SettlesWithin(ts, used, cap) {
        SettlingSuffices(ts, used, cap);
      }
      if KeepsCapacity(ts, used, cap) {
        SettlingIsNeeded(ts, used, cap);
      }
    }
  }

  lemma HoldingsOfOne(t: Torrent, used: int)
    requires t.completed <= 0
    ensures Holdings([t], used) == Max0(used) + if Held(t) then Max0(t.size) else 0
  {
    var ts := [t];
    assert Reserved(ts, NO_CANDIDATE, {}, 0) == 0 && OnDisk(ts, NO_CANDIDATE, {}, 0) == 0;
    assert Reclaimed(ts, {}, 0) == 0;
  }

  lemma UnrejectedStops(t: Torrent, cap: int)
    requires Unrejected(t, cap)
    ensures var u := NormalizeView(0, t, cap).t;
            && IsStopped(u.state) && Held(u) && Waiting in u.tags && u.size == t.size && u.completed == t.completed
  {
    StoppedState();
    ReadyTags(0, t, cap);
  }

  /** A held torrent counts for itself anyway. */
  lemma HeldIsItsCandidate(t: Torrent, used: int)
    requires Held(t)
    ensures Committed([t], 0, {}, used) == Holdings([t], used)
  {
    var ts := [t];
    assert Reserved(ts, NO_CANDIDATE, {}, 0) == 0 && OnDisk(ts, NO_CANDIDATE, {}, 0) == 0;
    assert Reserved(ts, 0, {}, 0) == 0 && OnDisk(ts, 0, {}, 0) == 0;
  }

  lemma FirstIsListed(xs: seq<nat>)
    ensures xs != [] ==> xs[0] in xs
  {
  }

  lemma MixedTagsHeld(t: Torrent, used: int, cap: int)
    requires Unrejected(t, cap) && !RetentionEligible(t) && t.size > 0 && t.completed <= 0
    requires 0 <= used && cap < used + t.size && cap < MAX_INT64
    ensures var us := Poll([t], used, cap).p.ts;
            |us| == 1 && Held(us[0]) && IsStopped(us[0].state)
  {
    var ts := [t];
    var q, p := NormalizeUpTo(ts, cap, 1), Prepared(ts, used, cap);
    assert RetentionOrder(ts) == [] by {
      FirstIsListed(RetentionOrder(ts));
    }
    NormalizedPointwise(ts, cap, 1);
    UnrejectedStops(t, cap);
    FinishPointwise(q, used, cap, 1);
    FinishedAt(q, used, cap, 1, 0);
    assert q.ts == [q.ts[0]];
    HoldingsOfOne(q.ts[0], used);
    HeldIsItsCandidate(q.ts[0], used);
    StoppedState();
    assert Candidates(p, cap) == [] by {
      FirstIsListed(Candidates(p, cap));
    }
  }

  /**
    Torrents with both tags can break it: such a torrent, not downloaded yet, is not held, and the poll takes the
    rejected tag off and so commits to it although it does not fit. It is left stopped, so nothing comes in.
   */
  lemma MixedTagsOvercommit(t: Torrent, used: int, cap: int)
    requires Admitted in t.tags && Rejected in t.tags && t.inside && MetadataReady(t) && t.completed <= 0
    requires !RetentionEligible(t) && t.size <= cap < MAX_INT64 && 0 <= used <= cap < used + t.size
    ensures !CleanTags([t], cap) && Holdings([t], used) <= cap < Holdings(Poll([t], used, cap).p.ts, used)
    ensures |Poll([t], used, cap).p.ts| == 1 && IsStopped(Poll([t], used, cap).p.ts[0].state)
  {
    var ts, a := [t], Poll([t], used, cap);
    MixedTagsHeld(t, used, cap);
    PollKeepsIdentity(ts, used, cap);
    assert a.p.ts == [a.p.ts[0]];
    HoldingsOfOne(t, used);
    HoldingsOfOne(a.p.ts[0], used);
    assert ts[0] == t;
  }
}
