/** What every poll of the housekeeper guarantees, at every API call where it may be cut off. */
module HousekeeperTheorems {
  import opened Sums
  import opened HousekeeperCapacity
  import opened HousekeeperPoll

  // ---- the engine's copy tracks the service ------------------------------------------------------

  function EffectAll(t: Torrent, calls: seq<Call>): Torrent {
    if calls == [] then t
    else Effect(EffectAll(t, calls[..|calls| - 1]), calls[|calls| - 1])
  }

  predicate AllAbout(calls: seq<Call>, i: nat) {
    forall k :: 0 <= k < |calls| ==> calls[k].i == i
  }

  lemma {:induction false} ReplayOne(ts: seq<Torrent>, calls: seq<Call>, i: nat)
    requires i < |ts| && AllAbout(calls, i)
    ensures InRange(calls, |ts|)
    ensures Replay(ts, calls) == ts[i := EffectAll(ts[i], calls)]
  {
    if calls != [] {
      ReplayOne(ts, calls[..|calls| - 1], i);
    }
  }

  lemma {:induction false} ReplayConcat(ts: seq<Torrent>, a: seq<Call>, b: seq<Call>)
    requires InRange(a, |ts|) && InRange(b, |ts|)
    ensures InRange(a + b, |ts|)
    ensures Replay(ts, a + b) == Replay(Replay(ts, a), b)
  {
    hide Effect;
    if b == [] {
      assert a + b == a;
    } else {
      var n := |b| - 1;
      ReplayConcat(ts, a, b[..n]);
      assert (a + b)[..|a| + n] == a + b[..n];
    }
  }

  /** Every call of the view is about `i`, and the view's torrent is what the calls make of `t`. */
  predicate Tracks(i: nat, t: Torrent, v: View) {
    AllAbout(v.calls, i) && v.t == EffectAll(t, v.calls)
  }

  lemma StoppedTracks(i: nat, t: Torrent, v: View, was: string)
    requires Tracks(i, t, v)
    ensures Tracks(i, t, Stopped(i, v, was))
  {
    assert (v.calls + [Stop(i)])[..|v.calls|] == v.calls;
  }

  lemma TaggedTracks(i: nat, t: Torrent, v: View, tag: Tag)
    requires Tracks(i, t, v)
    ensures Tracks(i, t, Tagged(i, v, tag))
  {
    assert (v.calls + [AddTag(i, tag)])[..|v.calls|] == v.calls;
  }

  lemma UntaggedTracks(i: nat, t: Torrent, v: View, tags: set<Tag>)
    requires Tracks(i, t, v)
    ensures Tracks(i, t, Untagged(i, v, tags))
  {
    assert (v.calls + [RemoveTags(i, v.t.tags * tags)])[..|v.calls|] == v.calls;
  }

  lemma RejectTracks(i: nat, t: Torrent)
    ensures Tracks(i, t, RejectView(i, View(t, [], false)))
  {
    StoppedTracks(i, t, View(t, [], false), t.state);
    var stopped := Stopped(i, View(t, [], false), t.state);
    TaggedTracks(i, t, stopped, Rejected);
    var marked := if Rejected in stopped.t.tags then stopped else Tagged(i, stopped, Rejected);
    UntaggedTracks(i, t, marked, {Waiting, Admitted});
  }

  lemma NormalizeTracks(i: nat, t: Torrent, cap: int)
    ensures Tracks(i, t, NormalizeView(i, t, cap))
  {
    var v := View(t, [], false);
    if MustReject(t, cap) {
      RejectTracks(i, t);
    } else {
      StoppedTracks(i, t, v, t.state);
      var tagged := Tagged(i, Stopped(i, v, t.state), Waiting);
      TaggedTracks(i, t, Stopped(i, v, t.state), Waiting);
      UntaggedTracks(i, t, tagged, {Rejected});
      var freed := if Rejected in t.tags then Untagged(i, tagged, {Rejected}) else v;
      StoppedTracks(i, t, freed, t.state);
      TaggedTracks(i, t, Stopped(i, freed, t.state).(blocked := !IsStopped(t.state)), Waiting);
    }
  }

  lemma FinishTracks(i: nat, t: Torrent, fits: bool)
    ensures Tracks(i, t, FinishView(i, t, fits))
  {
    var v := View(t, [], false);
    StoppedTracks(i, t, v, t.state);
    var started := View(t.(state := DOWNLOADING), [Start(i)], false);
    assert [Start(i)][..0] == [];
    UntaggedTracks(i, t, started, {Waiting});
    UntaggedTracks(i, t, v, {Waiting});
  }

  lemma AdmitTracks(i: nat, t: Torrent)
    ensures Tracks(i, t, AdmitView(i, t))
  {
    TaggedTracks(i, t, View(t, [], false), Admitted);
    var tagged := Tagged(i, View(t, [], false), Admitted);
    var started := tagged.(t := tagged.t.(state := DOWNLOADING), calls := tagged.calls + [Start(i)]);
    assert started.calls[..|tagged.calls|] == tagged.calls;
    UntaggedTracks(i, t, started, {Waiting, Rejected});
  }

  predicate Synced(ts: seq<Torrent>, p: Phase) {
    InRange(p.calls, |ts|) && p.ts == Replay(ts, p.calls)
  }

  lemma PutSynced(ts: seq<Torrent>, p: Phase, i: nat, v: View)
    requires Synced(ts, p) && i < |ts| && Tracks(i, p.ts[i], v)
    ensures Synced(ts, Put(p, i, v))
  {
    ReplayOne(p.ts, v.calls, i);
    ReplayConcat(ts, p.calls, v.calls);
  }

  lemma {:induction false} NormalizeSynced(ts: seq<Torrent>, cap: int, n: nat)
    requires n <= |ts|
    ensures Synced(ts, NormalizeUpTo(ts, cap, n))
  {
    if n > 0 {
      NormalizeSynced(ts, cap, n - 1);
      NormalizeTracks(n - 1, ts[n - 1], cap);
      var p := NormalizeUpTo(ts, cap, n - 1);
      assert p.ts[n - 1] == p.ts[n - 1..][0] == ts[n - 1..][0];
      PutSynced(ts, p, n - 1, NormalizeView(n - 1, ts[n - 1], cap));
    }
  }

  lemma {:induction false} FinishSynced(ts: seq<Torrent>, p: Phase, used: int, cap: int, n: nat)
    requires n <= |p.ts| == |ts| && Synced(ts, p)
    ensures Synced(ts, FinishUpTo(p, used, cap, n))
  {
    if n > 0 {
      FinishSynced(ts, p, used, cap, n - 1);
      var q := FinishUpTo(p, used, cap, n - 1);
      assert q.ts[n - 1] == q.ts[n - 1..][0] == p.ts[n - 1..][0];
      var fits := Fits(q.ts, n - 1, {}, used, cap);
      FinishTracks(n - 1, p.ts[n - 1], fits);
      PutSynced(ts, q, n - 1, FinishView(n - 1, p.ts[n - 1], fits));
    }
  }

  lemma {:induction false} AdmitSynced(ts: seq<Torrent>, p: Phase, order: seq<nat>, used: int, cap: int)
    requires Indices(order, |p.ts|) && |p.ts| == |ts| && Synced(ts, p)
    ensures Synced(ts, AdmitFrom(p, order, used, cap).p)
    decreases |order|
  {
    if order != [] {
      var i := order[0];
      assert Indices(order[1..], |p.ts|);
      if !IsStopped(p.ts[i].state) {
        AdmitSynced(ts, p, order[1..], used, cap);
      } else if Fits(p.ts, i, {}, used, cap) {
        AdmitTracks(i, p.ts[i]);
        PutSynced(ts, p, i, AdmitView(i, p.ts[i]));
        AdmitSynced(ts, Put(p, i, AdmitView(i, p.ts[i])), order[1..], used, cap);
      }
    }
  }

  lemma {:induction false} AdmitExtendsCalls(p: Phase, order: seq<nat>, used: int, cap: int)
    requires Indices(order, |p.ts|)
    ensures p.calls <= AdmitFrom(p, order, used, cap).p.calls
    decreases |order|
  {
    if order != [] {
      assert Indices(order[1..], |p.ts|);
      var i := order[0];
      if !IsStopped(p.ts[i].state) {
        AdmitExtendsCalls(p, order[1..], used, cap);
      } else if Fits(p.ts, i, {}, used, cap) {
        AdmitExtendsCalls(Put(p, i, AdmitView(i, p.ts[i])), order[1..], used, cap);
      }
    }
  }

  lemma {:induction false} DeletionsReplay(ts: seq<Torrent>, xs: seq<nat>)
    requires forall k :: 0 <= k < |xs| ==> xs[k] < |ts|
    ensures InRange(Deletions(xs), |ts|) && Replay(ts, Deletions(xs)) == ts
  {
    if xs != [] {
      var n := |xs| - 1;
      DeletionsReplay(ts, xs[..n]);
      assert Deletions(xs)[..n] == Deletions(xs[..n]);
    }
  }

  lemma {:induction false} EvictedAreEligible(p: Phase, order: seq<nat>, used: int, cap: int)
    requires Indices(order, |p.ts|)
    ensures var a := AdmitFrom(p, order, used, cap);
            && a.evicted <= PressureOrder(a.p.ts)
            && (forall i :: i in a.evicted ==> i < |p.ts| && PressureEligible(a.p.ts[i]))
    decreases |order|
  {
    if order != [] {
      assert Indices(order[1..], |p.ts|);
      var i := order[0];
      if !IsStopped(p.ts[i].state) {
        EvictedAreEligible(p, order[1..], used, cap);
      } else if Fits(p.ts, i, {}, used, cap) {
        EvictedAreEligible(Put(p, i, AdmitView(i, p.ts[i])), order[1..], used, cap);
      }
    }
  }

  /** After an error-free poll the engine's tags and states are exactly what its calls produced. */
  lemma PollSynced(ts: seq<Torrent>, used: int, cap: int)
    ensures Synced(ts, Poll(ts, used, cap).p)
    ensures forall i :: i in Poll(ts, used, cap).evicted ==> i < |ts|
  {
    var expired := RetentionOrder(ts);
    if expired != [] {
      DeletionsReplay(ts, expired);
    } else {
      NormalizeSynced(ts, cap, |ts|);
      FinishSynced(ts, NormalizeUpTo(ts, cap, |ts|), used, cap, |ts|);
      var p := Prepared(ts, used, cap);
      var a := AdmitFrom(p, Candidates(p, cap), used, cap);
      AdmitSynced(ts, p, Candidates(p, cap), used, cap);
      EvictedAreEligible(p, Candidates(p, cap), used, cap);
      DeletionsReplay(a.p.ts, a.evicted);
      ReplayConcat(ts, a.p.calls, Deletions(a.evicted));
    }
  }

  // ---- normalization reaches a fixed point -------------------------------------------------------

  lemma StoppedState()
    ensures IsStopped(STOPPED) && !IsStopped(DOWNLOADING)
    ensures STOPPED != "metaDL" && STOPPED != "checkingResumeData"
    ensures DOWNLOADING != "metaDL" && DOWNLOADING != "checkingResumeData"
  {
    assert STOPPED[..7] == "stopped";
    assert "stopped" <= STOPPED;
    assert DOWNLOADING[0] == 'd' && "stopped"[0] == 's' && "paused"[0] == 'p';
    assert STOPPED[0] == 's' && "metaDL"[0] == 'm' && "checkingResumeData"[0] == 'c';
  }

  /** The condition every torrent is in after normalization. */
  predicate Normal(t: Torrent, cap: int) {
    if MustReject(t, cap) then
      IsStopped(t.state) && Rejected in t.tags && Waiting !in t.tags && Admitted !in t.tags
    else if !MetadataReady(t) then true
    else
      Rejected !in t.tags &&
      (Admitted in t.tags || (Waiting in t.tags && IsStopped(t.state)))
  }

  lemma RejectReachesNormal(i: nat, t: Torrent, cap: int)
    requires MustReject(t, cap)
    ensures var u := NormalizeView(i, t, cap).t;
            && IsStopped(u.state) && Rejected in u.tags && Waiting !in u.tags && Admitted !in u.tags
            && u.size == t.size && u.inside == t.inside && (u.state == t.state || u.state == STOPPED)
  {
    StoppedState();
  }

  /** Tag facts of a pass over a ready torrent; `freed` is the view after a possible un-rejection. */
  lemma ReadyTags(i: nat, t: Torrent, cap: int)
    requires !MustReject(t, cap) && MetadataReady(t)
    ensures var u := NormalizeView(i, t, cap).t;
            && Rejected !in u.tags
            && (Admitted in u.tags <==> Admitted in t.tags)
            && (Admitted !in t.tags ==> Waiting in u.tags)
            && u.size == t.size && u.inside == t.inside
  {
    var v := View(t, [], false);
    var tagged := Tagged(i, Stopped(i, v, t.state), Waiting);
    if Rejected in t.tags {
      assert Rejected in tagged.t.tags * {Rejected};
      assert Untagged(i, tagged, {Rejected}).t.tags == tagged.t.tags - {Rejected};
    }
  }

  lemma ReadyState(i: nat, t: Torrent, cap: int)
    requires !MustReject(t, cap) && MetadataReady(t)
    ensures var u := NormalizeView(i, t, cap).t;
            && (u.state == t.state || u.state == STOPPED)
            && (Admitted !in t.tags && !IsStopped(t.state) ==> u.state == STOPPED)
  {
  }

  lemma ReadyReachesNormal(i: nat, t: Torrent, cap: int)
    requires !MustReject(t, cap) && MetadataReady(t)
    ensures var u := NormalizeView(i, t, cap).t;
            && Rejected !in u.tags && (Admitted in u.tags || (Waiting in u.tags && IsStopped(u.state)))
            && u.size == t.size && u.inside == t.inside && (u.state == t.state || u.state == STOPPED)
  {
    StoppedState();
    ReadyTags(i, t, cap);
    ReadyState(i, t, cap);
  }

  /** One pass brings a torrent into its normal condition without changing whether it must be rejected. */
  lemma NormalizeReachesNormal(i: nat, t: Torrent, cap: int)
    ensures Normal(NormalizeView(i, t, cap).t, cap)
    ensures MustReject(NormalizeView(i, t, cap).t, cap) <==> MustReject(t, cap)
  {
    StoppedState();
    if MustReject(t, cap) {
      RejectReachesNormal(i, t, cap);
    } else if MetadataReady(t) {
      ReadyReachesNormal(i, t, cap);
    }
  }

  /** The normal torrents are exactly those a pass makes no call about, and it leaves them unchanged. */
  lemma NormalIsFixed(i: nat, t: Torrent, cap: int)
    ensures Normal(t, cap) <==> NormalizeView(i, t, cap).calls == []
    ensures Normal(t, cap) ==> NormalizeView(i, t, cap).t == t && !NormalizeView(i, t, cap).blocked
  {
    if MustReject(t, cap) {
      assert t.tags * {Waiting, Admitted} == {} <==> Waiting !in t.tags && Admitted !in t.tags by {
        assert Waiting in t.tags ==> Waiting in t.tags * {Waiting, Admitted};
        assert Admitted in t.tags ==> Admitted in t.tags * {Waiting, Admitted};
      }
    }
  }

  lemma {:induction false} NormalizeCallsGrow(ts: seq<Torrent>, cap: int, m: nat, n: nat)
    requires m <= n <= |ts|
    ensures NormalizeUpTo(ts, cap, m).calls <= NormalizeUpTo(ts, cap, n).calls
  {
    hide NormalizeView;
    if m < n {
      NormalizeCallsGrow(ts, cap, m, n - 1);
    }
  }

  predicate AllNormal(ts: seq<Torrent>, cap: int) {
    forall i :: 0 <= i < |ts| ==> Normal(ts[i], cap)
  }

  lemma {:induction false} NormalizedPointwise(ts: seq<Torrent>, cap: int, n: nat)
    requires n <= |ts|
    ensures forall i: nat :: i < n ==> NormalizeUpTo(ts, cap, n).ts[i] == NormalizeView(i, ts[i], cap).t
    ensures forall i: nat :: i in NormalizeUpTo(ts, cap, n).blocked <==> i < n && NormalizeView(i, ts[i], cap).blocked
  {
    hide NormalizeView;
    if n > 0 {
      NormalizedPointwise(ts, cap, n - 1);
    }
  }

  lemma {:induction false} NormalListNeedsNoCalls(ts: seq<Torrent>, cap: int, n: nat)
    requires n <= |ts| && AllNormal(ts, cap)
    ensures NormalizeUpTo(ts, cap, n) == Phase(ts, [], {})
  {
    if n > 0 {
      NormalListNeedsNoCalls(ts, cap, n - 1);
      NormalIsFixed(n - 1, ts[n - 1], cap);
    }
  }

  /**
    One error-free normalization is a fixed point: a second pass over its result makes no API call.
    Torrents that had to be rejected end stopped and rejected, neither waiting nor admitted.
   */
  lemma NormalizationFixedPoint(ts: seq<Torrent>, cap: int)
    ensures var q := NormalizeUpTo(ts, cap, |ts|);
            && AllNormal(q.ts, cap)
            && NormalizeUpTo(q.ts, cap, |ts|) == Phase(q.ts, [], {})
            && (forall i :: 0 <= i < |ts| && MustReject(ts[i], cap) ==>
                  IsStopped(q.ts[i].state) && Rejected in q.ts[i].tags &&
                  Waiting !in q.ts[i].tags && Admitted !in q.ts[i].tags)
  {
    var q := NormalizeUpTo(ts, cap, |ts|);
    NormalizedPointwise(ts, cap, |ts|);
    forall i: nat | i < |ts|
      ensures Normal(q.ts[i], cap)
      ensures MustReject(q.ts[i], cap) <==> MustReject(ts[i], cap)
    {
      NormalizeReachesNormal(i, ts[i], cap);
    }
    NormalListNeedsNoCalls(q.ts, cap, |ts|);
  }

  // ---- admissions ------------------------------------------------------------------------------------

  lemma FinishOne(i: nat, t: Torrent, fits: bool)
    ensures var u := FinishView(i, t, fits).t;
            && (!Interrupted(t) ==> u == t)
            && u == t.(state := u.state, tags := u.tags)
            && (u.tags == t.tags || u.tags == t.tags - {Waiting})
            && (Interrupted(t) && fits ==> !IsStopped(u.state) && Waiting !in u.tags)
            && !FinishView(i, t, fits).blocked
  {
    StoppedState();
    assert Interrupted(t) ==> Waiting in t.tags * {Waiting};
  }

  lemma {:induction false} FinishPointwise(p: Phase, used: int, cap: int, n: nat)
    requires n <= |p.ts|
    ensures forall i: nat :: i < |p.ts| ==>
              var t, u := p.ts[i], FinishUpTo(p, used, cap, n).ts[i];
              && (!Interrupted(t) ==> u == t)
              && u == t.(state := u.state, tags := u.tags)
              && (u.tags == t.tags || u.tags == t.tags - {Waiting})
  {
    if n > 0 {
      FinishPointwise(p, used, cap, n - 1);
      var before := FinishUpTo(p, used, cap, n - 1);
      FinishOne(n - 1, p.ts[n - 1], Fits(before.ts, n - 1, {}, used, cap));
    }
  }

  /** Every candidate of a prepared poll is stopped and inside the download root. */
  lemma CandidatesAreStopped(ts: seq<Torrent>, used: int, cap: int)
    ensures var p := Prepared(ts, used, cap);
            forall i :: i in Candidates(p, cap) ==> IsStopped(p.ts[i].state) && p.ts[i].inside
  {
    var q, p := NormalizeUpTo(ts, cap, |ts|), Prepared(ts, used, cap);
    NormalizationFixedPoint(ts, cap);
    FinishPointwise(q, used, cap, |ts|);
    forall i: nat | i in Candidates(p, cap)
      ensures IsStopped(p.ts[i].state) && p.ts[i].inside
    {
      assert Normal(q.ts[i], cap);
      assert Candidate(p, i, cap);
      assert !Interrupted(q.ts[i]);
    }
  }

  predicate AllStopped(ts: seq<Torrent>, order: seq<nat>)
    requires Indices(order, |ts|)
  {
    forall k :: 0 <= k < |order| ==> IsStopped(ts[order[k]].state)
  }

  /** Marking the candidate admitted turns its check into the plain commitment. */
  lemma {:induction false} AdmittedTotals(ts: seq<Torrent>, i: nat, u: Torrent, n: nat)
    requires i < |ts| && n <= |ts| && Held(u) && u.size == ts[i].size && u.completed == ts[i].completed
    ensures Reserved(ts[i := u], NO_CANDIDATE, {}, n) == Reserved(ts, i, {}, n)
    ensures OnDisk(ts[i := u], NO_CANDIDATE, {}, n) == OnDisk(ts, i, {}, n)
  {
    if n > 0 {
      AdmittedTotals(ts, i, u, n - 1);
    }
  }

  lemma AdmissionKeepsCommitment(p: Phase, i: nat, used: int)
    requires i < |p.ts|
    ensures Holdings(Put(p, i, AdmitView(i, p.ts[i])).ts, used) == Committed(p.ts, i, {}, used)
  {
    var u := AdmitView(i, p.ts[i]).t;
    AdmittedTotals(p.ts, i, u, |p.ts|);
    TotalsBounds(p.ts, i, {}, |p.ts|);
    TotalsBounds(p.ts[i := u], NO_CANDIDATE, {}, |p.ts|);
  }

  /**
    With every candidate stopped the skip never fires: the admitted torrents are exactly a prefix
    of the oldest-first order, and all other torrents stay as they were.
   */
  lemma {:induction false} AdmissionIsPrefix(p: Phase, order: seq<nat>, used: int, cap: int)
    requires Indices(order, |p.ts|) && AllStopped(p.ts, order)
    ensures var a := AdmitFrom(p, order, used, cap);
            && a.admitted <= order
            && (a.admitted == [] ==> a.p == p)
            && (forall i :: 0 <= i < |p.ts| && i !in a.admitted ==> a.p.ts[i] == p.ts[i])
    decreases |order|
  {
    hide Fits, PressureOrder, EvictionCount;
    if order != [] {
      var i := order[0];
      assert Indices(order[1..], |p.ts|);
      if Fits(p.ts, i, {}, used, cap) {
        var q := Put(p, i, AdmitView(i, p.ts[i]));
        assert AllStopped(q.ts, order[1..]);
        AdmissionIsPrefix(q, order[1..], used, cap);
      }
    }
  }

  /** The last admission of a poll leaves the commitment under the cap. */
  lemma {:induction false} AdmissionRespectsCap(p: Phase, order: seq<nat>, used: int, cap: int)
    requires Indices(order, |p.ts|) && AllStopped(p.ts, order)
    requires AdmitFrom(p, order, used, cap).admitted != []
    ensures Fits(AdmitFrom(p, order, used, cap).p.ts, NO_CANDIDATE, {}, used, cap)
    decreases |order|
  {
    if order != [] {
      var i := order[0];
      assert Indices(order[1..], |p.ts|);
      if Fits(p.ts, i, {}, used, cap) {
        var q := Put(p, i, AdmitView(i, p.ts[i]));
        assert AllStopped(q.ts, order[1..]);
        AdmissionKeepsCommitment(p, i, used);
        AdmissionIsPrefix(q, order[1..], used, cap);
        if AdmitFrom(q, order[1..], used, cap).admitted != [] {
          AdmissionRespectsCap(q, order[1..], used, cap);
        }
      }
    }
  }

  /** A poll that admits ends with its commitment at most the cap, and so the committed bytes of its snapshot. */
  lemma PollRespectsCap(ts: seq<Torrent>, used: int, cap: int)
    ensures var a := Poll(ts, used, cap);
            && (RetentionOrder(ts) == [] ==> a.admitted <= Candidates(Prepared(ts, used, cap), cap))
            && (a.admitted != [] ==> Fits(a.p.ts, NO_CANDIDATE, {}, used, cap))
            && (a.admitted != [] && cap <= MAX_INT64 ==> Min(MAX_INT64, Holdings(a.p.ts, used)) <= cap)
  {
    if RetentionOrder(ts) == [] {
      var p := Prepared(ts, used, cap);
      CandidatesAreStopped(ts, used, cap);
      AdmissionIsPrefix(p, Candidates(p, cap), used, cap);
      if Poll(ts, used, cap).admitted != [] {
        AdmissionRespectsCap(p, Candidates(p, cap), used, cap);
      }
    }
  }

  // ---- pressure evictions ------------------------------------------------------------------------

  lemma {:induction false} EvictionCountIsLeast(ts: seq<Torrent>, order: seq<nat>, cand: nat, used: int, cap: int, k: nat)
    requires 1 <= k
    ensures var n := EvictionCount(ts, order, cand, used, cap, k);
            && (n != -1 ==> Fits(ts, cand, Members(order[..n]), used, cap))
            && (forall j :: k <= j < (if n == -1 then |order| + 1 else n) ==>
                  !Fits(ts, cand, Members(order[..j]), used, cap))
    decreases |order| - k
  {
    if k <= |order| && !Fits(ts, cand, Members(order[..k]), used, cap) {
      EvictionCountIsLeast(ts, order, cand, used, cap, k + 1);
    }
  }

  /**
    The number chosen is a threshold: among the prefixes of the eligible order, the candidate fits
    after exactly those at least that long, and when none is chosen no prefix would do.
   */
  lemma EvictionThreshold(ts: seq<Torrent>, cand: nat, used: int, cap: int, j: nat)
    requires cand < |ts| && !Fits(ts, cand, {}, used, cap)
    requires j <= |PressureOrder(ts)|
    ensures var order := PressureOrder(ts); var n := EvictionCount(ts, order, cand, used, cap, 1);
            Fits(ts, cand, Members(order[..j]), used, cap) <==> n != -1 && n <= j
  {
    var order := PressureOrder(ts);
    var n := EvictionCount(ts, order, cand, used, cap, 1);
    EvictionCountIsLeast(ts, order, cand, used, cap, 1);
    assert Members(order[..0]) == {};
    if n != -1 && n <= j {
      assert Members(order[..n]) <= Members(order[..j]) by {
        assert order[..n] == order[..j][..n];
      }
      FitsMonotoneInEvictions(ts, cand, Members(order[..n]), Members(order[..j]), used, cap);
    }
  }

  /** `evicted` is the shortest sufficient eviction for `cand`, and the next poll will fit `cand`. */
  predicate ServesCandidate(ts: seq<Torrent>, cand: nat, evicted: seq<nat>, used: int, cap: int) {
    evicted != [] && cand < |ts| &&
    !Fits(ts, cand, Members(evicted[..|evicted| - 1]), used, cap) &&
    var out := Members(evicted);
    Fits(Remaining(ts, out, |ts|), |Remaining(ts, out, cand)|, {}, Max0(used - Reclaimed(ts, out, |ts|)), cap)
  }

  lemma ChosenEvictionsServe(ts: seq<Torrent>, cand: nat, used: int, cap: int, n: nat)
    requires cand < |ts| && Admitted !in ts[cand].tags && !Fits(ts, cand, {}, used, cap)
    requires n == EvictionCount(ts, PressureOrder(ts), cand, used, cap, 1)
    ensures ServesCandidate(ts, cand, PressureOrder(ts)[..n], used, cap)
  {
    hide PressureOrder, EvictionCount, Fits;
    var eligible := PressureOrder(ts);
    EvictionThreshold(ts, cand, used, cap, n);
    EvictionThreshold(ts, cand, used, cap, n - 1);
    assert eligible[..n][..n - 1] == eligible[..n - 1];
    assert cand !in Members(eligible[..n]) by {
      assert cand !in eligible;
    }
    PredictionMatchesNextPoll(ts, cand, Members(eligible[..n]), used, cap);
  }

  predicate EligibleSet(ts: seq<Torrent>, out: set<nat>) {
    forall i :: i in out ==> i < |ts| && PressureEligible(ts[i])
  }

  /** Not even evicting every torrent that may be evicted makes room for `cand`. */
  ghost predicate NoEvictionHelps(ts: seq<Torrent>, cand: nat, used: int, cap: int) {
    forall out: set<nat> :: EligibleSet(ts, out) ==> !Fits(ts, cand, out, used, cap)
  }

  lemma NoneChosen(ts: seq<Torrent>, cand: nat, used: int, cap: int)
    requires cand < |ts| && !Fits(ts, cand, {}, used, cap)
    ensures EvictionCount(ts, PressureOrder(ts), cand, used, cap, 1) == -1 <==> NoEvictionHelps(ts, cand, used, cap)
  {
    hide Fits, EvictionCount;
    var order := PressureOrder(ts);
    var all := Members(order);
    assert order[..|order|] == order;
    assert EligibleSet(ts, all);
    EvictionThreshold(ts, cand, used, cap, |order|);
    forall out: set<nat> | EligibleSet(ts, out) && Fits(ts, cand, out, used, cap)
      ensures Fits(ts, cand, all, used, cap)
    {
      FitsMonotoneInEvictions(ts, cand, out, all, used, cap);
    }
  }

  /** What is evicted for a candidate that does not fit: nothing if nothing helps, else the shortest prefix that does. */
  ghost predicate EvictsFor(ts: seq<Torrent>, cand: nat, evicted: seq<nat>, used: int, cap: int) {
    && !Fits(ts, cand, {}, used, cap)
    && (evicted == [] <==> NoEvictionHelps(ts, cand, used, cap))
    && evicted <= PressureOrder(ts)
    && (evicted != [] ==> ServesCandidate(ts, cand, evicted, used, cap))
  }

  lemma ChosenIsEvictedFor(ts: seq<Torrent>, cand: nat, used: int, cap: int)
    requires cand < |ts| && Admitted !in ts[cand].tags && !Fits(ts, cand, {}, used, cap)
    ensures var n := EvictionCount(ts, PressureOrder(ts), cand, used, cap, 1);
            EvictsFor(ts, cand, if n == -1 then [] else PressureOrder(ts)[..n], used, cap)
  {
    hide PressureOrder, EvictionCount, Fits, ServesCandidate, NoEvictionHelps;
    var n := EvictionCount(ts, PressureOrder(ts), cand, used, cap, 1);
    NoneChosen(ts, cand, used, cap);
    if n != -1 {
      ChosenEvictionsServe(ts, cand, used, cap, n);
    }
  }

  /**
    A poll goes on admitting while candidates fit. The first that does not fit ends it: if no set of
    torrents that may be evicted would make room nothing is, otherwise the shortest sufficient prefix is,
    and the next poll that measures the predicted usage on the surviving list finds that this candidate fits.
   */
  lemma {:induction false} EvictionsServeTheCandidate(p: Phase, order: seq<nat>, used: int, cap: int)
    requires Indices(order, |p.ts|) && AllStopped(p.ts, order)
    requires forall k :: 0 <= k < |order| ==> Admitted !in p.ts[order[k]].tags
    ensures var a := AdmitFrom(p, order, used, cap);
            && |a.admitted| <= |order|
            && (|a.admitted| == |order| ==> a.evicted == [])
            && (|a.admitted| < |order| ==> EvictsFor(a.p.ts, order[|a.admitted|], a.evicted, used, cap))
    decreases |order|
  {
    hide PressureOrder, EvictionCount, Fits, EvictsFor;
    if order != [] {
      var i := order[0];
      assert Indices(order[1..], |p.ts|);
      if Fits(p.ts, i, {}, used, cap) {
        var q := Put(p, i, AdmitView(i, p.ts[i]));
        assert AllStopped(q.ts, order[1..]);
        EvictionsServeTheCandidate(q, order[1..], used, cap);
      } else {
        ChosenIsEvictedFor(p.ts, i, used, cap);
      }
    }
  }

  // ---- what a poll never does -------------------------------------------------------------------------

  /** Only the run state and the policy's own three tags ever change. */
  predicate SameTorrent(t: Torrent, u: Torrent) {
    u == t.(state := u.state, tags := u.tags) &&
    u.tags - {Admitted, Waiting, Rejected} == t.tags - {Admitted, Waiting, Rejected}
  }

  lemma {:induction false} AdmitKeepsIdentity(p: Phase, order: seq<nat>, used: int, cap: int)
    requires Indices(order, |p.ts|)
    ensures forall i :: 0 <= i < |p.ts| ==> SameTorrent(p.ts[i], AdmitFrom(p, order, used, cap).p.ts[i])
    decreases |order|
  {
    if order != [] {
      assert Indices(order[1..], |p.ts|);
      var i := order[0];
      if !IsStopped(p.ts[i].state) {
        AdmitKeepsIdentity(p, order[1..], used, cap);
      } else if Fits(p.ts, i, {}, used, cap) {
        var q := Put(p, i, AdmitView(i, p.ts[i]));
        AdmitKeepsIdentity(q, order[1..], used, cap);
        assert SameTorrent(p.ts[i], q.ts[i]);
      }
    }
  }

  lemma SameTorrentTransitive(t: Torrent, u: Torrent, v: Torrent)
    requires SameTorrent(t, u) && SameTorrent(u, v)
    ensures SameTorrent(t, v)
  {
  }

  lemma StepsKeepIdentity(i: nat, t: Torrent, v: View, was: string, tag: Tag, tags: set<Tag>)
    requires SameTorrent(t, v.t) && tag in {Admitted, Waiting, Rejected} && tags <= {Admitted, Waiting, Rejected}
    ensures SameTorrent(t, Stopped(i, v, was).t) && SameTorrent(t, Tagged(i, v, tag).t)
    ensures SameTorrent(t, Untagged(i, v, tags).t)
  {
  }

  lemma RejectKeepsIdentity(i: nat, t: Torrent, v: View)
    requires SameTorrent(t, v.t)
    ensures SameTorrent(t, RejectView(i, v).t)
  {
    StepsKeepIdentity(i, t, v, v.t.state, Rejected, {});
    var stopped := Stopped(i, v, v.t.state);
    StepsKeepIdentity(i, t, stopped, v.t.state, Rejected, {});
    var marked := if Rejected in stopped.t.tags then stopped else Tagged(i, stopped, Rejected);
    StepsKeepIdentity(i, t, marked, v.t.state, Rejected, {Waiting, Admitted});
  }

  lemma NormalizeKeepsIdentity(i: nat, t: Torrent, cap: int)
    ensures SameTorrent(t, NormalizeView(i, t, cap).t)
  {
    var v := View(t, [], false);
    RejectKeepsIdentity(i, t, v);
    var stopped := Stopped(i, v, t.state);
    StepsKeepIdentity(i, t, v, t.state, Waiting, {});
    StepsKeepIdentity(i, t, stopped, t.state, Waiting, {});
    StepsKeepIdentity(i, t, Tagged(i, stopped, Waiting), t.state, Waiting, {Rejected});
    var freed := if Rejected in t.tags then Untagged(i, Tagged(i, stopped, Waiting), {Rejected}) else v;
    StepsKeepIdentity(i, t, freed, t.state, Waiting, {});
    StepsKeepIdentity(i, t, Stopped(i, freed, t.state).(blocked := !IsStopped(t.state)), t.state, Waiting, {});
  }

  lemma PollKeepsIdentity(ts: seq<Torrent>, used: int, cap: int)
    ensures forall i :: 0 <= i < |ts| ==> SameTorrent(ts[i], Poll(ts, used, cap).p.ts[i])
  {
    if RetentionOrder(ts) == [] {
      var q, p := NormalizeUpTo(ts, cap, |ts|), Prepared(ts, used, cap);
      NormalizedPointwise(ts, cap, |ts|);
      FinishPointwise(q, used, cap, |ts|);
      AdmitKeepsIdentity(p, Candidates(p, cap), used, cap);
      forall i: nat | i < |ts|
        ensures SameTorrent(ts[i], Poll(ts, used, cap).p.ts[i])
      {
        NormalizeKeepsIdentity(i, ts[i], cap);
        assert SameTorrent(q.ts[i], p.ts[i]);
        SameTorrentTransitive(ts[i], q.ts[i], p.ts[i]);
        SameTorrentTransitive(ts[i], p.ts[i], Poll(ts, used, cap).p.ts[i]);
      }
    }
  }

  /** A torrent carrying the keep tag, or stored outside the download root, is never deleted. */
  lemma KeptTorrentsSurvive(ts: seq<Torrent>, used: int, cap: int, i: nat)
    requires i in Poll(ts, used, cap).evicted
    ensures i < |ts| && Keep !in ts[i].tags && ts[i].inside
  {
    PollSynced(ts, used, cap);
    if RetentionOrder(ts) == [] {
      var p := Prepared(ts, used, cap);
      EvictedAreEligible(p, Candidates(p, cap), used, cap);
      PollKeepsIdentity(ts, used, cap);
      var u := Poll(ts, used, cap).p.ts[i];
      assert Keep !in u.tags - {Admitted, Waiting, Rejected};
    }
  }
}
