/** What a whole poll does for the listed torrents: whom it deletes, admits and leaves waiting. */
module HousekeeperProgress {
  import opened Sums
  import opened HousekeeperCapacity
  import opened HousekeeperPoll
  import opened HousekeeperTheorems
  import opened HousekeeperCrash

  // ---- the queue, told from the list ---------------------------------------------------------------

  /** Waiting for its turn in this poll: acceptable, its metadata known, not admitted and stopped when listed. */
  predicate Queued(t: Torrent, cap: int) {
    Acceptable(t, cap) && MetadataReady(t) && Admitted !in t.tags && IsStopped(t.state)
  }

  lemma ReadyCandidate(i: nat, t: Torrent, cap: int)
    requires !MustReject(t, cap) && MetadataReady(t)
    ensures var v := NormalizeView(i, t, cap);
            && (Admitted in v.t.tags <==> Admitted in t.tags)
            && (Admitted !in t.tags ==> (v.blocked <==> !IsStopped(t.state)))
            && (Admitted !in t.tags ==> MetadataReady(v.t))
  {
    StoppedState();
    ReadyTags(i, t, cap);
    ReadyState(i, t, cap);
  }

  /** Normalization makes a candidate of exactly the queued torrents. */
  lemma NormalizedCandidate(i: nat, t: Torrent, cap: int)
    ensures var v := NormalizeView(i, t, cap);
            Queued(t, cap) <==>
            && !v.blocked && MetadataReady(v.t) && v.t.size <= cap
            && Waiting in v.t.tags && Admitted !in v.t.tags && Rejected !in v.t.tags
  {
    hide NormalizeView;
    if MustReject(t, cap) {
      RejectReachesNormal(i, t, cap);
    } else if MetadataReady(t) {
      ReadyTags(i, t, cap);
      ReadyCandidate(i, t, cap);
    } else {
      NormalIsFixed(i, t, cap);
    }
  }

  /** The candidates of a poll are exactly the queued torrents of the list. */
  lemma CandidatesExact(ts: seq<Torrent>, used: int, cap: int, i: nat)
    requires i < |ts|
    ensures Candidate(Prepared(ts, used, cap), i, cap) <==> Queued(ts[i], cap)
  {
    hide NormalizeView;
    var q := NormalizeUpTo(ts, cap, |ts|);
    NormalizedPointwise(ts, cap, |ts|);
    FinishPointwise(q, used, cap, |ts|);
    NormalizedCandidate(i, ts[i], cap);
  }

  /** `order` lists exactly the queued torrents, oldest first. */
  ghost predicate IsQueue(ts: seq<Torrent>, cap: int, order: seq<nat>) {
    && Indices(order, |ts|) && Ordered(ts, AgeKey, order)
    && forall i: nat :: i in order <==> i < |ts| && Queued(ts[i], cap)
  }

  lemma PreparedKeepsIdentity(ts: seq<Torrent>, used: int, cap: int, i: nat)
    requires i < |ts|
    ensures SameTorrent(ts[i], Prepared(ts, used, cap).ts[i])
  {
    var q := NormalizeUpTo(ts, cap, |ts|);
    NormalizedPointwise(ts, cap, |ts|);
    FinishPointwise(q, used, cap, |ts|);
    NormalizeKeepsIdentity(i, ts[i], cap);
    assert SameTorrent(q.ts[i], Prepared(ts, used, cap).ts[i]);
    SameTorrentTransitive(ts[i], q.ts[i], Prepared(ts, used, cap).ts[i]);
  }

  lemma SameAge(t: Torrent, u: Torrent)
    requires SameTorrent(t, u)
    ensures AgeKey(t) == AgeKey(u)
  {
  }

  lemma CandidatesAreTheQueue(ts: seq<Torrent>, used: int, cap: int)
    ensures IsQueue(ts, cap, Candidates(Prepared(ts, used, cap), cap))
  {
    hide Queued, SameTorrent;
    var p := Prepared(ts, used, cap);
    forall i: nat | i < |ts|
      ensures Candidate(p, i, cap) <==> Queued(ts[i], cap)
      ensures AgeKey(ts[i]) == AgeKey(p.ts[i])
    {
      CandidatesExact(ts, used, cap, i);
      PreparedKeepsIdentity(ts, used, cap, i);
      SameAge(ts[i], p.ts[i]);
    }
  }

  // ---- deletions --------------------------------------------------------------------------------------

  predicate NoDeletes(calls: seq<Call>) {
    forall k :: 0 <= k < |calls| ==> !calls[k].Delete?
  }

  lemma StepsDeleteNothing(i: nat, v: View, was: string, tag: Tag, tags: set<Tag>)
    requires NoDeletes(v.calls)
    ensures NoDeletes(Stopped(i, v, was).calls) && NoDeletes(Tagged(i, v, tag).calls)
    ensures NoDeletes(Untagged(i, v, tags).calls)
  {
  }

  lemma RejectDeletesNothing(i: nat, v: View)
    requires NoDeletes(v.calls)
    ensures NoDeletes(RejectView(i, v).calls)
  {
    StepsDeleteNothing(i, v, v.t.state, Rejected, {});
    var stopped := Stopped(i, v, v.t.state);
    StepsDeleteNothing(i, stopped, v.t.state, Rejected, {});
    var marked := if Rejected in stopped.t.tags then stopped else Tagged(i, stopped, Rejected);
    StepsDeleteNothing(i, marked, v.t.state, Rejected, {Waiting, Admitted});
  }

  lemma NormalizeDeletesNothing(i: nat, t: Torrent, cap: int)
    ensures NoDeletes(NormalizeView(i, t, cap).calls)
  {
    var v := View(t, [], false);
    RejectDeletesNothing(i, v);
    StepsDeleteNothing(i, v, t.state, Waiting, {});
    var tagged := Tagged(i, Stopped(i, v, t.state), Waiting);
    StepsDeleteNothing(i, Stopped(i, v, t.state), t.state, Waiting, {});
    StepsDeleteNothing(i, tagged, t.state, Waiting, {Rejected});
    var freed := if Rejected in t.tags then Untagged(i, tagged, {Rejected}) else v;
    StepsDeleteNothing(i, freed, t.state, Waiting, {});
    StepsDeleteNothing(i, Stopped(i, freed, t.state).(blocked := !IsStopped(t.state)), t.state, Waiting, {});
  }

  lemma {:induction false} NormalizationDeletesNothing(ts: seq<Torrent>, cap: int, n: nat)
    requires n <= |ts|
    ensures NoDeletes(NormalizeUpTo(ts, cap, n).calls)
  {
    hide NormalizeView;
    if n > 0 {
      NormalizationDeletesNothing(ts, cap, n - 1);
      NormalizeDeletesNothing(n - 1, ts[n - 1], cap);
    }
  }

  lemma FinishDeletesNothing(i: nat, t: Torrent, fits: bool)
    ensures NoDeletes(FinishView(i, t, fits).calls)
  {
  }

  lemma {:induction false} CompletionDeletesNothing(p: Phase, used: int, cap: int, n: nat)
    requires n <= |p.ts| && NoDeletes(p.calls)
    ensures NoDeletes(FinishUpTo(p, used, cap, n).calls)
  {
    hide FinishView, Fits;
    if n > 0 {
      CompletionDeletesNothing(p, used, cap, n - 1);
      var before := FinishUpTo(p, used, cap, n - 1);
      FinishDeletesNothing(n - 1, p.ts[n - 1], Fits(before.ts, n - 1, {}, used, cap));
    }
  }

  lemma {:induction false} AdmissionDeletesNothing(p: Phase, order: seq<nat>, used: int, cap: int)
    requires Indices(order, |p.ts|) && NoDeletes(p.calls)
    ensures NoDeletes(AdmitFrom(p, order, used, cap).p.calls)
    decreases |order|
  {
    hide Fits, PressureOrder, EvictionCount, IsStopped;
    if order != [] {
      var i := order[0];
      assert Indices(order[1..], |p.ts|);
      if !IsStopped(p.ts[i].state) {
        AdmissionDeletesNothing(p, order[1..], used, cap);
      } else if Fits(p.ts, i, {}, used, cap) {
        AdmissionDeletesNothing(Put(p, i, AdmitView(i, p.ts[i])), order[1..], used, cap);
      }
    }
  }

  lemma DeletesExactly(calls: seq<Call>, xs: seq<nat>, i: nat)
    requires NoDeletes(calls)
    ensures Delete(i) in calls + Deletions(xs) <==> i in xs
  {
    if k: nat :| k < |xs| && xs[k] == i {
      assert (calls + Deletions(xs))[|calls| + k] == Delete(i);
    }
  }

  /** The delete calls of a poll are exactly those for what it evicts. */
  lemma PollDeletesExactly(ts: seq<Torrent>, used: int, cap: int, i: nat)
    ensures Delete(i) in Poll(ts, used, cap).p.calls <==> i in Poll(ts, used, cap).evicted
  {
    var expired := RetentionOrder(ts);
    if expired != [] {
      DeletesExactly([], expired, i);
      assert [] + Deletions(expired) == Deletions(expired);
    } else {
      var q, p := NormalizeUpTo(ts, cap, |ts|), Prepared(ts, used, cap);
      NormalizationDeletesNothing(ts, cap, |ts|);
      CompletionDeletesNothing(q, used, cap, |ts|);
      AdmissionDeletesNothing(p, Candidates(p, cap), used, cap);
      var a := AdmitFrom(p, Candidates(p, cap), used, cap);
      DeletesExactly(a.p.calls, a.evicted, i);
    }
  }

  /** Among the calls `log` has beyond `before`, the delete calls are those for `evicted`. */
  ghost predicate DeletesSince(before: seq<Call>, log: seq<Call>, evicted: seq<nat>) {
    before <= log && forall i: nat :: Delete(i) in log[|before|..] <==> i in evicted
  }

  lemma PollDeletesSince(before: seq<Call>, ts: seq<Torrent>, used: int, cap: int)
    ensures DeletesSince(before, before + Poll(ts, used, cap).p.calls, Poll(ts, used, cap).evicted)
  {
    hide Poll;
    var a := Poll(ts, used, cap);
    assert (before + a.p.calls)[|before|..] == a.p.calls;
    forall i: nat {
      PollDeletesExactly(ts, used, cap, i);
    }
  }

  predicate SameLetter(c: char, d: char) {
    c == d || ('a' <= d <= 'z' && c == d - 'a' + 'A')
  }

  predicate SameIgnoringCase(s: string, name: string) {
    |s| == |name| && forall k :: 0 <= k < |s| ==> SameLetter(s[k], name[k])
  }

  predicate LowerCase(name: string) {
    forall k :: 0 <= k < |name| ==> !('A' <= name[k] <= 'Z')
  }

  lemma {:induction false} LowerExactly(s: string, name: string)
    requires LowerCase(name)
    ensures Lower(s) == name <==> SameIgnoringCase(s, name)
  {
    if s != "" {
      if name != "" {
        LowerExactly(s[1..], name[1..]);
        assert SameIgnoringCase(s, name) <==> SameLetter(s[0], name[0]) && SameIgnoringCase(s[1..], name[1..]);
      }
    }
  }

  /** The state is one of those pressure eviction knows, in capitals or not. */
  lemma EvictionStateExactly(state: string)
    ensures EvictionState(state) <==> exists name :: name in EVICTION_STATES && SameIgnoringCase(state, name)
  {
    forall name | name in EVICTION_STATES
      ensures Lower(state) == name <==> SameIgnoringCase(state, name)
    {
      LowerExactly(state, name);
    }
  }

  /**
    Nothing is deleted without cause: never what is marked to be kept or lies outside the root, and only what is past
    its retention or else a finished reservation, its data sound, in a known state.
   */
  lemma DeletedWithCause(ts: seq<Torrent>, used: int, cap: int, i: nat)
    requires Delete(i) in Poll(ts, used, cap).p.calls
    ensures i < |ts| && Keep !in ts[i].tags && ts[i].inside
    ensures var u := Poll(ts, used, cap).p.ts[i];
            || ts[i].pastRetention
            || (&& ts[i].evictable && Admitted in u.tags && Waiting !in u.tags && Rejected !in u.tags
                && exists name :: name in EVICTION_STATES && SameIgnoringCase(u.state, name))
  {
    hide Prepared, Candidates, AdmitFrom, EvictionState, SameIgnoringCase;
    PollDeletesExactly(ts, used, cap, i);
    KeptTorrentsSurvive(ts, used, cap, i);
    PollKeepsIdentity(ts, used, cap);
    if RetentionOrder(ts) == [] {
      var p := Prepared(ts, used, cap);
      EvictedAreEligible(p, Candidates(p, cap), used, cap);
      EvictionStateExactly(Poll(ts, used, cap).p.ts[i].state);
    }
  }

  // ---- the poll ---------------------------------------------------------------------------------------

  /** Past its retention, unprotected and inside the root. */
  ghost predicate SomeExpired(ts: seq<Torrent>) {
    exists i :: 0 <= i < |ts| && RetentionEligible(ts[i])
  }

  /** `xs` are exactly the expired torrents, oldest first. */
  ghost predicate AllExpired(ts: seq<Torrent>, xs: seq<nat>) {
    && Indices(xs, |ts|) && Ordered(ts, AgeKey, xs)
    && forall i: nat :: i in xs <==> i < |ts| && RetentionEligible(ts[i])
  }

  predicate Started(t: Torrent) {
    !IsStopped(t.state) && Held(t) && Waiting !in t.tags
  }

  predicate Waits(t: Torrent) {
    IsStopped(t.state) && Waiting in t.tags && Admitted !in t.tags && Rejected !in t.tags
  }

  predicate TurnedAway(t: Torrent) {
    IsStopped(t.state) && Rejected in t.tags && Waiting !in t.tags && Admitted !in t.tags
  }

  /** Admitted, and found waiting or, its metadata known, rejected as well: an admission that was not finished. */
  predicate Unfinished(t: Torrent) {
    Admitted in t.tags && if Rejected in t.tags then MetadataReady(t) else Waiting in t.tags
  }

  /** What becomes of a listed torrent `t` in a poll without retention deletions. */
  predicate Becomes(t: Torrent, u: Torrent, cap: int, fits: bool, admitted: bool) {
    if MustReject(t, cap) then TurnedAway(u)
    else if Unfinished(t) then Held(u) && if fits then Started(u) else IsStopped(u.state) && Waiting in u.tags
    else if Admitted in t.tags || !MetadataReady(t) then u == t
    else if admitted then Started(u)
    else Waits(u)
  }

  /** Reserving the torrent would commit to more than the cap; the top cap value stands for no cap. */
  predicate OverCap(ts: seq<Torrent>, cand: nat, used: int, cap: int)
    requires cand < |ts|
  {
    cap != MAX_INT64 && Holdings(ts[cand := WithTag(ts[cand], Admitted, true)], used) > cap
  }

  /**
    The queue is served from its head: an initial part is admitted and started, and what is then committed is within
    the cap; the first torrent after it would exceed it, and what is evicted is evicted for it.
   */
  ghost predicate Serves(after: seq<Torrent>, order: seq<nat>, admitted: seq<nat>, evicted: seq<nat>, used: int, cap: int)
  {
    && admitted <= order
    && (forall i :: i in admitted ==> i < |after| && Started(after[i]))
    && (admitted != [] ==> cap == MAX_INT64 || Holdings(after, used) <= cap)
    && (admitted == order ==> evicted == [])
    && (admitted < order ==>
          var next := order[|admitted|];
          next < |after| && OverCap(after, next, used, cap) && EvictsFor(after, next, evicted, used, cap))
  }

  lemma UnfitIsOverCap(ts: seq<Torrent>, cand: nat, used: int, cap: int)
    requires cand < |ts| && Rejected !in ts[cand].tags
    ensures OverCap(ts, cand, used, cap) <==> !Fits(ts, cand, {}, used, cap)
  {
    var u := WithTag(ts[cand], Admitted, true);
    AdmittedTotals(ts, cand, u, |ts|);
    TotalsBounds(ts, cand, {}, |ts|);
    TotalsBounds(ts[cand := u], NO_CANDIDATE, {}, |ts|);
  }

  lemma AdmittedStarted(i: nat, t: Torrent)
    ensures Started(AdmitView(i, t).t)
  {
    StoppedState();
    var tagged := Tagged(i, View(t, [], false), Admitted);
    var present := tagged.t.tags * {Waiting, Rejected};
    assert Waiting in tagged.t.tags ==> Waiting in present;
    assert Rejected in tagged.t.tags ==> Rejected in present;
  }

  lemma {:induction false} AdmissionStarts(p: Phase, order: seq<nat>, used: int, cap: int, i: nat)
    requires Indices(order, |p.ts|) && AllStopped(p.ts, order)
    requires i in AdmitFrom(p, order, used, cap).admitted
    ensures i < |p.ts| && Started(AdmitFrom(p, order, used, cap).p.ts[i])
    decreases |order|
  {
    hide Fits, PressureOrder, EvictionCount, IsStopped, Started;
    if order != [] {
      var h := order[0];
      assert Indices(order[1..], |p.ts|);
      if Fits(p.ts, h, {}, used, cap) {
        var q := Put(p, h, AdmitView(h, p.ts[h]));
        assert AllStopped(q.ts, order[1..]);
        AdmissionIsPrefix(q, order[1..], used, cap);
        AdmittedStarted(h, p.ts[h]);
        if i in AdmitFrom(q, order[1..], used, cap).admitted {
          AdmissionStarts(q, order[1..], used, cap, i);
        }
      }
    }
  }

  lemma FitsWithoutCandidate(ts: seq<Torrent>, used: int, cap: int)
    ensures Fits(ts, NO_CANDIDATE, {}, used, cap) <==> cap == MAX_INT64 || Holdings(ts, used) <= cap
  {
  }

  lemma AdmissionServes(ts: seq<Torrent>, used: int, cap: int)
    ensures var p := Prepared(ts, used, cap); var a := AdmitFrom(p, Candidates(p, cap), used, cap);
            Serves(a.p.ts, Candidates(p, cap), a.admitted, a.evicted, used, cap)
  {
    hide Started, ServesCandidate, NoEvictionHelps, OverCap, Fits;
    var p := Prepared(ts, used, cap);
    var order := Candidates(p, cap);
    var a := AdmitFrom(p, order, used, cap);
    CandidatesAreStopped(ts, used, cap);
    forall k | 0 <= k < |order|
      ensures IsStopped(p.ts[order[k]].state) && Admitted !in p.ts[order[k]].tags && Rejected !in p.ts[order[k]].tags
    {
      assert order[k] in order;
      assert Candidate(p, order[k], cap);
    }
    AdmissionIsPrefix(p, order, used, cap);
    EvictionsServeTheCandidate(p, order, used, cap);
    if a.admitted != [] {
      AdmissionRespectsCap(p, order, used, cap);
      FitsWithoutCandidate(a.p.ts, used, cap);
    }
    if a.admitted < order {
      var next := order[|a.admitted|];
      assert next !in a.admitted;
      UnfitIsOverCap(a.p.ts, next, used, cap);
    }
    forall i | i in a.admitted
      ensures i < |p.ts| && Started(a.p.ts[i])
    {
      AdmissionStarts(p, order, used, cap, i);
    }
  }

  lemma UnfinishedWaits(i: nat, t: Torrent, cap: int)
    requires !MustReject(t, cap) && MetadataReady(t) && Admitted in t.tags
    ensures Waiting in NormalizeView(i, t, cap).t.tags <==> Waiting in t.tags || Rejected in t.tags
  {
  }

  lemma NormalizedUnfinished(i: nat, t: Torrent, cap: int)
    requires !MustReject(t, cap)
    ensures Interrupted(NormalizeView(i, t, cap).t) <==> Unfinished(t)
    ensures Unfinished(t) || Admitted in t.tags || !MetadataReady(t) || Waits(NormalizeView(i, t, cap).t)
    ensures !Unfinished(t) && (Admitted in t.tags || !MetadataReady(t)) ==> NormalizeView(i, t, cap).t == t
  {
    hide NormalizeView;
    if MetadataReady(t) {
      ReadyTags(i, t, cap);
      ReadyReachesNormal(i, t, cap);
      if Admitted in t.tags {
        UnfinishedWaits(i, t, cap);
      }
    }
    NormalIsFixed(i, t, cap);
  }

  lemma FinishedUnfit(i: nat, t: Torrent)
    requires Interrupted(t)
    ensures var u := FinishView(i, t, false).t; IsStopped(u.state) && u.tags == t.tags
  {
    StoppedState();
  }

  /** What preparation makes of a listed torrent. */
  lemma PreparedBecomes(ts: seq<Torrent>, used: int, cap: int, i: nat)
    requires i < |ts|
    ensures Becomes(ts[i], Prepared(ts, used, cap).ts[i], cap,
                    Fits(NormalizeUpTo(ts, cap, |ts|).ts, i, {}, used, cap), false)
  {
    hide NormalizeView, FinishView, Fits;
    var q := NormalizeUpTo(ts, cap, |ts|);
    NormalizedPointwise(ts, cap, |ts|);
    FinishPointwise(q, used, cap, |ts|);
    if MustReject(ts[i], cap) {
      RejectReachesNormal(i, ts[i], cap);
    } else {
      NormalizedUnfinished(i, ts[i], cap);
      if Unfinished(ts[i]) {
        FinishedAt(q, used, cap, |ts|, i);
        FinishOne(i, q.ts[i], true);
        FinishedUnfit(i, q.ts[i]);
      }
    }
  }

  lemma AdmittedBecomes(ts: seq<Torrent>, used: int, cap: int, i: nat)
    requires i < |ts|
    ensures var p := Prepared(ts, used, cap); var a := AdmitFrom(p, Candidates(p, cap), used, cap);
            Becomes(ts[i], a.p.ts[i], cap, Fits(NormalizeUpTo(ts, cap, |ts|).ts, i, {}, used, cap), i in a.admitted)
  {
    hide Fits, Started, Waits, TurnedAway;
    var p := Prepared(ts, used, cap);
    var a := AdmitFrom(p, Candidates(p, cap), used, cap);
    PreparedBecomes(ts, used, cap, i);
    CandidatesAreTheQueue(ts, used, cap);
    AdmissionServes(ts, used, cap);
    CandidatesAreStopped(ts, used, cap);
    AdmissionIsPrefix(p, Candidates(p, cap), used, cap);
    if i in a.admitted {
      assert i in Candidates(p, cap);
      assert Queued(ts[i], cap);
    }
  }

  /** The whole result of a poll. */
  ghost predicate Served(ts: seq<Torrent>, used: int, cap: int, after: seq<Torrent>, admitted: seq<nat>, evicted: seq<nat>)
  {
    if SomeExpired(ts) then after == ts && admitted == [] && AllExpired(ts, evicted)
    else
      && |after| == |ts|
      && (exists order :: IsQueue(ts, cap, order) && Serves(after, order, admitted, evicted, used, cap))
      && forall i: nat :: i < |ts| ==>
           Becomes(ts[i], after[i], cap, Fits(NormalizeUpTo(ts, cap, |ts|).ts, i, {}, used, cap), i in admitted)
  }

  /**
    A poll deletes all that is expired, or otherwise serves the queue from its head and settles every
    other torrent: what it must do, told from the torrents as listed.
   */
  lemma PollServes(ts: seq<Torrent>, used: int, cap: int)
    ensures var a := Poll(ts, used, cap); Served(ts, used, cap, a.p.ts, a.admitted, a.evicted)
  {
    hide Fits, Started, Waits, TurnedAway, Unfinished, Queued, Serves;
    var a := Poll(ts, used, cap);
    var expired := RetentionOrder(ts);
    assert SomeExpired(ts) <==> expired != [] by {
      if i: nat :| i < |ts| && RetentionEligible(ts[i]) {
        assert i in expired;
      }
      if expired != [] {
        assert expired[0] in expired;
      }
    }
    if expired == [] {
      var p := Prepared(ts, used, cap);
      var order := Candidates(p, cap);
      CandidatesAreTheQueue(ts, used, cap);
      AdmissionServes(ts, used, cap);
      forall i: nat | i < |ts|
        ensures Becomes(ts[i], a.p.ts[i], cap, Fits(NormalizeUpTo(ts, cap, |ts|).ts, i, {}, used, cap), i in a.admitted)
      {
        AdmittedBecomes(ts, used, cap, i);
      }
    }
  }

  /**
    A torrent inside the root that still fetches its metadata is left alone, unless its admission was interrupted:
    it is neither stopped nor tagged, and it is never admitted.
   */
  lemma FetchingIsLeftAlone(ts: seq<Torrent>, used: int, cap: int, i: nat)
    requires i < |ts| && ts[i].inside && !Interrupted(ts[i])
    requires ts[i].size <= 0 || ts[i].state == "metaDL" || ts[i].state == "checkingResumeData"
    ensures Poll(ts, used, cap).p.ts[i] == ts[i] && i !in Poll(ts, used, cap).admitted
  {
    hide Poll, Fits, Started, Waits, TurnedAway, OverCap, EvictsFor;
    PollServes(ts, used, cap);
    var a := Poll(ts, used, cap);
    if !SomeExpired(ts) {
      var order :| IsQueue(ts, cap, order) && Serves(a.p.ts, order, a.admitted, a.evicted, used, cap);
      assert forall k :: 0 <= k < |a.admitted| ==> a.admitted[k] == order[k] && order[k] in order;
    }
  }

  // ---- the order of the queue -------------------------------------------------------------------------

  predicate DistinctHashes(ts: seq<Torrent>) {
    forall i, j :: 0 <= i < j < |ts| ==> ts[i].hash != ts[j].hash
  }

  /** A torrent counts from its completion, or from when it was added while it is not complete; it may have neither. */
  predicate DatesFrom(t: Torrent, at: int) {
    at > 0 && if t.completionOn > 0 then at == t.completionOn else at == t.addedOn
  }

  /** Later in the queue is younger, by hash at the same instant, and undated torrents come after all dated ones. */
  lemma QueueRunsByAge(ts: seq<Torrent>, cap: int, order: seq<nat>, j: nat, k: nat)
    requires IsQueue(ts, cap, order) && j < k < |order|
    ensures var t, u := ts[order[j]], ts[order[k]];
            && (forall a, b :: DatesFrom(t, a) && DatesFrom(u, b) ==> a < b || (a == b && t.hash <= u.hash))
            && (forall b :: DatesFrom(u, b) && b < MAX_INT64 ==> exists a :: DatesFrom(t, a))
  {
    var t, u := ts[order[j]], ts[order[k]];
    assert !Before(AgeKey(u), AgeKey(t));
    forall b | DatesFrom(u, b) && b < MAX_INT64
      ensures DatesFrom(t, AgeKey(t).0)
    {
    }
  }

  lemma HeadOfOrder(ts: seq<Torrent>, xs: seq<nat>, ys: seq<nat>)
    requires DistinctHashes(ts) && Indices(xs, |ts|) && Indices(ys, |ts|)
    requires Ordered(ts, AgeKey, xs) && Ordered(ts, AgeKey, ys)
    requires (forall i :: i in xs <==> i in ys) && xs != [] && ys != []
    ensures xs[0] == ys[0]
  {
    assert xs[0] in ys && ys[0] in xs;
    var x, y := AgeKey(ts[xs[0]]), AgeKey(ts[ys[0]]);
    assert !Before(x, y) && !Before(y, x);
  }

  lemma TailOfOrder(xs: seq<nat>, n: nat, i: nat)
    requires Indices(xs, n) && xs != []
    ensures i in xs[1..] <==> i in xs && i != xs[0]
  {
  }

  lemma {:induction false} OneOrder(ts: seq<Torrent>, xs: seq<nat>, ys: seq<nat>)
    requires DistinctHashes(ts) && Indices(xs, |ts|) && Indices(ys, |ts|)
    requires Ordered(ts, AgeKey, xs) && Ordered(ts, AgeKey, ys)
    requires forall i :: i in xs <==> i in ys
    ensures xs == ys
  {
    assert ys != [] ==> ys[0] in ys && ys[0] in xs;
    if xs != [] {
      assert xs[0] in xs && xs[0] in ys;
      HeadOfOrder(ts, xs, ys);
      forall i: nat
        ensures i in xs[1..] <==> i in ys[1..]
      {
        TailOfOrder(xs, |ts|, i);
        TailOfOrder(ys, |ts|, i);
      }
      OneOrder(ts, xs[1..], ys[1..]);
      assert xs == [xs[0]] + xs[1..] && ys == [ys[0]] + ys[1..];
    }
  }

  /** Hashes being unique, there is one queue: whatever sorts the candidates, the same torrents are served. */
  lemma QueueIsUnique(ts: seq<Torrent>, cap: int, xs: seq<nat>, ys: seq<nat>)
    requires DistinctHashes(ts) && IsQueue(ts, cap, xs) && IsQueue(ts, cap, ys)
    ensures xs == ys
  {
    forall i
      ensures i in xs <==> i in ys
    {
      if i in xs || i in ys {
        assert i >= 0;
      }
    }
    OneOrder(ts, xs, ys);
  }
}
