/** The housekeeper engine as it runs: loops over its in-memory torrents, one API call at a time. */
module HousekeeperEngine {
  import opened Sums
  import opened HousekeeperCapacity
  import opened HousekeeperPoll
  import opened HousekeeperProgress
  import opened HousekeeperTheorems
  import opened Wrappers

  // ---- capacity check and snapshot -----------------------------------------------------------------

  lemma {:induction false} ReclaimedGrows(ts: seq<Torrent>, out: set<nat>, x: nat, n: nat)
    requires x < |ts| && x !in out && n <= |ts|
    ensures Reclaimed(ts, out + {x}, n) == Reclaimed(ts, out, n) + if x < n then Materialized(ts[x]) else 0
  {
    if n > 0 {
      ReclaimedGrows(ts, out, x, n - 1);
    }
  }

  function ReservedOthers(ts: seq<Torrent>, cand: int, out: set<nat>, n: nat): (r: int)
    requires n <= |ts|
    ensures 0 <= r
  {
    if n == 0 then 0
    else ReservedOthers(ts, cand, out, n - 1) + if n - 1 == cand then 0 else ReserveTerm(ts, n - 1, cand, out)
  }

  function OnDiskOthers(ts: seq<Torrent>, cand: int, out: set<nat>, n: nat): (r: int)
    requires n <= |ts|
    ensures 0 <= r
  {
    if n == 0 then 0
    else OnDiskOthers(ts, cand, out, n - 1) + if n - 1 == cand then 0 else DiskTerm(ts, n - 1, cand, out)
  }

  lemma {:induction false} ReservedWithCandidate(ts: seq<Torrent>, cand: nat, out: set<nat>, n: nat)
    requires cand < |ts| && n <= |ts|
    ensures Reserved(ts, cand, out, n) == ReservedOthers(ts, cand, out, n) + if cand < n then Max0(ts[cand].size) else 0
    ensures OnDisk(ts, cand, out, n) == OnDiskOthers(ts, cand, out, n) + if cand < n then Materialized(ts[cand]) else 0
  {
    if n > 0 {
      ReservedWithCandidate(ts, cand, out, n - 1);
    }
  }

  /** The verdict, told from the saturated totals. */
  lemma FitsByTotals(ts: seq<Torrent>, cand: nat, out: set<nat>, used: int64, cap: int64, predicted: int, reserved: int,
                     materialized: int)
    requires cand < |ts| && 0 <= used && 0 < cap && predicted == Max0(used - Reclaimed(ts, out, |ts|))
    requires reserved == Min(MAX_INT64, Reserved(ts, cand, out, |ts|))
    requires materialized == Min(MAX_INT64, OnDisk(ts, cand, out, |ts|))
    ensures Fits(ts, cand, out, used, cap) <==>
            reserved <= cap && predicted <= cap && Min(MAX_INT64, Max0(predicted - materialized) + reserved) <= cap
  {
    TotalsBounds(ts, cand, out, |ts|);
  }

  /**
    The saturating int64 check, with both of its early guards, decides exactly whether the candidate
    fits by unbounded arithmetic.
   */
  method FitsAfterPressureEvictions(ts: seq<Torrent>, cand: nat, used: int64, cap: int64, evicted: seq<nat>)
    returns (fits: bool)
    requires cand < |ts| && 0 <= used && 0 < cap && Indices(evicted, |ts|)
    ensures fits <==> Fits(ts, cand, Members(evicted), used, cap)
  {
    hide Fits;
    ghost var out := Members(evicted);
    var predicted: int := used;
    assert Members(evicted[..0]) == {};
    TotalsBounds(ts, cand, {}, |ts|);
    for k := 0 to |evicted|
      invariant predicted == Max0(used - Reclaimed(ts, Members(evicted[..k]), |ts|))
    {
      assert Members(evicted[..k + 1]) == Members(evicted[..k]) + {evicted[k]};
      TotalsBounds(ts, cand, Members(evicted[..k]), |ts|);
      ReclaimedGrows(ts, Members(evicted[..k]), evicted[k], |ts|);
      var reclaimed := Materialized(ts[evicted[k]]);
      if reclaimed >= predicted {
        predicted := 0;
      } else {
        predicted := predicted - reclaimed;
      }
    }
    assert evicted[..|evicted|] == evicted;

    var reserved, materialized := 0, 0;
    for i := 0 to |ts|
      invariant reserved == Min(MAX_INT64, ReservedOthers(ts, cand, out, i))
      invariant materialized == Min(MAX_INT64, OnDiskOthers(ts, cand, out, i))
    {
      if i == cand || Admitted !in ts[i].tags || Rejected in ts[i].tags {
        continue;
      }
      if i in evicted {
        continue;
      }
      reserved := SaturatingAdd(reserved, ts[i].size);
      materialized := SaturatingAdd(materialized, Materialized(ts[i]));
    }
    reserved := SaturatingAdd(reserved, ts[cand].size);
    materialized := SaturatingAdd(materialized, Materialized(ts[cand]));
    ReservedWithCandidate(ts, cand, out, |ts|);
    FitsByTotals(ts, cand, out, used, cap, predicted, reserved, materialized);
    if reserved > cap || predicted > cap {
      return false;
    }
    var untracked := predicted - materialized;
    if untracked < 0 {
      untracked := 0;
    }
    var committed := SaturatingAdd(untracked, reserved);
    fits := committed <= cap;
  }

  datatype Snapshot = Snapshot(
    torrents: nat, admitted: nat, waiting: nat, rejected: nat, unmanaged: nat, kept: nat, reserved: int, committed: int)

  /** The torrents among the first `n` that satisfy `p`. */
  function Which(ts: seq<Torrent>, p: Torrent -> bool, n: nat): set<nat>
    requires n <= |ts|
  {
    set i: nat | i < n && p(ts[i])
  }

  lemma WhichGrows(ts: seq<Torrent>, p: Torrent -> bool, n: nat)
    requires n < |ts|
    ensures |Which(ts, p, n + 1)| == |Which(ts, p, n)| + if p(ts[n]) then 1 else 0
  {
    assert Which(ts, p, n + 1) == Which(ts, p, n) + if p(ts[n]) then {n} else {};
  }

  const REJECTED := (t: Torrent) => Rejected in t.tags
  const HELD := (t: Torrent) => Held(t)
  const WAITING := (t: Torrent) => Waiting in t.tags && Rejected !in t.tags && Admitted !in t.tags
  const UNMANAGED := (t: Torrent) => Waiting !in t.tags && Rejected !in t.tags && Admitted !in t.tags
  const KEPT := (t: Torrent) => Keep in t.tags

  /** Every count is that of the torrents it stands for, among the first `n`. */
  ghost predicate Counts(s: Snapshot, ts: seq<Torrent>, n: nat)
    requires n <= |ts|
  {
    && s.rejected == |Which(ts, REJECTED, n)| && s.admitted == |Which(ts, HELD, n)|
    && s.waiting == |Which(ts, WAITING, n)| && s.unmanaged == |Which(ts, UNMANAGED, n)|
    && s.kept == |Which(ts, KEPT, n)|
  }

  lemma CountsGrow(s: Snapshot, s': Snapshot, ts: seq<Torrent>, n: nat)
    requires n < |ts| && Counts(s, ts, n)
    requires s'.rejected == s.rejected + if REJECTED(ts[n]) then 1 else 0
    requires s'.admitted == s.admitted + if HELD(ts[n]) then 1 else 0
    requires s'.waiting == s.waiting + if WAITING(ts[n]) then 1 else 0
    requires s'.unmanaged == s.unmanaged + if UNMANAGED(ts[n]) then 1 else 0
    requires s'.kept == s.kept + if KEPT(ts[n]) then 1 else 0
    ensures Counts(s', ts, n + 1)
  {
    WhichGrows(ts, REJECTED, n);
    WhichGrows(ts, HELD, n);
    WhichGrows(ts, WAITING, n);
    WhichGrows(ts, UNMANAGED, n);
    WhichGrows(ts, KEPT, n);
  }

  lemma NothingCounted(s: Snapshot, ts: seq<Torrent>)
    requires s.rejected == s.admitted == s.waiting == s.unmanaged == s.kept == 0
    ensures Counts(s, ts, 0)
  {
  }

  lemma SameCounts(s: Snapshot, s': Snapshot, ts: seq<Torrent>)
    requires Counts(s, ts, |ts|) && s' == s.(committed := s'.committed)
    ensures Counts(s', ts, |ts|)
  {
  }

  /** The status a poll records: exact counts, every torrent in one class, and saturated byte figures. */
  method TakeSnapshot(ts: seq<Torrent>, used: int64) returns (s: Snapshot)
    requires 0 <= used
    ensures s.torrents == |ts| == s.admitted + s.waiting + s.rejected + s.unmanaged && Counts(s, ts, |ts|)
    ensures s.reserved == Min(MAX_INT64, Reserved(ts, NO_CANDIDATE, {}, |ts|))
    ensures s.committed == Min(MAX_INT64, Holdings(ts, used))
  {
    hide Counts;
    s := Snapshot(|ts|, 0, 0, 0, 0, 0, 0, 0);
    NothingCounted(s, ts);
    var materialized := 0;
    for i := 0 to |ts|
      invariant s.torrents == |ts| && s.admitted + s.waiting + s.rejected + s.unmanaged == i && Counts(s, ts, i)
      invariant s.reserved == Min(MAX_INT64, Reserved(ts, NO_CANDIDATE, {}, i))
      invariant materialized == Min(MAX_INT64, OnDisk(ts, NO_CANDIDATE, {}, i))
      invariant 0 <= OnDisk(ts, NO_CANDIDATE, {}, i) <= Reserved(ts, NO_CANDIDATE, {}, i)
    {
      ghost var before := s;
      if Rejected in ts[i].tags {
        s := s.(rejected := s.rejected + 1);
      } else if Admitted in ts[i].tags {
        s := s.(admitted := s.admitted + 1, reserved := SaturatingAdd(s.reserved, ts[i].size));
        materialized := SaturatingAdd(materialized, Materialized(ts[i]));
      } else if Waiting in ts[i].tags {
        s := s.(waiting := s.waiting + 1);
      } else {
        s := s.(unmanaged := s.unmanaged + 1);
      }
      if Keep in ts[i].tags {
        s := s.(kept := s.kept + 1);
      }
      CountsGrow(before, s, ts, i);
    }
    TotalsBounds(ts, NO_CANDIDATE, {}, |ts|);
    var untracked := used - materialized;
    if untracked < 0 {
      untracked := 0;
    }
    ghost var counted := s;
    s := s.(committed := SaturatingAdd(untracked, s.reserved));
    SameCounts(counted, s, ts);
  }

  // ---- one poll, call by call ------------------------------------------------------------------------

  /** How the service answers the call made when the log has that many entries. */
  type Answers = nat -> Ending

  /** The calls that would be entries `lo` to `hi` of the log all work. */
  predicate AllWork(answers: Answers, lo: int, hi: int) {
    forall k: nat :: lo <= k < hi ==> answers(k).Works?
  }

  /** The m-th of the calls fails after all before it worked; it is the last one sent and may have taken effect. */
  predicate StopsAt(answers: Answers, before: seq<Call>, after: seq<Call>, calls: seq<Call>, m: nat)
    requires m < |calls|
  {
    && AllWork(answers, |before|, |before| + m) && !answers(|before| + m).Works?
    && after == before + calls[..if answers(|before| + m).Happened() then m + 1 else m]
  }

  /** Calls go out in order up to the first that fails: all of them if and only if every one works. */
  ghost predicate Attempted(answers: Answers, before: seq<Call>, after: seq<Call>, calls: seq<Call>, ok: bool) {
    if ok then AllWork(answers, |before|, |before| + |calls|) && after == before + calls
    else exists m: nat :: m < |calls| && StopsAt(answers, before, after, calls, m)
  }

  lemma AttemptedThen(answers: Answers, a: seq<Call>, b: seq<Call>, c: seq<Call>, first: seq<Call>, second: seq<Call>,
                      ok: bool)
    requires b == a + first && AllWork(answers, |a|, |b|) && Attempted(answers, b, c, second, ok)
    ensures Attempted(answers, a, c, first + second, ok)
  {
    assert a + (first + second) == b + second;
    if !ok {
      var m: nat :| m < |second| && StopsAt(answers, b, c, second, m);
      assert (first + second)[..|first| + m] == first + second[..m];
      assert (first + second)[..|first| + m + 1] == first + second[..m + 1];
      assert StopsAt(answers, a, c, first + second, |first| + m);
    }
  }

  lemma AttemptedPart(answers: Answers, a: seq<Call>, b: seq<Call>, first: seq<Call>, all: seq<Call>)
    requires Attempted(answers, a, b, first, false) && first <= all
    ensures Attempted(answers, a, b, all, false)
  {
    var m: nat :| m < |first| && StopsAt(answers, a, b, first, m);
    assert all[..m] == first[..m] && all[..m + 1] == first[..m + 1];
    assert StopsAt(answers, a, b, all, m);
  }

  /** Whatever call a stretch stops at, what was sent is a prefix of it. */
  lemma AttemptedPrefix(answers: Answers, before: seq<Call>, after: seq<Call>, calls: seq<Call>, ok: bool)
    requires Attempted(answers, before, after, calls, ok)
    ensures before <= after <= before + calls
    ensures ok <==> AllWork(answers, |before|, |before| + |calls|)
  {
    if !ok {
      var m: nat :| m < |calls| && StopsAt(answers, before, after, calls, m);
      assert calls == calls[..m] + calls[m..] && calls == calls[..m + 1] + calls[m + 1..];
    }
  }

  lemma {:induction false} FinishCallsGrow(p: Phase, used: int, cap: int, m: nat, n: nat)
    requires m <= n <= |p.ts|
    ensures FinishUpTo(p, used, cap, m).calls <= FinishUpTo(p, used, cap, n).calls
  {
    hide FinishView, Fits;
    if m < n {
      FinishCallsGrow(p, used, cap, m, n - 1);
    }
  }

  lemma CandidatesIgnoreCalls(p: Phase, cap: int)
    ensures Candidates(p, cap) == Candidates(Phase(p.ts, [], p.blocked), cap)
  {
    var q := Phase(p.ts, [], p.blocked);
    assert (set i | 0 <= i < |p.ts| && Candidate(p, i, cap)) == (set i | 0 <= i < |q.ts| && Candidate(q, i, cap));
  }

  class Engine {
    const cap: int64

    var log: seq<Call>
    var torrents: array<Torrent>
    var blocked: set<nat>

    /** What the service will answer in the current poll. */
    var answers: Answers

    constructor (cap: int64)
      requires 0 < cap
      ensures this.cap == cap && log == [] && blocked == {} && fresh(torrents)
    {
      this.cap, log, blocked := cap, [], {};
      torrents, answers := new Torrent[0], n => Works;
    }

    /** The log went from `before` to what it is now by an attempt at `calls`. */
    ghost predicate Attempt(before: seq<Call>, after: seq<Call>, calls: seq<Call>, ok: bool)
      reads this`answers
    {
      Attempted(answers, before, after, calls, ok)
    }

    lemma AttemptThen(a: seq<Call>, b: seq<Call>, c: seq<Call>, first: seq<Call>, second: seq<Call>, ok: bool)
      requires b == a + first && AllWork(answers, |a|, |b|) && Attempt(b, c, second, ok)
      ensures Attempt(a, c, first + second, ok)
    {
      AttemptedThen(answers, a, b, c, first, second, ok);
    }

    lemma AttemptFailed(a: seq<Call>, b: seq<Call>, first: seq<Call>, all: seq<Call>)
      requires Attempt(a, b, first, false) && first <= all
      ensures Attempt(a, b, all, false)
    {
      AttemptedPart(answers, a, b, first, all);
    }

    method Invoke(c: Call) returns (ok: bool)
      modifies this`log
      ensures Attempt(old(log), log, [c], ok)
    {
      ghost var before := log;
      var answer := answers(|log|);
      ok := answer.Works?;
      if answer.Happened() {
        log := log + [c];
      }
      assert [c][..0] == [] && [c][..1] == [c];
      assert !ok ==> StopsAt(answers, before, log, [c], 0);
    }

    /** The engine's copy of torrent `i` and its part of the log follow `v`, starting from `start`. */
    ghost predicate Follows(start: seq<Call>, i: nat, v: View)
      reads this, torrents
    {
      && i < torrents.Length && torrents[i] == v.t
      && log == start + v.calls && AllWork(answers, |start|, |log|)
    }

    method StopUnless(i: nat, was: string, ghost start: seq<Call>, ghost v: View) returns (ok: bool)
      requires Follows(start, i, v)
      modifies this`log, torrents
      ensures Attempt(start, log, Stopped(i, v, was).calls, ok)
      ensures ok ==> Follows(start, i, Stopped(i, v, was))
      ensures forall j :: 0 <= j < torrents.Length && j != i ==> torrents[j] == old(torrents[j])
    {
      ok := true;
      if !IsStopped(was) {
        ok := Invoke(Stop(i));
        AttemptThen(start, old(log), log, v.calls, [Stop(i)], ok);
        if ok {
          torrents[i] := torrents[i].(state := STOPPED);
        }
      }
    }

    method AddTagTo(i: nat, tag: Tag, ghost start: seq<Call>, ghost v: View) returns (ok: bool)
      requires Follows(start, i, v)
      modifies this`log, torrents
      ensures Attempt(start, log, Tagged(i, v, tag).calls, ok)
      ensures ok ==> Follows(start, i, Tagged(i, v, tag))
      ensures forall j :: 0 <= j < torrents.Length && j != i ==> torrents[j] == old(torrents[j])
    {
      ok := Invoke(AddTag(i, tag));
      AttemptThen(start, old(log), log, v.calls, [AddTag(i, tag)], ok);
      if ok {
        torrents[i] := torrents[i].(tags := torrents[i].tags + {tag});
      }
    }

    method RemoveTagsFrom(i: nat, tags: set<Tag>, ghost start: seq<Call>, ghost v: View) returns (ok: bool)
      requires Follows(start, i, v)
      modifies this`log, torrents
      ensures Attempt(start, log, Untagged(i, v, tags).calls, ok)
      ensures ok ==> Follows(start, i, Untagged(i, v, tags))
      ensures forall j :: 0 <= j < torrents.Length && j != i ==> torrents[j] == old(torrents[j])
    {
      var present := torrents[i].tags * tags;
      if present == {} {
        return true;
      }
      ok := Invoke(RemoveTags(i, present));
      AttemptThen(start, old(log), log, v.calls, [RemoveTags(i, present)], ok);
      if ok {
        torrents[i] := torrents[i].(tags := torrents[i].tags - present);
      }
    }

    method StartTorrent(i: nat, ghost start: seq<Call>, ghost v: View) returns (ok: bool)
      requires Follows(start, i, v)
      modifies this`log, torrents
      ensures Attempt(start, log, v.calls + [Start(i)], ok)
      ensures ok ==> Follows(start, i, v.(t := v.t.(state := DOWNLOADING), calls := v.calls + [Start(i)]))
      ensures forall j :: 0 <= j < torrents.Length && j != i ==> torrents[j] == old(torrents[j])
    {
      ok := Invoke(Start(i));
      AttemptThen(start, old(log), log, v.calls, [Start(i)], ok);
      if ok {
        torrents[i] := torrents[i].(state := DOWNLOADING);
      }
    }

    method Reject(i: nat) returns (ok: bool)
      requires i < torrents.Length
      modifies this`log, torrents
      ensures var v := RejectView(i, View(old(torrents[i]), [], false));
              Attempt(old(log), log, v.calls, ok) && (ok ==> Follows(old(log), i, v))
      ensures forall j :: 0 <= j < torrents.Length && j != i ==> torrents[j] == old(torrents[j])
    {
      var t := torrents[i];
      ghost var start, v0 := log, View(t, [], false);
      ghost var stopped := Stopped(i, v0, t.state);
      ghost var marked := if Rejected in stopped.t.tags then stopped else Tagged(i, stopped, Rejected);
      ghost var all := Untagged(i, marked, {Waiting, Admitted}).calls;
      ok := StopUnless(i, t.state, start, v0);
      if !ok {
        AttemptFailed(start, log, stopped.calls, all);
        return;
      }
      if Rejected !in torrents[i].tags {
        ok := AddTagTo(i, Rejected, start, stopped);
        if !ok {
          AttemptFailed(start, log, marked.calls, all);
          return;
        }
      }
      ok := RemoveTagsFrom(i, {Waiting, Admitted}, start, marked);
    }

    method Requeue(i: nat, was: string) returns (ok: bool)
      requires i < torrents.Length && Rejected in torrents[i].tags && was == torrents[i].state
      modifies this`log, torrents
      ensures var v := Untagged(i, Tagged(i, Stopped(i, View(old(torrents[i]), [], false), was), Waiting), {Rejected});
              Attempt(old(log), log, v.calls, ok) && (ok ==> Follows(old(log), i, v))
      ensures forall j :: 0 <= j < torrents.Length && j != i ==> torrents[j] == old(torrents[j])
    {
      ghost var start, v0 := log, View(torrents[i], [], false);
      ghost var stopped := Stopped(i, v0, was);
      ghost var tagged := Tagged(i, stopped, Waiting);
      ghost var all := Untagged(i, tagged, {Rejected}).calls;
      ok := StopUnless(i, was, start, v0);
      if !ok {
        AttemptFailed(start, log, stopped.calls, all);
        return;
      }
      ok := AddTagTo(i, Waiting, start, stopped);
      if !ok {
        AttemptFailed(start, log, tagged.calls, all);
        return;
      }
      ok := RemoveTagsFrom(i, {Rejected}, start, tagged);
    }

    /** The engine holds `p`, and `start` plus the calls of `p` is all it has sent. */
    ghost predicate Holds(start: seq<Call>, p: Phase)
      reads this, torrents
    {
      && torrents[..] == p.ts && blocked == p.blocked
      && log == start + p.calls && AllWork(answers, |start|, |log|)
    }

    /** A torrent that is not admitted is stopped, kept from admission in this poll if it ran, and made to wait. */
    method MakeWait(i: nat, was: string, ghost start: seq<Call>, ghost v: View) returns (ok: bool)
      requires Follows(start, i, v)
      modifies this`log, this`blocked, torrents
      ensures var held := Stopped(i, v, was).(blocked := !IsStopped(was));
              var w := if Waiting in v.t.tags then held else Tagged(i, held, Waiting);
              && Attempt(start, log, w.calls, ok)
              && (ok ==> Follows(start, i, w) && blocked == if w.blocked then old(blocked) + {i} else old(blocked))
      ensures forall j :: 0 <= j < torrents.Length && j != i ==> torrents[j] == old(torrents[j])
    {
      ghost var held := Stopped(i, v, was);
      ghost var all := if Waiting in v.t.tags then held.calls else Tagged(i, held, Waiting).calls;
      ok := StopUnless(i, was, start, v);
      if !ok {
        AttemptFailed(start, log, held.calls, all);
        return;
      }
      if !IsStopped(was) {
        blocked := blocked + {i};
      }
      if Waiting !in torrents[i].tags {
        ok := AddTagTo(i, Waiting, start, held);
      }
    }

    method NormalizeReady(i: nat) returns (ok: bool)
      requires i < torrents.Length && !MustReject(torrents[i], cap) && MetadataReady(torrents[i])
      modifies this`log, this`blocked, torrents
      ensures var v := NormalizeView(i, old(torrents[i]), cap);
              && Attempt(old(log), log, v.calls, ok)
              && (ok ==> Follows(old(log), i, v) && blocked == if v.blocked then old(blocked) + {i} else old(blocked))
      ensures forall j :: 0 <= j < torrents.Length && j != i ==> torrents[j] == old(torrents[j])
    {
      var t := torrents[i];
      ghost var start, v := log, View(t, [], false);
      if Rejected in t.tags {
        ok := Requeue(i, t.state);
        v := Untagged(i, Tagged(i, Stopped(i, v, t.state), Waiting), {Rejected});
        if !ok {
          AttemptFailed(start, log, v.calls, NormalizeView(i, t, cap).calls);
          return;
        }
      }
      if Admitted in torrents[i].tags {
        return true;
      }
      ok := MakeWait(i, t.state, start, v);
    }

    method NormalizeTorrent(i: nat) returns (ok: bool)
      requires i < torrents.Length
      modifies this`log, this`blocked, torrents
      ensures var v := NormalizeView(i, old(torrents[i]), cap);
              && Attempt(old(log), log, v.calls, ok)
              && (ok ==> Follows(old(log), i, v) && blocked == if v.blocked then old(blocked) + {i} else old(blocked))
      ensures forall j :: 0 <= j < torrents.Length && j != i ==> torrents[j] == old(torrents[j])
    {
      var t := torrents[i];
      if !t.inside {
        ok := Reject(i);
        return;
      }
      if !MetadataReady(t) {
        return true;
      }
      if t.size > cap {
        ok := Reject(i);
        return;
      }
      ok := NormalizeReady(i);
    }

    method NormalizeOne(i: nat, ghost start: seq<Call>, ghost p: Phase) returns (ok: bool)
      requires i < torrents.Length && Holds(start, p)
      modifies this`log, this`blocked, torrents
      ensures var q := Put(p, i, NormalizeView(i, p.ts[i], cap));
              Attempt(start, log, q.calls, ok) && (ok ==> Holds(start, q))
    {
      var t := torrents[i];
      ghost var begin, v0 := log, View(t, [], false);
      ghost var v := NormalizeView(i, t, cap);
      ok := NormalizeTorrent(i);
      AttemptThen(start, begin, log, p.calls, v.calls, ok);
      if ok {
        assert torrents[..] == p.ts[i := v.t];
        assert start + (p.calls + v.calls) == begin + v.calls;
      }
    }

    method Normalize(ghost ts: seq<Torrent>) returns (ok: bool)
      requires Holds(log, Phase(ts, [], {}))
      modifies this`log, this`blocked, torrents
      ensures var q := NormalizeUpTo(ts, cap, |ts|);
              Attempt(old(log), log, q.calls, ok) && (ok ==> Holds(old(log), q))
    {
      ghost var start := log;
      assert start + [] == start;
      for i := 0 to torrents.Length
        invariant Holds(start, NormalizeUpTo(ts, cap, i))
      {
        ghost var p := NormalizeUpTo(ts, cap, i);
        assert p.ts[i] == p.ts[i..][0] == ts[i..][0];
        ok := NormalizeOne(i, start, p);
        if !ok {
          NormalizeCallsGrow(ts, cap, i + 1, |ts|);
          AttemptFailed(start, log, NormalizeUpTo(ts, cap, i + 1).calls, NormalizeUpTo(ts, cap, |ts|).calls);
          return;
        }
      }
      ok := true;
    }

    method Complete(i: nat, fits: bool) returns (ok: bool)
      requires i < torrents.Length && Interrupted(torrents[i])
      modifies this`log, torrents
      ensures var v := FinishView(i, old(torrents[i]), fits);
              Attempt(old(log), log, v.calls, ok) && (ok ==> Follows(old(log), i, v))
      ensures forall j :: 0 <= j < torrents.Length && j != i ==> torrents[j] == old(torrents[j])
    {
      var t := torrents[i];
      ghost var start, v := log, View(t, [], false);
      if !fits {
        ok := StopUnless(i, t.state, start, v);
        return;
      }
      if IsStopped(t.state) {
        assert v.calls + [Start(i)] == [Start(i)];
        ok := StartTorrent(i, start, v);
        v := View(t.(state := DOWNLOADING), [Start(i)], false);
        if !ok {
          AttemptFailed(start, log, [Start(i)], Untagged(i, v, {Waiting}).calls);
          return;
        }
      }
      ok := RemoveTagsFrom(i, {Waiting}, start, v);
    }

    method FinishOneTorrent(i: nat, used: int64, ghost start: seq<Call>, ghost p: Phase) returns (ok: bool)
      requires 0 <= used && 0 < cap && Holds(start, p) && i < torrents.Length
      modifies this`log, this`blocked, torrents
      ensures var q := Put(p, i, FinishView(i, p.ts[i], Fits(p.ts, i, {}, used, cap)));
              Attempt(start, log, q.calls, ok) && (ok ==> Holds(start, q))
    {
      var t := torrents[i];
      if Admitted !in t.tags || Waiting !in t.tags || Rejected in t.tags {
        assert p.ts[i := t] == p.ts && p.calls + [] == p.calls;
        return true;
      }
      ghost var begin := log;
      var fits := FitsAfterPressureEvictions(torrents[..], i, used, cap, []);
      assert Members([]) == {};
      ghost var v := FinishView(i, t, fits);
      ok := Complete(i, fits);
      AttemptThen(start, begin, log, p.calls, v.calls, ok);
      if ok {
        assert torrents[..] == p.ts[i := v.t];
        assert start + (p.calls + v.calls) == begin + v.calls;
      }
    }

    method FinishInterrupted(used: int64, ghost start: seq<Call>, ghost p: Phase) returns (ok: bool)
      requires 0 <= used && 0 < cap && Holds(start, p)
      modifies this`log, this`blocked, torrents
      ensures var q := FinishUpTo(p, used, cap, |p.ts|);
              Attempt(start, log, q.calls, ok) && (ok ==> Holds(start, q))
    {
      for i := 0 to torrents.Length
        invariant Holds(start, FinishUpTo(p, used, cap, i))
      {
        ghost var before := FinishUpTo(p, used, cap, i);
        assert before.ts[i] == before.ts[i..][0] == p.ts[i..][0];
        ok := FinishOneTorrent(i, used, start, before);
        if !ok {
          FinishCallsGrow(p, used, cap, i + 1, |p.ts|);
          AttemptFailed(start, log, FinishUpTo(p, used, cap, i + 1).calls, FinishUpTo(p, used, cap, |p.ts|).calls);
          return;
        }
      }
      ok := true;
    }

    method Admit(i: nat) returns (ok: bool)
      requires i < torrents.Length
      modifies this`log, torrents
      ensures var v := AdmitView(i, old(torrents[i]));
              Attempt(old(log), log, v.calls, ok) && (ok ==> Follows(old(log), i, v))
      ensures forall j :: 0 <= j < torrents.Length && j != i ==> torrents[j] == old(torrents[j])
    {
      ghost var start, v0 := log, View(torrents[i], [], false);
      ghost var all := AdmitView(i, torrents[i]).calls;
      ok := AddTagTo(i, Admitted, start, v0);
      ghost var tagged := Tagged(i, v0, Admitted);
      if !ok {
        AttemptFailed(start, log, tagged.calls, all);
        return;
      }
      ok := StartTorrent(i, start, tagged);
      ghost var started := tagged.(t := tagged.t.(state := DOWNLOADING), calls := tagged.calls + [Start(i)]);
      if !ok {
        AttemptFailed(start, log, started.calls, all);
        return;
      }
      ok := RemoveTagsFrom(i, {Waiting, Rejected}, start, started);
    }

    /** The search for the shortest eviction prefix; `count` is -1 when none is sufficient. */
    method PressureEvictions(order: seq<nat>, cand: nat, used: int64) returns (count: int)
      requires cand < torrents.Length && 0 <= used && 0 < cap && Indices(order, torrents.Length)
      ensures count == EvictionCount(torrents[..], order, cand, used, cap, 1)
    {
      for k := 1 to |order| + 1
        invariant EvictionCount(torrents[..], order, cand, used, cap, 1)
               == EvictionCount(torrents[..], order, cand, used, cap, k)
      {
        var fits := FitsAfterPressureEvictions(torrents[..], cand, used, cap, order[..k]);
        if fits {
          return k;
        }
      }
      return -1;
    }

    method DeleteAll(order: seq<nat>) returns (ok: bool)
      modifies this`log
      ensures Attempt(old(log), log, Deletions(order), ok)
    {
      ghost var start := log;
      for k := 0 to |order|
        invariant log == start + Deletions(order[..k]) && AllWork(answers, |start|, |log|)
      {
        assert Deletions(order[..k + 1]) == Deletions(order[..k]) + [Delete(order[k])];
        ghost var before := log;
        ok := Invoke(Delete(order[k]));
        AttemptThen(start, before, log, Deletions(order[..k]), [Delete(order[k])], ok);
        if !ok {
          assert Deletions(order[..k + 1]) == Deletions(order)[..k + 1];
          AttemptFailed(start, log, Deletions(order[..k + 1]), Deletions(order));
          return;
        }
      }
      assert order[..|order|] == order;
      ok := true;
    }

    /** The admission loop over candidates in order. */
    method AdmitCandidates(order: seq<nat>, used: int64, ghost start: seq<Call>, ghost p: Phase)
      returns (ok: bool, admitted: seq<nat>, evicted: seq<nat>)
      requires 0 <= used && 0 < cap && Holds(start, p) && Indices(order, |p.ts|)
      modifies this`log, this`blocked, torrents
      ensures var a := AdmitFrom(p, order, used, cap);
              && Attempt(start, log, a.p.calls, ok)
              && (ok ==> Holds(start, a.p) && admitted == a.admitted && evicted == a.evicted)
    {
      hide Fits, PressureOrder, EvictionCount, Effect, IsStopped;
      ghost var goal := AdmitFrom(p, order, used, cap);
      ghost var q := p;
      admitted, evicted := [], [];
      for k := 0 to |order|
        invariant Holds(start, q) && |q.ts| == |p.ts| && Indices(order[k..], |q.ts|)
        invariant var rest := AdmitFrom(q, order[k..], used, cap);
                  goal == rest.(admitted := admitted + rest.admitted)
      {
        var i := order[k];
        assert order[k..][0] == i && order[k..][1..] == order[k + 1..];
        if !IsStopped(torrents[i].state) {
          continue;
        }
        var fits := FitsAfterPressureEvictions(torrents[..], i, used, cap, []);
        assert Members([]) == {};
        if fits {
          ghost var v, next, begin := AdmitView(i, q.ts[i]), Put(q, i, AdmitView(i, q.ts[i])), log;
          ok := Admit(i);
          AttemptThen(start, begin, log, q.calls, v.calls, ok);
          if !ok {
            AdmitExtendsCalls(next, order[k + 1..], used, cap);
            AttemptFailed(start, log, next.calls, goal.p.calls);
            return;
          }
          assert torrents[..] == q.ts[i := v.t];
          assert start + (q.calls + v.calls) == begin + v.calls;
          q := next;
          admitted := admitted + [i];
          continue;
        }
        var eligible := PressureOrder(torrents[..]);
        var count := PressureEvictions(eligible, i, used);
        if count != -1 {
          evicted := eligible[..count];
        }
        return true, admitted, evicted;
      }
      ok := true;
    }

    /** The poll from the listing on. */
    method RunPoll(listed: seq<Torrent>, used: int64) returns (ok: bool, admitted: seq<nat>, evicted: seq<nat>)
      requires 0 <= used && 0 < cap
      modifies this`log, this`torrents, this`blocked
      ensures var a := Poll(listed, used, cap);
              && Attempt(old(log), log, a.p.calls, ok)
              && (ok ==> torrents[..] == a.p.ts && admitted == a.admitted && evicted == a.evicted)
    {
      hide Attempted;
      ghost var start := log;
      torrents := new Torrent[|listed|](i requires 0 <= i < |listed| => listed[i]);
      blocked := {};
      admitted, evicted := [], RetentionOrder(listed);
      assert torrents[..] == listed && start + [] == start;
      if evicted != [] {
        ok := DeleteAll(evicted);
        return;
      }
      ghost var calls := Poll(listed, used, cap).p.calls;
      ghost var q, p := NormalizeUpTo(listed, cap, |listed|), Prepared(listed, used, cap);
      ghost var a := AdmitFrom(p, Candidates(p, cap), used, cap);
      FinishCallsGrow(q, used, cap, 0, |listed|);
      AdmitExtendsCalls(p, Candidates(p, cap), used, cap);
      ok := Normalize(listed);
      if !ok {
        AttemptFailed(start, log, q.calls, calls);
        return;
      }
      ok := FinishInterrupted(used, start, q);
      if !ok {
        AttemptFailed(start, log, p.calls, calls);
        return;
      }
      var order := Candidates(Phase(torrents[..], [], blocked), cap);
      CandidatesIgnoreCalls(p, cap);
      ok, admitted, evicted := AdmitCandidates(order, used, start, p);
      if !ok {
        AttemptFailed(start, log, a.p.calls, calls);
        return;
      }
      ghost var begin := log;
      ok := DeleteAll(evicted);
      AttemptThen(start, begin, log, a.p.calls, Deletions(evicted), ok);
    }

    /**
      One poll over the listed torrents. Whatever call it stops at, what it sent is a prefix of the
      poll's calls; without a failure it sent all of them, it deleted all that is expired or served the queue,
      and its own copy is what the listed torrents became.
     */
    method Reconcile(listed: seq<Torrent>, used: int64, answers: Answers)
      returns (ok: bool, admitted: seq<nat>, evicted: seq<nat>)
      requires 0 <= used && 0 < cap
      modifies this
      ensures var calls := Poll(listed, used, cap).p.calls;
              && Attempted(answers, old(log), log, calls, ok)
              && old(log) <= log <= old(log) + calls
              && (ok <==> AllWork(answers, |old(log)|, |old(log)| + |calls|))
      ensures ok ==> torrents[..] == Poll(listed, used, cap).p.ts
      ensures ok ==> Served(listed, used, cap, torrents[..], admitted, evicted)
      ensures ok ==> DeletesSince(old(log), log, evicted)
    {
      hide Served, DeletesSince;
      ghost var start := log;
      this.answers := answers;
      ok, admitted, evicted := RunPoll(listed, used);
      AttemptedPrefix(answers, start, log, Poll(listed, used, cap).p.calls, ok);
      PollServes(listed, used, cap);
      PollDeletesSince(start, listed, used, cap);
    }
  }
}
