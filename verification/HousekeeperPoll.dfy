/**
  One poll of the housekeeper as a function from the listed torrents to the API calls it makes.
  A torrent is addressed by its position in the list, which stands for its unique hash.
 */
module HousekeeperPoll {
  import opened Sums
  import opened HousekeeperCapacity

  datatype Call =
    | Stop(i: nat)
    | Start(i: nat)
    | AddTag(i: nat, tag: Tag)
    | RemoveTags(i: nat, tags: set<Tag>)
    | Delete(i: nat)

  const STOPPED := "stoppedDL"
  const DOWNLOADING := "downloading"

  predicate IsStopped(state: string) {
    "stopped" <= state || "paused" <= state
  }

  predicate MetadataReady(t: Torrent) {
    t.size > 0 && t.state != "metaDL" && t.state != "checkingResumeData"
  }

  /** What qBittorrent does to a torrent on a call; a deleted torrent only leaves the next list. */
  function Effect(t: Torrent, c: Call): Torrent {
    match c
    case Stop(_) => t.(state := STOPPED)
    case Start(_) => t.(state := DOWNLOADING)
    case AddTag(_, tag) => t.(tags := t.tags + {tag})
    case RemoveTags(_, tags) => t.(tags := t.tags - tags)
    case Delete(_) => t
  }

  predicate InRange(calls: seq<Call>, n: nat) {
    forall k :: 0 <= k < |calls| ==> calls[k].i < n
  }

  function Replay(ts: seq<Torrent>, calls: seq<Call>): (r: seq<Torrent>)
    requires InRange(calls, |ts|)
    ensures |r| == |ts|
  {
    if calls == [] then ts
    else
      var n := |calls| - 1;
      var before := Replay(ts, calls[..n]);
      before[calls[n].i := Effect(before[calls[n].i], calls[n])]
  }

  // ---- the engine's steps on one torrent ------------------------------------------------------

  /** The engine's own copy of a torrent after some calls about it. */
  datatype View = View(t: Torrent, calls: seq<Call>, blocked: bool)

  function Stopped(i: nat, v: View, was: string): View {
    if IsStopped(was) then v else v.(t := v.t.(state := STOPPED), calls := v.calls + [Stop(i)])
  }

  function Tagged(i: nat, v: View, tag: Tag): View {
    v.(t := v.t.(tags := v.t.tags + {tag}), calls := v.calls + [AddTag(i, tag)])
  }

  function Untagged(i: nat, v: View, tags: set<Tag>): View {
    var present := v.t.tags * tags;
    if present == {} then v
    else v.(t := v.t.(tags := v.t.tags - present), calls := v.calls + [RemoveTags(i, present)])
  }

  function RejectView(i: nat, v: View): View {
    var stopped := Stopped(i, v, v.t.state);
    var marked := if Rejected in stopped.t.tags then stopped else Tagged(i, stopped, Rejected);
    Untagged(i, marked, {Waiting, Admitted})
  }

  predicate MustReject(t: Torrent, cap: int) {
    !t.inside || (MetadataReady(t) && t.size > cap)
  }

  /** `was` is the listed run state: the stop checks look at it, not at the state after earlier stops. */
  function NormalizeView(i: nat, t: Torrent, cap: int): View {
    var v := View(t, [], false);
    if MustReject(t, cap) then RejectView(i, v)
    else if !MetadataReady(t) then v
    else
      var freed :=
        if Rejected in t.tags
        then Untagged(i, Tagged(i, Stopped(i, v, t.state), Waiting), {Rejected})
        else v;
      if Admitted in freed.t.tags then freed
      else
        var held := Stopped(i, freed, t.state).(blocked := !IsStopped(t.state));
        if Waiting in freed.t.tags then held else Tagged(i, held, Waiting)
  }

  predicate Interrupted(t: Torrent) {
    Admitted in t.tags && Waiting in t.tags && Rejected !in t.tags
  }

  function FinishView(i: nat, t: Torrent, fits: bool): View {
    var v := View(t, [], false);
    if !Interrupted(t) then v
    else if !fits then Stopped(i, v, t.state)
    else
      var started :=
        if IsStopped(t.state) then v.(t := t.(state := DOWNLOADING), calls := [Start(i)]) else v;
      Untagged(i, started, {Waiting})
  }

  function AdmitView(i: nat, t: Torrent): View {
    var tagged := Tagged(i, View(t, [], false), Admitted);
    var started := tagged.(t := tagged.t.(state := DOWNLOADING), calls := tagged.calls + [Start(i)]);
    Untagged(i, started, {Waiting, Rejected})
  }

  // ---- the phases of a poll --------------------------------------------------------------------

  datatype Phase = Phase(ts: seq<Torrent>, calls: seq<Call>, blocked: set<nat>)

  function Put(p: Phase, i: nat, v: View): Phase
    requires i < |p.ts|
  {
    Phase(p.ts[i := v.t], p.calls + v.calls, if v.blocked then p.blocked + {i} else p.blocked)
  }

  function NormalizeUpTo(ts: seq<Torrent>, cap: int, n: nat): (p: Phase)
    requires n <= |ts|
    ensures |p.ts| == |ts| && p.ts[n..] == ts[n..]
  {
    if n == 0 then Phase(ts, [], {})
    else Put(NormalizeUpTo(ts, cap, n - 1), n - 1, NormalizeView(n - 1, ts[n - 1], cap))
  }

  function FinishUpTo(p: Phase, used: int, cap: int, n: nat): (q: Phase)
    requires n <= |p.ts|
    ensures |q.ts| == |p.ts| && q.ts[n..] == p.ts[n..] && q.blocked == p.blocked
  {
    if n == 0 then p
    else
      var before := FinishUpTo(p, used, cap, n - 1);
      Put(before, n - 1, FinishView(n - 1, p.ts[n - 1], Fits(before.ts, n - 1, {}, used, cap)))
  }

  /** Normalization of the whole list, then completion of admissions a crash interrupted. */
  function Prepared(ts: seq<Torrent>, used: int, cap: int): (p: Phase)
    ensures |p.ts| == |ts|
  {
    FinishUpTo(NormalizeUpTo(ts, cap, |ts|), used, cap, |ts|)
  }

  // ---- candidate and eviction order --------------------------------------------------------------

  type Key = (int, int)

  predicate Before(a: Key, b: Key) {
    a.0 < b.0 || (a.0 == b.0 && a.1 < b.1)
  }

  function AgeKey(t: Torrent): Key {
    (if t.completionOn > 0 then t.completionOn else if t.addedOn > 0 then t.addedOn else MAX_INT64, t.hash)
  }

  function AddedKey(t: Torrent): Key {
    (t.addedOn, t.hash)
  }

  predicate Indices(xs: seq<nat>, n: nat) {
    (forall k :: 0 <= k < |xs| ==> xs[k] < n) && (forall j, k :: 0 <= j < k < |xs| ==> xs[j] != xs[k])
  }

  predicate Ordered(ts: seq<Torrent>, key: Torrent -> Key, xs: seq<nat>)
    requires Indices(xs, |ts|)
  {
    forall j, k :: 0 <= j < k < |xs| ==> !Before(key(ts[xs[k]]), key(ts[xs[j]]))
  }

  function Insert(ts: seq<Torrent>, key: Torrent -> Key, i: nat, xs: seq<nat>): (r: seq<nat>)
    requires i < |ts| && Indices(xs, |ts|) && i !in xs && Ordered(ts, key, xs)
    ensures Indices(r, |ts|) && Ordered(ts, key, r)
    ensures forall x: nat :: x in r <==> x == i || x in xs
  {
    if xs == [] || Before(key(ts[i]), key(ts[xs[0]])) then [i] + xs
    else
      assert Indices(xs[1..], |ts|);
      var rest := Insert(ts, key, i, xs[1..]);
      assert xs[0] !in xs[1..] && xs[0] !in rest;
      assert forall k :: 0 <= k < |rest| ==> rest[k] in rest;
      assert forall x: nat :: x in xs[1..] ==> !Before(key(ts[x]), key(ts[xs[0]]));
      [xs[0]] + rest
  }

  /** The listed positions below `n` that satisfy `keep`, oldest key first. */
  function Select(ts: seq<Torrent>, key: Torrent -> Key, keep: set<nat>, n: nat): (r: seq<nat>)
    requires n <= |ts|
    ensures Indices(r, |ts|) && Ordered(ts, key, r)
    ensures forall x: nat :: x in r <==> x < n && x in keep
  {
    if n == 0 then []
    else if n - 1 in keep then Insert(ts, key, n - 1, Select(ts, key, keep, n - 1))
    else Select(ts, key, keep, n - 1)
  }

  predicate Candidate(p: Phase, i: nat, cap: int)
    requires i < |p.ts|
  {
    var t := p.ts[i];
    i !in p.blocked && MetadataReady(t) && t.size <= cap &&
    Waiting in t.tags && Admitted !in t.tags && Rejected !in t.tags
  }

  function Candidates(p: Phase, cap: int): (r: seq<nat>)
    ensures Indices(r, |p.ts|) && Ordered(p.ts, AgeKey, r)
    ensures forall x: nat :: x in r <==> x < |p.ts| && Candidate(p, x, cap)
  {
    Select(p.ts, AgeKey, set i | 0 <= i < |p.ts| && Candidate(p, i, cap), |p.ts|)
  }

  function Lower(state: string): string {
    if state == "" then ""
    else
      var c := state[0];
      [if 'A' <= c <= 'Z' then c - 'A' + 'a' else c] + Lower(state[1..])
  }

  const EVICTION_STATES: set<string> :=
    {"downloading", "forceddl", "queueddl", "stalleddl", "pauseddl", "stoppeddl",
     "uploading", "forcedup", "queuedup", "stalledup", "pausedup", "stoppedup"}

  /** The run states pressure eviction knows, as the torrent is by then: a poll may have stopped or started it. */
  predicate EvictionState(state: string) {
    Lower(state) in EVICTION_STATES
  }

  predicate PressureEligible(t: Torrent) {
    && Admitted in t.tags && Waiting !in t.tags && Rejected !in t.tags && Keep !in t.tags
    && t.inside && t.evictable && EvictionState(t.state)
  }

  function PressureOrder(ts: seq<Torrent>): (r: seq<nat>)
    ensures Indices(r, |ts|) && Ordered(ts, AddedKey, r)
    ensures forall x: nat :: x in r <==> x < |ts| && PressureEligible(ts[x])
  {
    Select(ts, AddedKey, set i | 0 <= i < |ts| && PressureEligible(ts[i]), |ts|)
  }

  function Members(xs: seq<nat>): set<nat> {
    set i | i in xs
  }

  /** The number of oldest eligible torrents that makes the candidate fit, searching from `k` on. */
  function EvictionCount(ts: seq<Torrent>, order: seq<nat>, cand: nat, used: int, cap: int, k: nat): (n: int)
    requires 1 <= k
    ensures n == -1 || k <= n <= |order|
    decreases |order| - k
  {
    if k > |order| then -1
    else if Fits(ts, cand, Members(order[..k]), used, cap) then k
    else EvictionCount(ts, order, cand, used, cap, k + 1)
  }

  datatype Admission = Admission(p: Phase, admitted: seq<nat>, evicted: seq<nat>)

  function AdmitFrom(p: Phase, order: seq<nat>, used: int, cap: int): (a: Admission)
    requires Indices(order, |p.ts|)
    ensures |a.p.ts| == |p.ts|
    decreases |order|
  {
    if order == [] then Admission(p, [], [])
    else
      var i := order[0];
      assert Indices(order[1..], |p.ts|);
      if !IsStopped(p.ts[i].state) then AdmitFrom(p, order[1..], used, cap)
      else if Fits(p.ts, i, {}, used, cap) then
        var rest := AdmitFrom(Put(p, i, AdmitView(i, p.ts[i])), order[1..], used, cap);
        rest.(admitted := [i] + rest.admitted)
      else
        var eligible := PressureOrder(p.ts);
        var n := EvictionCount(p.ts, eligible, i, used, cap, 1);
        if n == -1 then Admission(p, [], []) else Admission(p, [], eligible[..n])
  }

  predicate RetentionEligible(t: Torrent) {
    Keep !in t.tags && t.inside && t.pastRetention
  }

  function RetentionOrder(ts: seq<Torrent>): (r: seq<nat>)
    ensures Indices(r, |ts|) && Ordered(ts, AgeKey, r)
    ensures forall x: nat :: x in r <==> x < |ts| && RetentionEligible(ts[x])
  {
    Select(ts, AgeKey, set i | 0 <= i < |ts| && RetentionEligible(ts[i]), |ts|)
  }

  function Deletions(xs: seq<nat>): (calls: seq<Call>)
    ensures |calls| == |xs| && forall k :: 0 <= k < |xs| ==> calls[k] == Delete(xs[k])
  {
    seq(|xs|, k requires 0 <= k < |xs| => Delete(xs[k]))
  }

  /** A whole error-free poll. */
  function Poll(ts: seq<Torrent>, used: int, cap: int): (a: Admission)
    ensures |a.p.ts| == |ts|
  {
    var expired := RetentionOrder(ts);
    if expired != [] then Admission(Phase(ts, Deletions(expired), {}), [], expired)
    else
      var p := Prepared(ts, used, cap);
      var a := AdmitFrom(p, Candidates(p, cap), used, cap);
      a.(p := a.p.(calls := a.p.calls + Deletions(a.evicted)))
  }
}
