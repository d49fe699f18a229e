/** The login rate limiter: fixed windows per client, opened by the first call, and entries swept away when many. */
module RateLimiter {
  import opened Wrappers

  const CLEANUP_THRESHOLD := 4096

  /** The zero instant; an entry that starts there looks like none. */
  const ZERO := 0

  datatype Entry = Entry(windowStart: int, count: int)

  datatype Answer = Answer(allowed: bool, wait: int)

  // ---- one client, nothing ever deleted -----------------------------------------------------------------

  /** A call at `now` opens a new window. */
  predicate Opens(e: Option<Entry>, now: int, window: int) {
    e.None? || e.value.windowStart == ZERO || now >= e.value.windowStart + window
  }

  function Decide(e: Option<Entry>, now: int, limit: int, window: int): Answer {
    if Opens(e, now, window) || e.value.count < limit then Answer(true, 0)
    else Answer(false, e.value.windowStart + window - now)
  }

  function Next(e: Option<Entry>, now: int, limit: int, window: int): Option<Entry> {
    if Opens(e, now, window) then Some(Entry(now, 1))
    else if e.value.count < limit then Some(e.value.(count := e.value.count + 1))
    else e
  }

  /** The entry after all the calls one client ever made. */
  function Replay(times: seq<int>, limit: int, window: int): Option<Entry> {
    if times == [] then None
    else Next(Replay(times[..|times| - 1], limit, window), times[|times| - 1], limit, window)
  }

  predicate Nondecreasing(times: seq<int>) {
    forall i, j :: 0 <= i < j < |times| ==> times[i] <= times[j]
  }

  /** How many of the calls were allowed in the half-open interval of one window from `t`. */
  function CountFrom(times: seq<int>, t: int, limit: int, window: int): nat {
    if times == [] then 0
    else
      var n := |times| - 1;
      CountFrom(times[..n], t, limit, window) +
      if t <= times[n] < t + window && Decide(Replay(times[..n], limit, window), times[n], limit, window).allowed
      then 1 else 0
  }

  /** How many calls were made at the zero instant, where the interval of one window from `t` covers it. */
  function ZerosFrom(times: seq<int>, t: int, window: int): nat {
    if times == [] then 0
    else
      var n := |times| - 1;
      ZerosFrom(times[..n], t, window) + if times[n] == ZERO && t <= ZERO < t + window then 1 else 0
  }

  /** What is known of the count once the current window is known; the call that opens a window lies in it. */
  predicate CountBound(e: Option<Entry>, last: int, count: nat, zeros: nat, t: int, limit: int, window: int) {
    match e
    case None => count == 0
    case Some(entry) =>
      && entry.windowStart <= last && 1 <= entry.count <= limit
      && (last < t ==> count == 0)
      && (if entry.windowStart == ZERO then last == ZERO && (t <= ZERO < t + window ==> count <= limit - 1 + zeros)
          else && (entry.windowStart < t ==> count <= entry.count - 1)
               && (entry.windowStart < t + window ==> count <= limit - 1 + entry.count + zeros))
      && count <= 2 * limit - 1 + zeros
  }

  lemma CountBoundStep(e: Option<Entry>, last: int, now: int, count: nat, zeros: nat, t: int, limit: int, window: int)
    requires limit > 0 && window > 0 && CountBound(e, last, count, zeros, t, limit, window) && last <= now
    ensures CountBound(Next(e, now, limit, window), now,
                       count + if t <= now < t + window && Decide(e, now, limit, window).allowed then 1 else 0,
                       zeros + if now == ZERO && t <= ZERO < t + window then 1 else 0, t, limit, window)
  {
  }

  lemma {:induction false} CountIsBounded(times: seq<int>, t: int, limit: int, window: int)
    requires limit > 0 && window > 0 && Nondecreasing(times) && times != []
    ensures CountBound(Replay(times, limit, window), times[|times| - 1], CountFrom(times, t, limit, window),
                       ZerosFrom(times, t, window), t, limit, window)
  {
    var n := |times| - 1;
    if n > 0 {
      assert times[..n][n - 1] == times[n - 1];
      CountIsBounded(times[..n], t, limit, window);
      CountBoundStep(Replay(times[..n], limit, window), times[n - 1], times[n], CountFrom(times[..n], t, limit, window),
                     ZerosFrom(times[..n], t, window), t, limit, window);
    } else {
      assert times[..0] == [];
      CountBoundStep(None, times[0], times[0], 0, 0, t, limit, window);
    }
  }

  /**
    In any interval of one window length a client gets at most one call less than twice the limit, and one more
    for every call at the zero instant inside it, for calls in time order.
   */
  lemma AtMostTwiceTheLimit(times: seq<int>, t: int, limit: int, window: int)
    requires limit > 0 && window > 0 && Nondecreasing(times)
    ensures CountFrom(times, t, limit, window) <= 2 * limit - 1 + ZerosFrom(times, t, window)
  {
    if times != [] {
      CountIsBounded(times, t, limit, window);
    }
  }

  lemma Append(calls: seq<int>, now: int, t: int, limit: int, window: int)
    ensures Replay(calls + [now], limit, window) == Next(Replay(calls, limit, window), now, limit, window)
    ensures CountFrom(calls + [now], t, limit, window) == CountFrom(calls, t, limit, window) +
            if t <= now < t + window && Decide(Replay(calls, limit, window), now, limit, window).allowed then 1 else 0
    ensures ZerosFrom(calls + [now], t, window) ==
            ZerosFrom(calls, t, window) + if now == ZERO && t <= ZERO < t + window then 1 else 0
  {
    assert (calls + [now])[..|calls|] == calls;
  }

  function Times(now: int, n: nat): (times: seq<int>)
    ensures |times| == n && forall k :: 0 <= k < n ==> times[k] == now
  {
    if n == 0 then [] else Times(now, n - 1) + [now]
  }

  /** Calls at one instant of an open window, as many as fit into it. */
  lemma {:induction false} CallsInside(calls: seq<int>, now: int, n: nat, t: int, limit: int, window: int)
    requires var e := Replay(calls, limit, window);
             e.Some? && !Opens(e, now, window) && e.value.count + n <= limit
    requires now != ZERO
    ensures var e := Replay(calls, limit, window).value;
            Replay(calls + Times(now, n), limit, window) == Some(e.(count := e.count + n))
    ensures CountFrom(calls + Times(now, n), t, limit, window) ==
            CountFrom(calls, t, limit, window) + if t <= now < t + window then n else 0
    ensures ZerosFrom(calls + Times(now, n), t, window) == ZerosFrom(calls, t, window)
  {
    hide CountFrom, ZerosFrom, Replay;
    if n == 0 {
      assert calls + Times(now, 0) == calls;
    } else {
      CallsInside(calls, now, n - 1, t, limit, window);
      assert calls + Times(now, n) == calls + Times(now, n - 1) + [now];
      Append(calls + Times(now, n - 1), now, t, limit, window);
    }
  }

  /** Calls at the zero instant, once the window before it is over. */
  lemma {:induction false} CallsAtZero(calls: seq<int>, n: nat, t: int, limit: int, window: int)
    requires Opens(Replay(calls, limit, window), ZERO, window) && t <= ZERO < t + window
    ensures Replay(calls + Times(ZERO, n), limit, window) ==
            if n == 0 then Replay(calls, limit, window) else Some(Entry(ZERO, 1))
    ensures CountFrom(calls + Times(ZERO, n), t, limit, window) == CountFrom(calls, t, limit, window) + n
    ensures ZerosFrom(calls + Times(ZERO, n), t, window) == ZerosFrom(calls, t, window) + n
  {
    hide CountFrom, ZerosFrom, Replay;
    if n == 0 {
      assert calls + Times(ZERO, 0) == calls;
    } else {
      CallsAtZero(calls, n - 1, t, limit, window);
      assert calls + Times(ZERO, n) == calls + Times(ZERO, n - 1) + [ZERO];
      Append(calls + Times(ZERO, n - 1), ZERO, t, limit, window);
    }
  }

  /** Most of one window at its end, any number of calls at the zero instant, and the whole of the next window. */
  function Burst(n: nat, limit: int, window: int): seq<int>
    requires limit > 0
  {
    [-window] + Times(-1, limit - 1) + Times(ZERO, n) + [1] + Times(1, limit - 1)
  }

  lemma OrderedConcat(a: seq<int>, b: seq<int>)
    requires Nondecreasing(a) && Nondecreasing(b) && forall x, y :: x in a && y in b ==> x <= y
    ensures Nondecreasing(a + b)
  {
    forall i, j | 0 <= i < j < |a + b|
      ensures (a + b)[i] <= (a + b)[j]
    {
      if i < |a| <= j {
        assert (a + b)[i] in a && (a + b)[j] in b;
      }
    }
  }

  lemma BurstIsOrdered(n: nat, limit: int, window: int)
    requires limit > 0 && window >= 3
    ensures Nondecreasing(Burst(n, limit, window))
  {
    OrderedConcat([-window], Times(-1, limit - 1));
    OrderedConcat([-window] + Times(-1, limit - 1), Times(ZERO, n));
    OrderedConcat([-window] + Times(-1, limit - 1) + Times(ZERO, n), [1]);
    OrderedConcat([-window] + Times(-1, limit - 1) + Times(ZERO, n) + [1], Times(1, limit - 1));
  }

  lemma FirstCall(now: int, t: int, limit: int, window: int)
    ensures Replay([now], limit, window) == Some(Entry(now, 1))
    ensures CountFrom([now], t, limit, window) == if t <= now < t + window then 1 else 0
    ensures ZerosFrom([now], t, window) == if now == ZERO && t <= ZERO < t + window then 1 else 0
  {
    Append([], now, t, limit, window);
    assert [] + [now] == [now];
  }

  /** No smaller bound holds, with any number of calls at the zero instant. */
  lemma BoundIsAttained(n: nat, limit: int, window: int)
    requires limit > 0 && window >= 3
    ensures Nondecreasing(Burst(n, limit, window)) && ZerosFrom(Burst(n, limit, window), 2 - window, window) == n
    ensures CountFrom(Burst(n, limit, window), 2 - window, limit, window) == 2 * limit - 1 + n
  {
    hide CountFrom, ZerosFrom, Replay, Times, Nondecreasing;
    var t := 2 - window;
    BurstIsOrdered(n, limit, window);
    FirstCall(-window, t, limit, window);
    CallsInside([-window], -1, limit - 1, t, limit, window);
    var before := [-window] + Times(-1, limit - 1);
    CallsAtZero(before, n, t, limit, window);
    Append(before + Times(ZERO, n), 1, t, limit, window);
    CallsInside(before + Times(ZERO, n) + [1], 1, limit - 1, t, limit, window);
  }

  /** A window opened at `start`, filled up at its end, and the whole of the next one. */
  function LaterBurst(start: int, limit: int, window: int): seq<int>
    requires limit > 0
  {
    [start] + Times(start + window - 1, limit - 1) + [start + window] + Times(start + window, limit - 1)
  }

  lemma NondecreasingTimes(now: int, n: nat)
    ensures Nondecreasing(Times(now, n))
  {
  }

  lemma LaterBurstIsOrdered(start: int, limit: int, window: int)
    requires start > ZERO && limit > 0 && window >= 2
    ensures Nondecreasing(LaterBurst(start, limit, window))
    ensures forall t :: t in LaterBurst(start, limit, window) ==> t > ZERO
  {
    hide Nondecreasing;
    NondecreasingTimes(start + window - 1, limit - 1);
    NondecreasingTimes(start + window, limit - 1);
    NondecreasingTimes(start, 1);
    NondecreasingTimes(start + window, 1);
    assert Times(start, 0) == [] && Times(start + window, 0) == [];
    assert Times(start, 1) == [start] && Times(start + window, 1) == [start + window];
    OrderedConcat([start], Times(start + window - 1, limit - 1));
    OrderedConcat([start] + Times(start + window - 1, limit - 1), [start + window]);
    OrderedConcat([start] + Times(start + window - 1, limit - 1) + [start + window], Times(start + window, limit - 1));
  }

  /** The first window of the burst: all of it but the opening call is seen from the next instant on. */
  lemma FilledWindow(start: int, limit: int, window: int)
    requires start > ZERO && limit > 0 && window >= 2
    ensures var calls := [start] + Times(start + window - 1, limit - 1);
            && Replay(calls, limit, window) == Some(Entry(start, limit))
            && CountFrom(calls, start + 1, limit, window) == limit - 1
  {
    hide CountFrom, ZerosFrom, Replay, Times;
    FirstCall(start, start + 1, limit, window);
    CallsInside([start], start + window - 1, limit - 1, start + 1, limit, window);
  }

  lemma BurstCount(start: int, limit: int, window: int)
    requires start > ZERO && limit > 0 && window >= 2
    ensures CountFrom(LaterBurst(start, limit, window), start + 1, limit, window) == 2 * limit - 1
  {
    hide CountFrom, ZerosFrom, Replay, Times;
    FilledWindow(start, limit, window);
    var before := [start] + Times(start + window - 1, limit - 1);
    Append(before, start + window, start + 1, limit, window);
    CallsInside(before + [start + window], start + window, limit - 1, start + 1, limit, window);
  }

  /** Without any call at the zero instant the bound is met at every later instant. */
  lemma BoundIsAttainedLater(start: int, limit: int, window: int)
    requires start > ZERO && limit > 0 && window >= 2
    ensures Nondecreasing(LaterBurst(start, limit, window))
    ensures forall t :: t in LaterBurst(start, limit, window) ==> t > ZERO
    ensures CountFrom(LaterBurst(start, limit, window), start + 1, limit, window) == 2 * limit - 1
  {
    LaterBurstIsOrdered(start, limit, window);
    BurstCount(start, limit, window);
  }

  /** At the zero instant every call is allowed. */
  lemma ZeroInstantIsUnlimited(n: nat, limit: int, window: int)
    requires limit > 0 && window > 0
    ensures CountFrom(Times(ZERO, n), ZERO, limit, window) == n
  {
    CallsAtZero([], n, ZERO, limit, window);
    assert [] + Times(ZERO, n) == Times(ZERO, n);
  }

  /** A denied client is allowed again exactly from the returned wait on. */
  lemma DeniedUntil(e: Option<Entry>, now: int, later: int, limit: int, window: int)
    requires limit > 0 && window > 0 && !Decide(e, now, limit, window).allowed && now <= later
    ensures Next(e, now, limit, window) == e && Decide(e, now, limit, window).wait > 0
    ensures Decide(e, later, limit, window).allowed <==> later >= now + Decide(e, now, limit, window).wait
  {
  }

  // ---- the limiter ----------------------------------------------------------------------------------------

  predicate IsSpace(c: char) {
    c in {' ', '\t', '\n', '\r', '\U{0B}', '\U{0C}', '\U{85}', '\U{A0}'}
  }

  function TrimLeft(s: string): string {
    if s != [] && IsSpace(s[0]) then TrimLeft(s[1..]) else s
  }

  function TrimRight(s: string): string {
    if s != [] && IsSpace(s[|s| - 1]) then TrimRight(s[..|s| - 1]) else s
  }

  function ClientKey(key: string): (k: string)
  {
    var trimmed := TrimRight(TrimLeft(key));
    if trimmed == "" then "unknown" else trimmed
  }

  predicate CoreAt(s: string, i: nat, j: nat)
    requires i <= j <= |s|
  {
    && (forall k :: 0 <= k < i ==> IsSpace(s[k])) && (forall k :: j <= k < |s| ==> IsSpace(s[k]))
    && (i < j ==> !IsSpace(s[i]) && !IsSpace(s[j - 1]))
  }

  /** `core` is `s` without the white space around it. */
  ghost predicate IsCore(s: string, core: string) {
    exists i: nat, j: nat :: i <= j <= |s| && CoreAt(s, i, j) && core == s[i..j]
  }

  lemma {:induction false} LeftEnd(s: string) returns (i: nat)
    ensures i <= |s| && TrimLeft(s) == s[i..] && (i < |s| ==> !IsSpace(s[i])) && forall k :: 0 <= k < i ==> IsSpace(s[k])
  {
    if s != [] && IsSpace(s[0]) {
      var rest := LeftEnd(s[1..]);
      i := rest + 1;
      assert s[1..][rest..] == s[i..];
      assert forall k :: 0 < k < i ==> s[k] == s[1..][k - 1];
    } else {
      i := 0;
    }
  }

  lemma {:induction false} RightEnd(s: string) returns (j: nat)
    ensures j <= |s| && TrimRight(s) == s[..j] && (j > 0 ==> !IsSpace(s[j - 1])) && forall k :: j <= k < |s| ==> IsSpace(s[k])
  {
    if s != [] && IsSpace(s[|s| - 1]) {
      j := RightEnd(s[..|s| - 1]);
    } else {
      j := |s|;
    }
  }

  /** A client's key is its raw key without the white space around it; a blank one is unknown. */
  lemma KeyIsCore(raw: string)
    ensures exists core :: IsCore(raw, core) && ClientKey(raw) == if core == "" then "unknown" else core
  {
    var i := LeftEnd(raw);
    var j := RightEnd(raw[i..]);
    var core := raw[i..i + j];
    assert raw[i..][..j] == core;
    if j > 0 {
      assert raw[i..][j - 1] == raw[i + j - 1];
    }
    forall k | i + j <= k < |raw|
      ensures IsSpace(raw[k])
    {
      assert raw[k] == raw[i..][k - i];
    }
    assert CoreAt(raw, i, i + j);
    assert IsCore(raw, core);
  }

  lemma CoreEndsAgree(s: string, i: nat, j: nat, i': nat, j': nat)
    requires i <= j <= |s| && i' <= j' <= |s| && CoreAt(s, i, j) && CoreAt(s, i', j')
    ensures s[i..j] == s[i'..j']
  {
    if i < j && i' < j' {
      assert i == i' && j == j';
    }
  }

  lemma CoreIsUnique(s: string, core: string)
    requires IsCore(s, core)
    ensures forall other :: IsCore(s, other) ==> other == core
  {
    forall other | IsCore(s, other)
      ensures other == core
    {
      var i: nat, j: nat :| i <= j <= |s| && CoreAt(s, i, j) && core == s[i..j];
      var i': nat, j': nat :| i' <= j' <= |s| && CoreAt(s, i', j') && other == s[i'..j'];
      CoreEndsAgree(s, i, j, i', j');
    }
  }

  /**
    Two clients are counted as one exactly when their keys differ by nothing but white space around them, or are
    blank and literally unknown.
   */
  lemma ClientsKeptApart(raw: string, other: string, core: string, core': string)
    requires IsCore(raw, core) && IsCore(other, core')
    ensures ClientKey(raw) == ClientKey(other) <==>
            core == core' || (core in {"", "unknown"} && core' in {"", "unknown"})
  {
    KeyIsCore(raw);
    KeyIsCore(other);
    CoreIsUnique(raw, core);
    CoreIsUnique(other, core');
  }

  type History = map<string, seq<int>>

  function Calls(history: History, key: string): seq<int> {
    if key in history then history[key] else []
  }

  function Get(entries: map<string, Entry>, key: string): Option<Entry> {
    if key in entries then Some(entries[key]) else None
  }

  /** A stored entry is what replaying the client's calls gives; a missing one belongs to a window that is over. */
  predicate Matches(entry: Option<Entry>, replayed: Option<Entry>, last: Option<int>, window: int) {
    if entry.Some? then entry == replayed
    else replayed.None? || (last.Some? && Opens(replayed, last.value, window))
  }

  ghost predicate Consistent(entries: map<string, Entry>, history: History, last: Option<int>, limit: int, window: int) {
    forall key :: Matches(Get(entries, key), Replay(Calls(history, key), limit, window), last, window)
  }

  /** A missing entry answers like the one it replaces, and a later call cannot tell them apart either. */
  lemma SameAnswer(e: Option<Entry>, replayed: Option<Entry>, last: Option<int>, now: int, limit: int, window: int)
    requires Matches(e, replayed, last, window) && (last.None? || last.value <= now)
    ensures Decide(e, now, limit, window) == Decide(replayed, now, limit, window)
    ensures Next(e, now, limit, window) == Next(replayed, now, limit, window)
    ensures Matches(e, replayed, Some(now), window)
  {
  }

  lemma OtherKey(entries: map<string, Entry>, history: History, last: Option<int>, other: string, now: int,
                 limit: int, window: int, entries': map<string, Entry>, history': History)
    requires Consistent(entries, history, last, limit, window) && (last.None? || last.value <= now)
    requires Get(entries', other) == Get(entries, other) && Calls(history', other) == Calls(history, other)
    ensures Matches(Get(entries', other), Replay(Calls(history', other), limit, window), Some(now), window)
  {
    SameAnswer(Get(entries, other), Replay(Calls(history, other), limit, window), last, now, limit, window);
  }

  /** One counted call keeps the entries consistent, and is answered as if nothing had been deleted. */
  lemma CountedCall(entries: map<string, Entry>, history: History, last: Option<int>, key: string, now: int,
                    limit: int, window: int)
    requires Consistent(entries, history, last, limit, window) && (last.None? || last.value <= now)
    ensures var e, replayed := Get(entries, key), Replay(Calls(history, key), limit, window);
            && Decide(e, now, limit, window) == Decide(replayed, now, limit, window)
            && Consistent(entries[key := Next(e, now, limit, window).value],
                          history[key := Calls(history, key) + [now]], Some(now), limit, window)
  {
    var e, replayed := Get(entries, key), Replay(Calls(history, key), limit, window);
    SameAnswer(e, replayed, last, now, limit, window);
    Append(Calls(history, key), now, 0, limit, window);
    var entries' := entries[key := Next(e, now, limit, window).value];
    var history' := history[key := Calls(history, key) + [now]];
    forall other
      ensures Matches(Get(entries', other), Replay(Calls(history', other), limit, window), Some(now), window)
    {
      if other != key {
        OtherKey(entries, history, last, other, now, limit, window, entries', history');
      }
    }
  }

  /** Deleting entries whose window is over keeps them consistent. */
  lemma SweepKeepsConsistent(entries: map<string, Entry>, swept: set<string>, history: History, now: int, limit: int,
                             window: int)
    requires Consistent(entries, history, Some(now), limit, window)
    requires forall key :: key in swept && key in entries ==> now >= entries[key].windowStart + window
    ensures Consistent(entries - swept, history, Some(now), limit, window)
  {
    forall key
      ensures Matches(Get(entries - swept, key), Replay(Calls(history, key), limit, window), Some(now), window)
    {
      assert Matches(Get(entries, key), Replay(Calls(history, key), limit, window), Some(now), window);
    }
  }

  class ClientRateLimiter {
    const limit: int
    const window: int

    var entries: map<string, Entry>

    /** The counted calls of every client, the latest instant, and whether time has never gone back so far. */
    ghost var history: History
    ghost var last: Option<int>
    ghost var ordered: bool

    ghost predicate Valid()
      reads this
    {
      ordered ==> Consistent(entries, history, last, limit, window)
    }

    constructor (limit: int, window: int)
      ensures Valid() && this.limit == limit && this.window == window && entries == map[]
      ensures history == map[] && last == None && ordered
    {
      this.limit, this.window, this.entries := limit, window, map[];
      this.history, this.last, this.ordered := map[], None, true;
    }

    /** When there are many entries, those whose window is over go. */
    method Cleanup(now: int)
      requires Valid() && last == Some(now)
      modifies this`entries
      ensures Valid()
      ensures entries == if |old(entries)| <= CLEANUP_THRESHOLD then old(entries)
                         else map key | key in old(entries) && now < old(entries)[key].windowStart + window ::
                                old(entries)[key]
    {
      if |entries| <= CLEANUP_THRESHOLD {
        return;
      }
      var rest := entries.Keys;
      while rest != {}
        invariant rest <= entries.Keys <= old(entries).Keys && Valid()
        invariant forall key :: key in entries ==> entries[key] == old(entries)[key]
        invariant forall key :: key in old(entries) && key !in rest ==>
          (key in entries <==> now < old(entries)[key].windowStart + window)
        decreases rest
      {
        assert !(forall key :: key !in rest) || rest == {};
        var key :| key in rest;
        if now >= entries[key].windowStart + window {
          if ordered {
            SweepKeepsConsistent(entries, {key}, history, now, limit, window);
          }
          entries := entries - {key};
        }
        rest := rest - {key};
      }
    }

    /**
      As long as time does not go back, the answer is that of a limiter that never deletes anything. A
      limiter without limit or window allows everything and counts nothing.
     */
    method Allow(rawKey: string, now: int) returns (answer: Answer)
      requires Valid()
      modifies this
      ensures Valid()
      ensures limit <= 0 || window <= 0 ==> answer == Answer(true, 0) && history == old(history) && entries == old(entries)
      ensures limit > 0 && window > 0 ==>
        && history == old(history)[ClientKey(rawKey) := Calls(old(history), ClientKey(rawKey)) + [now]]
        && last == Some(now) && ordered == (old(ordered) && (old(last).None? || old(last).value <= now))
      ensures limit > 0 && window > 0 && ordered ==>
        answer == Decide(Replay(Calls(old(history), ClientKey(rawKey)), limit, window), now, limit, window)
    {
      if limit <= 0 || window <= 0 {
        return Answer(true, 0);
      }
      var key := ClientKey(rawKey);
      var entry := Get(entries, key);
      ordered := ordered && (last.None? || last.value <= now);
      if ordered {
        CountedCall(entries, history, last, key, now, limit, window);
      }
      history, last := history[key := Calls(history, key) + [now]], Some(now);
      if Opens(entry, now, window) {
        entries := entries[key := Entry(now, 1)];
        Cleanup(now);
        return Answer(true, 0);
      }
      if entry.value.count >= limit {
        assert entries == entries[key := entry.value];
        return Answer(false, entry.value.windowStart + window - now);
      }
      entries := entries[key := entry.value.(count := entry.value.count + 1)];
      return Answer(true, 0);
    }
  }
}
