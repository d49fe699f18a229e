/**
  When the chat analyzer processes: daily windows, same-day or overnight, with slots a whole number of
  intervals after each opening. Instants are nanoseconds; the location has a fixed offset from UTC.
 */
module Scheduler {
  import opened Wrappers

  const SECOND := 1_000_000_000
  const MINUTE := 60 * SECOND
  const DAY := 24 * 60 * MINUTE
  const MINIMUM_PROCESS_INTERVAL := 5 * MINUTE

  /** The zero instant stands for "not set". */
  const NEVER := 0

  datatype Settings = Settings(pollInterval: int, startMinute: int, endMinute: int, interval: int, offset: int) {
    predicate Valid() {
      0 <= startMinute < 1440 && 0 <= endMinute < 1440 && interval >= MINIMUM_PROCESS_INTERVAL
    }

    /** Two settings can still coincide afterwards: an opening at 20:00 with a missing or equal closing. */
    function WithDefaults(): (s: Settings)
      ensures s.Valid() && (Valid() && startMinute != endMinute ==> s.(pollInterval := pollInterval) == this)
      ensures s.pollInterval > 0 && (pollInterval > 0 ==> s.pollInterval == pollInterval)
      ensures interval >= MINIMUM_PROCESS_INTERVAL ==> s.interval == interval
      ensures s.startMinute == s.endMinute <==> startMinute == 1200 && !(0 <= endMinute < 1440 && endMinute != 1200)
    {
      var start := if startMinute < 0 || startMinute >= 24 * 60 then 8 * 60 else startMinute;
      var end := if endMinute < 0 || endMinute >= 24 * 60 || endMinute == start then 20 * 60 else endMinute;
      Settings(if pollInterval <= 0 then 30 * SECOND else pollInterval, start, end,
               if interval < MINIMUM_PROCESS_INTERVAL then MINIMUM_PROCESS_INTERVAL else interval, offset)
    }
  }

  // ---- what the windows are -------------------------------------------------------------------------

  /** Opening and closing of the window that starts on day `d`; one that does not close later that day closes the next. */
  function Opening(s: Settings, d: int): int {
    d * DAY + s.startMinute * MINUTE - s.offset
  }

  function Closing(s: Settings, d: int): int {
    (if s.endMinute > s.startMinute then d else d + 1) * DAY + s.endMinute * MINUTE - s.offset
  }

  predicate WithinWindow(s: Settings, d: int, t: int) {
    Opening(s, d) <= t <= Closing(s, d)
  }

  ghost predicate InWindow(s: Settings, t: int) {
    exists d :: WithinWindow(s, d, t)
  }

  predicate IsSlot(s: Settings, d: int, k: nat, t: int) {
    t == Opening(s, d) + k * s.interval && t <= Closing(s, d)
  }

  ghost predicate Slot(s: Settings, t: int) {
    exists d, k :: IsSlot(s, d, k, t)
  }

  // ---- the schedule ---------------------------------------------------------------------------------

  function Midnight(local: int): int {
    local - local % DAY
  }

  function ScheduledProcessCandidate(local: int, start: int, end: int, interval: int): Option<int>
    requires interval > 0
  {
    if local < start || local > end then None
    else
      var slots := (local - start) / interval;
      var floor := start + slots * interval;
      var candidate := if floor < local then floor + interval else floor;
      if candidate > end then None else Some(candidate)
  }

  /** A slot left in the window that opened yesterday. */
  function YesterdaysSlot(local: int, start: int, end: int, interval: int): Option<int>
    requires interval > 0
  {
    if local <= end then ScheduledProcessCandidate(local, start - DAY, end, interval) else None
  }

  /** The next slot by local time, given today's opening and closing. */
  function NextSlot(local: int, start: int, end: int, overnight: bool, interval: int): int
    requires interval > 0
  {
    if !overnight then
      if local < start then start
      else
        match ScheduledProcessCandidate(local, start, end, interval)
        case Some(candidate) => candidate
        case None => start + DAY
    else
      match YesterdaysSlot(local, start, end, interval)
      case Some(early) => early
      case None =>
        if local < start then start
        else
          match ScheduledProcessCandidate(local, start, end + DAY, interval)
          case Some(candidate) => candidate
          case None => start + DAY
  }

  function NextScheduledProcessAt(now: int, s: Settings): int
    requires s.Valid()
  {
    var local := now + s.offset;
    var midnight := Midnight(local);
    NextSlot(local, midnight + s.startMinute * MINUTE, midnight + s.endMinute * MINUTE, s.endMinute <= s.startMinute,
             s.interval) - s.offset
  }

  function NextProcessWindowOpenAt(now: int, s: Settings): int {
    var local := now + s.offset;
    var start := Midnight(local) + s.startMinute * MINUTE;
    var end := Midnight(local) + s.endMinute * MINUTE;
    if s.endMinute > s.startMinute then
      if local < start then start - s.offset
      else if local <= end then now
      else start + DAY - s.offset
    else if local <= end then now
    else if local < start then start - s.offset
    else now
  }

  function ThrottledProcessAt(candidate: int, last: int, s: Settings): int {
    if candidate == NEVER then NEVER
    else
      var next := if last != NEVER && candidate < last + s.interval then last + s.interval else candidate;
      var window := NextProcessWindowOpenAt(next, s);
      if next < window then window else next
  }

  // ---- exactness --------------------------------------------------------------------------------------

  lemma MulMonotone(j: int, k: int, interval: int)
    requires j <= k && interval > 0
    ensures j * interval <= k * interval
  {
  }

  lemma FloorSlot(elapsed: int, interval: int, k: int)
    requires interval > 0 && elapsed >= 0 && k * interval >= elapsed
    ensures var slots := elapsed / interval;
            && slots >= 0 && slots * interval <= elapsed < (slots + 1) * interval
            && k >= slots && (slots * interval < elapsed ==> k >= slots + 1)
  {
    var slots := elapsed / interval;
    assert slots * interval + elapsed % interval == elapsed;
    if k < slots {
      MulMonotone(k + 1, slots, interval);
    }
  }

  /** The candidate of one window is its least slot not before `local`, and there is none if none fits. */
  lemma CandidateIsLeast(local: int, start: int, end: int, interval: int, k: nat)
    requires interval > 0 && start <= local <= end
    requires local <= start + k * interval <= end
    ensures ScheduledProcessCandidate(local, start, end, interval).Some?
    ensures ScheduledProcessCandidate(local, start, end, interval).value <= start + k * interval
  {
    FloorSlot(local - start, interval, k);
    var slots := (local - start) / interval;
    MulMonotone(slots, k, interval);
    if slots * interval < local - start {
      MulMonotone(slots + 1, k, interval);
    }
  }

  lemma CandidateIsSlot(local: int, start: int, end: int, interval: int) returns (k: nat)
    requires interval > 0 && ScheduledProcessCandidate(local, start, end, interval).Some?
    ensures ScheduledProcessCandidate(local, start, end, interval).value == start + k * interval
    ensures local <= start + k * interval <= end
  {
    var slots := (local - start) / interval;
    assert slots * interval + (local - start) % interval == local - start;
    k := if start + slots * interval < local then slots + 1 else slots;
  }

  lemma DaysApart(d: int, e: int)
    ensures d < e ==> d * DAY + DAY <= e * DAY
    ensures d + 1 < e ==> d * DAY + 2 * DAY <= e * DAY
  {
  }

  lemma DayOf(local: int)
    ensures Midnight(local) == (local / DAY) * DAY && Midnight(local) <= local < Midnight(local) + DAY
  {
  }

  /** `start` and `end` are the local opening and closing minutes of day `d`, which contains `local`. */
  predicate Today(s: Settings, d: int, local: int, start: int, end: int) {
    && d * DAY <= local < d * DAY + DAY
    && start == d * DAY + s.startMinute * MINUTE && end == d * DAY + s.endMinute * MINUTE
  }

  lemma TodayOf(now: int, s: Settings) returns (d: int, start: int, end: int)
    requires s.Valid()
    ensures Today(s, d, now + s.offset, start, end)
    ensures NextScheduledProcessAt(now, s) ==
            NextSlot(now + s.offset, start, end, s.endMinute <= s.startMinute, s.interval) - s.offset
  {
    var local := now + s.offset;
    DayOf(local);
    d := local / DAY;
    start, end := Midnight(local) + s.startMinute * MINUTE, Midnight(local) + s.endMinute * MINUTE;
  }

  lemma SameDaySlot(s: Settings, d: int, local: int, start: int, end: int) returns (e: int, k: nat)
    requires s.Valid() && s.endMinute > s.startMinute && Today(s, d, local, start, end)
    ensures var r := NextSlot(local, start, end, false, s.interval);
            local <= r && IsSlot(s, e, k, r - s.offset)
  {
    if local < start {
      e, k := d, 0;
    } else if ScheduledProcessCandidate(local, start, end, s.interval).Some? {
      k := CandidateIsSlot(local, start, end, s.interval);
      e := d;
    } else {
      e, k := d + 1, 0;
    }
  }

  lemma YesterdaysIsSlot(s: Settings, d: int, local: int, start: int, end: int) returns (k: nat)
    requires s.Valid() && s.endMinute <= s.startMinute && Today(s, d, local, start, end)
    requires YesterdaysSlot(local, start, end, s.interval).Some?
    ensures var r := YesterdaysSlot(local, start, end, s.interval).value;
            local <= r && IsSlot(s, d - 1, k, r - s.offset)
  {
    k := CandidateIsSlot(local, start - DAY, end, s.interval);
  }

  lemma TonightIsSlot(s: Settings, d: int, local: int, start: int, end: int) returns (k: nat)
    requires s.Valid() && s.endMinute <= s.startMinute && Today(s, d, local, start, end)
    requires ScheduledProcessCandidate(local, start, end + DAY, s.interval).Some?
    ensures var r := ScheduledProcessCandidate(local, start, end + DAY, s.interval).value;
            local <= r && IsSlot(s, d, k, r - s.offset)
  {
    k := CandidateIsSlot(local, start, end + DAY, s.interval);
  }

  lemma OvernightSlot(s: Settings, d: int, local: int, start: int, end: int) returns (e: int, k: nat)
    requires s.Valid() && s.endMinute <= s.startMinute && Today(s, d, local, start, end)
    ensures var r := NextSlot(local, start, end, true, s.interval);
            local <= r && IsSlot(s, e, k, r - s.offset)
  {
    if YesterdaysSlot(local, start, end, s.interval).Some? {
      k := YesterdaysIsSlot(s, d, local, start, end);
      e := d - 1;
    } else if local < start {
      e, k := d, 0;
    } else if ScheduledProcessCandidate(local, start, end + DAY, s.interval).Some? {
      k := TonightIsSlot(s, d, local, start, end);
      e := d;
    } else {
      e, k := d + 1, 0;
      assert Opening(s, d + 1) == start + DAY - s.offset;
    }
  }

  /** The scheduled instant is a slot, not before `now`. */
  lemma ScheduledIsSlot(now: int, s: Settings)
    requires s.Valid()
    ensures Slot(s, NextScheduledProcessAt(now, s)) && now <= NextScheduledProcessAt(now, s)
  {
    var d, start, end := TodayOf(now, s);
    var e: int, k: nat;
    if s.endMinute > s.startMinute {
      e, k := SameDaySlot(s, d, now + s.offset, start, end);
    } else {
      e, k := OvernightSlot(s, d, now + s.offset, start, end);
    }
    assert IsSlot(s, e, k, NextScheduledProcessAt(now, s));
  }

  /** Slot `k` of day `e` in local time, with where it can lie. */
  predicate LocalSlot(s: Settings, d: int, start: int, end: int, e: int, k: nat, u: int) {
    var days := (e - d) * DAY;
    && start + days <= u == start + days + k * s.interval
    && u <= end + days + if s.endMinute > s.startMinute then 0 else DAY
  }

  lemma SlotInLocalTime(s: Settings, d: int, local: int, start: int, end: int, e: int, k: nat, t: int)
    requires s.Valid() && Today(s, d, local, start, end) && IsSlot(s, e, k, t)
    ensures LocalSlot(s, d, start, end, e, k, t + s.offset)
    ensures e < d ==> (e - d) * DAY <= -DAY
    ensures e < d - 1 ==> (e - d) * DAY <= -2 * DAY
    ensures e > d ==> (e - d) * DAY >= DAY
  {
    MulMonotone(0, k, s.interval);
  }

  lemma SameDaySkipsNone(s: Settings, d: int, local: int, start: int, end: int, e: int, k: nat, t: int)
    requires s.Valid() && s.endMinute > s.startMinute && Today(s, d, local, start, end)
    requires IsSlot(s, e, k, t) && local <= t + s.offset
    ensures NextSlot(local, start, end, false, s.interval) <= t + s.offset
  {
    SlotInLocalTime(s, d, local, start, end, e, k, t);
    if e == d && start <= local {
      CandidateIsLeast(local, start, end, s.interval, k);
    } else if ScheduledProcessCandidate(local, start, end, s.interval).Some? {
      var j := CandidateIsSlot(local, start, end, s.interval);
    }
  }

  lemma InYesterday(local: int, start: int, end: int, interval: int, k: nat)
    requires interval > 0 && local <= end && start - DAY <= local <= start - DAY + k * interval <= end
    ensures NextSlot(local, start, end, true, interval) <= start - DAY + k * interval
  {
    CandidateIsLeast(local, start - DAY, end, interval, k);
  }

  lemma YesterdayEnds(local: int, start: int, end: int, interval: int)
    requires interval > 0 && YesterdaysSlot(local, start, end, interval).Some?
    ensures YesterdaysSlot(local, start, end, interval).value <= end
  {
    var j := CandidateIsSlot(local, start - DAY, end, interval);
  }

  lemma TodayAtLatest(local: int, start: int, end: int, interval: int)
    requires interval > 0 && local <= end <= start
    ensures NextSlot(local, start, end, true, interval) <= start
  {
    if YesterdaysSlot(local, start, end, interval).Some? {
      YesterdayEnds(local, start, end, interval);
    } else if local == start {
      CandidateIsLeast(local, start, end + DAY, interval, 0);
    }
  }

  lemma FromYesterday(s: Settings, d: int, local: int, start: int, end: int, e: int, k: nat, t: int)
    requires s.Valid() && s.endMinute <= s.startMinute && Today(s, d, local, start, end) && local <= end
    requires IsSlot(s, e, k, t) && local <= t + s.offset
    ensures NextSlot(local, start, end, true, s.interval) <= t + s.offset
  {
    SlotInLocalTime(s, d, local, start, end, e, k, t);
    if e == d - 1 {
      assert t + s.offset == start - DAY + k * s.interval <= end;
      InYesterday(local, start, end, s.interval, k);
    } else {
      assert start <= t + s.offset;
      TodayAtLatest(local, start, end, s.interval);
    }
  }

  lemma OvernightSkipsNone(s: Settings, d: int, local: int, start: int, end: int, e: int, k: nat, t: int)
    requires s.Valid() && s.endMinute <= s.startMinute && Today(s, d, local, start, end)
    requires IsSlot(s, e, k, t) && local <= t + s.offset
    ensures NextSlot(local, start, end, true, s.interval) <= t + s.offset
  {
    SlotInLocalTime(s, d, local, start, end, e, k, t);
    if local <= end {
      FromYesterday(s, d, local, start, end, e, k, t);
    } else if e == d && start <= local {
      CandidateIsLeast(local, start, end + DAY, s.interval, k);
    } else if ScheduledProcessCandidate(local, start, end + DAY, s.interval).Some? {
      var j := CandidateIsSlot(local, start, end + DAY, s.interval);
    }
  }

  /** No slot lies between `now` and the scheduled instant. */
  lemma NoSlotSkipped(now: int, s: Settings, e: int, k: nat, t: int)
    requires s.Valid() && IsSlot(s, e, k, t) && now <= t
    ensures NextScheduledProcessAt(now, s) <= t
  {
    var d, start, end := TodayOf(now, s);
    if s.endMinute > s.startMinute {
      SameDaySkipsNone(s, d, now + s.offset, start, end, e, k, t);
    } else {
      OvernightSkipsNone(s, d, now + s.offset, start, end, e, k, t);
    }
  }

  /** The scheduled instant is the least slot at or after `now`. */
  lemma ScheduledIsLeastSlot(now: int, s: Settings)
    requires s.Valid()
    ensures var r := NextScheduledProcessAt(now, s);
            Slot(s, r) && now <= r && forall t :: Slot(s, t) && now <= t ==> r <= t
  {
    ScheduledIsSlot(now, s);
    forall t | Slot(s, t) && now <= t
      ensures NextScheduledProcessAt(now, s) <= t
    {
      var d, k :| IsSlot(s, d, k, t);
      NoSlotSkipped(now, s, d, k, t);
    }
  }

  lemma OpensInWindow(now: int, s: Settings, d: int)
    requires s.Valid() && Midnight(now + s.offset) == d * DAY && d * DAY <= now + s.offset < d * DAY + DAY
    ensures now <= NextProcessWindowOpenAt(now, s) && InWindow(s, NextProcessWindowOpenAt(now, s))
  {
    hide Midnight;
    var r := NextProcessWindowOpenAt(now, s);
    assert WithinWindow(s, d, r) || WithinWindow(s, d - 1, r) || WithinWindow(s, d + 1, r);
  }

  lemma OpensBefore(now: int, s: Settings, d: int, e: int, t: int)
    requires s.Valid() && Midnight(now + s.offset) == d * DAY && d * DAY <= now + s.offset < d * DAY + DAY
    requires WithinWindow(s, e, t) && now <= t
    ensures NextProcessWindowOpenAt(now, s) <= t
  {
    hide Midnight;
    DaysApart(d, e);
    DaysApart(e, d);
  }

  /** The opening instant is the least instant of any window at or after `now`. */
  lemma OpensAtLeastInstant(now: int, s: Settings)
    requires s.Valid()
    ensures var r := NextProcessWindowOpenAt(now, s);
            InWindow(s, r) && now <= r && forall t :: InWindow(s, t) && now <= t ==> r <= t
  {
    hide NextProcessWindowOpenAt, WithinWindow, Midnight;
    DayOf(now + s.offset);
    var d := (now + s.offset) / DAY;
    OpensInWindow(now, s, d);
    forall t | InWindow(s, t) && now <= t
      ensures NextProcessWindowOpenAt(now, s) <= t
    {
      var e :| WithinWindow(s, e, t);
      OpensBefore(now, s, d, e, t);
    }
  }

  /** `r` is the least in-window instant at or after both the candidate and the end of the last interval. */
  ghost predicate IsThrottled(r: int, candidate: int, last: int, s: Settings) {
    && InWindow(s, r) && candidate <= r && (last != NEVER ==> last + s.interval <= r)
    && forall t :: InWindow(s, t) && candidate <= t && (last != NEVER ==> last + s.interval <= t) ==> r <= t
  }

  lemma ThrottledIsLeast(candidate: int, last: int, s: Settings)
    requires s.Valid() && candidate != NEVER
    ensures IsThrottled(ThrottledProcessAt(candidate, last, s), candidate, last, s)
  {
    var next := if last != NEVER && candidate < last + s.interval then last + s.interval else candidate;
    OpensAtLeastInstant(next, s);
  }

  // ---- the loop ---------------------------------------------------------------------------------------

  /**
    What one firing of the timer meets: the clock, whether collecting succeeded and how much it
    brought, and the result of a pass: whether it processed and when something wants a retry.
   */
  datatype Tick = Tick(now: int, collected: Option<int>, processed: bool, retryAt: int)

  predicate Realistic(ticks: seq<Tick>) {
    forall i :: 0 <= i < |ticks| ==> ticks[i].now > NEVER && ticks[i].retryAt >= NEVER
  }

  predicate Spaced(passes: seq<int>, interval: int) {
    forall i :: 0 < i < |passes| ==> passes[i] - passes[i - 1] >= interval
  }

  lemma SpacedAppend(passes: seq<int>, now: int, interval: int)
    requires Spaced(passes, interval) && (passes != [] ==> now - passes[|passes| - 1] >= interval)
    ensures Spaced(passes + [now], interval)
  {
    var all := passes + [now];
    forall i | 0 < i < |all|
      ensures all[i] - all[i - 1] >= interval
    {
      assert all[i - 1] == passes[i - 1];
      if i < |passes| {
        assert all[i] == passes[i];
      }
    }
  }

  // ---- when the loop owes a pass ----------------------------------------------------------------------

  /** The least slot at or after `from`. */
  ghost predicate IsNextSlot(s: Settings, from: int, r: int) {
    Slot(s, r) && from <= r && forall t :: Slot(s, t) && from <= t ==> r <= t
  }

  /**
    One firing as the loop took it: when it polled before and whether it polled now, the firing of the last
    pass (-1 before the first) and the last pass that processed, the polls since then that brought messages, this
    firing's included, and whether a pass was made.
   */
  datatype Firing = Firing(polledAt: Option<int>, polls: bool, since: int, last: int, news: set<int>, passes: bool)

  /** Passes are asked for: by the schedule, by a retry, and by every poll that brought messages, each throttled. */
  ghost predicate Asked(s: Settings, startedAt: int, ticks: seq<Tick>, f: Firing, x: int)
    requires f.since < |ticks|
  {
    || (f.since < 0 && IsNextSlot(s, startedAt, x))
    || (f.since >= 0 && exists slot ::
          IsNextSlot(s, ticks[f.since].now + SECOND, slot) && IsThrottled(x, slot, f.last, s))
    || (f.since >= 0 && ticks[f.since].retryAt != NEVER && IsThrottled(x, ticks[f.since].retryAt, f.last, s))
    || exists polled :: polled in f.news && IsThrottled(x, polled, f.last, s)
  }

  predicate Brought(t: Tick) {
    t.collected.Some? && t.collected.value > 0
  }

  /** What the firing before leaves for firing `i`. */
  predicate Follows(ticks: seq<Tick>, trail: seq<Firing>, i: nat)
    requires i < |trail| <= |ticks|
  {
    var f := trail[i];
    if i == 0 then f.polledAt == None && f.since == -1 && f.last == NEVER
    else
      var g, t := trail[i - 1], ticks[i - 1];
      && f.polledAt == (if g.polls then Some(t.now) else g.polledAt)
      && f.since == (if g.passes then i - 1 else g.since)
      && f.last == if g.passes && t.processed then t.now else g.last
  }

  /** The loop polls when an interval is over, and makes a pass exactly when one asked for is due. */
  ghost predicate Serves(s: Settings, startedAt: int, ticks: seq<Tick>, trail: seq<Firing>, i: nat)
    requires i < |trail| <= |ticks|
  {
    var f, t := trail[i], ticks[i];
    && f.since < i && Follows(ticks, trail, i)
    && (f.polls <==> f.polledAt.None? || t.now >= f.polledAt.value + s.pollInterval)
    && f.news == (if i > 0 && !trail[i - 1].passes then trail[i - 1].news else {}) +
                 (if f.polls && Brought(t) then {t.now} else {})
    && (f.passes <==> exists x :: Asked(s, startedAt, ticks, f, x) && x <= t.now)
  }

  /** `next` is the earliest instant asked for. */
  ghost predicate IsPlan(s: Settings, startedAt: int, ticks: seq<Tick>, f: Firing, next: int)
    requires f.since < |ticks|
  {
    Asked(s, startedAt, ticks, f, next) && forall x :: Asked(s, startedAt, ticks, f, x) ==> next <= x
  }

  lemma NewsAsked(s: Settings, startedAt: int, ticks: seq<Tick>, f: Firing, now: int, x: int)
    requires f.since < |ticks|
    ensures Asked(s, startedAt, ticks, f.(news := f.news + {now}), x) <==>
            Asked(s, startedAt, ticks, f, x) || IsThrottled(x, now, f.last, s)
  {
    assert now in f.news + {now};
  }

  /** A poll that brings something can only bring the plan forward. */
  lemma NewsPlan(s: Settings, startedAt: int, ticks: seq<Tick>, f: Firing, planned: int, now: int, next: int)
    requires f.since < |ticks| && IsPlan(s, startedAt, ticks, f, planned)
    requires next <= planned && (next == planned || IsThrottled(next, now, f.last, s))
    requires forall y :: IsThrottled(y, now, f.last, s) ==> next <= y
    ensures IsPlan(s, startedAt, ticks, f.(news := f.news + {now}), next)
  {
    var g := f.(news := f.news + {now});
    assert now in g.news;
    forall x
      ensures Asked(s, startedAt, ticks, g, x) <==> Asked(s, startedAt, ticks, f, x) || IsThrottled(x, now, f.last, s)
    {
      NewsAsked(s, startedAt, ticks, f, now, x);
    }
  }

  /** The plan right after a pass: the schedule's, or the retry's if that comes first. */
  lemma PassPlan(s: Settings, startedAt: int, ticks: seq<Tick>, f: Firing, slot: int, planned: int, next: int)
    requires 0 <= f.since < |ticks| && f.news == {}
    requires IsNextSlot(s, ticks[f.since].now + SECOND, slot) && IsThrottled(planned, slot, f.last, s)
    requires next <= planned
    requires if ticks[f.since].retryAt == NEVER then next == planned else
               && (next == planned || IsThrottled(next, ticks[f.since].retryAt, f.last, s))
               && forall y :: IsThrottled(y, ticks[f.since].retryAt, f.last, s) ==> next <= y
    ensures IsPlan(s, startedAt, ticks, f, next)
  {
    forall x | Asked(s, startedAt, ticks, f, x)
      ensures next <= x
    {
      if other :| IsNextSlot(s, ticks[f.since].now + SECOND, other) && IsThrottled(x, other, f.last, s) {
        assert other == slot;
      }
    }
  }

  /** The earlier of a planned instant and the throttled `candidate`; both respect the last pass. */
  method EarlierThrottled(planned: int, candidate: int, last: int, s: Settings) returns (next: int)
    requires s.Valid() && candidate > NEVER && last >= NEVER && planned >= NEVER
    requires planned != NEVER && last != NEVER ==> last + s.interval <= planned
    ensures next > NEVER && (last != NEVER ==> last + s.interval <= next)
    ensures next == planned || IsThrottled(next, candidate, last, s)
    ensures planned != NEVER ==> next <= planned
    ensures planned == NEVER ==> IsThrottled(next, candidate, last, s)
    ensures forall y :: IsThrottled(y, candidate, last, s) ==> next <= y
  {
    ThrottledIsLeast(candidate, last, s);
    next := ThrottledProcessAt(candidate, last, s);
    if planned != NEVER && planned <= next {
      next := planned;
    }
  }

  method Scheduled(now: int, s: Settings) returns (r: int)
    requires s.Valid()
    ensures IsNextSlot(s, now, r)
  {
    ScheduledIsLeastSlot(now, s);
    r := NextScheduledProcessAt(now, s);
  }

  /** What is asked for depends on nothing but the last pass and the news since. */
  lemma SamePlan(s: Settings, startedAt: int, ticks: seq<Tick>, f: Firing, g: Firing, next: int)
    requires f.since < |ticks| && g == f.(polledAt := g.polledAt, polls := g.polls, passes := g.passes)
    ensures IsPlan(s, startedAt, ticks, f, next) <==> IsPlan(s, startedAt, ticks, g, next)
  {
    assert forall x :: Asked(s, startedAt, ticks, f, x) <==> Asked(s, startedAt, ticks, g, x);
  }

  /** The firing that comes next, as far as the ones before determine it. */
  ghost predicate Awaits(ticks: seq<Tick>, trail: seq<Firing>, f: Firing)
    requires |trail| <= |ticks|
  {
    var i := |trail|;
    && f.since < i
    && if i == 0 then f.polledAt == None && f.since == -1 && f.last == NEVER && f.news == {}
       else
         var g, t := trail[i - 1], ticks[i - 1];
         && f.polledAt == (if g.polls then Some(t.now) else g.polledAt)
         && f.since == (if g.passes then i - 1 else g.since)
         && f.last == (if g.passes && t.processed then t.now else g.last)
         && f.news == if g.passes then {} else g.news
  }

  ghost predicate AllServed(s: Settings, startedAt: int, ticks: seq<Tick>, trail: seq<Firing>)
    requires |trail| <= |ticks|
  {
    forall i: nat :: i < |trail| ==> Serves(s, startedAt, ticks, trail, i)
  }

  /** Taking one more firing as the plan says. */
  lemma ServesOneMore(s: Settings, startedAt: int, ticks: seq<Tick>, trail: seq<Firing>, f: Firing, g: Firing, next: int)
    requires |trail| < |ticks| && AllServed(s, startedAt, ticks, trail) && Awaits(ticks, trail, f)
    requires var t := ticks[|trail|];
             && g == f.(polls := g.polls, news := g.news, passes := g.passes)
             && (g.polls <==> f.polledAt.None? || t.now >= f.polledAt.value + s.pollInterval)
             && g.news == (f.news + if g.polls && Brought(t) then {t.now} else {})
             && (g.passes <==> next <= t.now)
    requires IsPlan(s, startedAt, ticks, g, next)
    ensures AllServed(s, startedAt, ticks, trail + [g])
  {
    var more, t := trail + [g], ticks[|trail|];
    forall i: nat | i < |more|
      ensures Serves(s, startedAt, ticks, more, i)
    {
      if i < |trail| {
        assert Serves(s, startedAt, ticks, trail, i);
      } else {
        assert Follows(ticks, more, i);
        if x :| Asked(s, startedAt, ticks, g, x) && x <= t.now {
          assert next <= x;
        }
      }
    }
  }

  predicate Recorded(ticks: seq<Tick>, trail: seq<Firing>, i: nat, p: int)
    requires i < |trail| <= |ticks|
  {
    trail[i].passes && ticks[i].processed && ticks[i].now == p
  }

  ghost predicate AllRecorded(ticks: seq<Tick>, trail: seq<Firing>, passes: seq<int>)
    requires |trail| <= |ticks|
  {
    forall p :: p in passes <==> exists i: nat :: i < |trail| && Recorded(ticks, trail, i, p)
  }

  lemma RecordsOneMore(ticks: seq<Tick>, trail: seq<Firing>, g: Firing, passes: seq<int>)
    requires |trail| < |ticks| && AllRecorded(ticks, trail, passes)
    ensures var t := ticks[|trail|];
            AllRecorded(ticks, trail + [g], if g.passes && t.processed then passes + [t.now] else passes)
  {
    var more, t := trail + [g], ticks[|trail|];
    var all := if g.passes && t.processed then passes + [t.now] else passes;
    forall p
      ensures p in all <==> exists i: nat :: i < |more| && Recorded(ticks, more, i, p)
    {
      if i: nat :| i < |more| && Recorded(ticks, more, i, p) {
        assert i < |trail| ==> Recorded(ticks, trail, i, p);
      }
      if i: nat :| i < |trail| && Recorded(ticks, trail, i, p) {
        assert Recorded(ticks, more, i, p);
      }
      if g.passes && t.processed && p == t.now {
        assert Recorded(ticks, more, |trail|, p);
      }
    }
  }

  lemma NothingYet(s: Settings, startedAt: int, ticks: seq<Tick>, next: int)
    requires IsNextSlot(s, startedAt, next)
    ensures IsPlan(s, startedAt, ticks, Firing(None, false, -1, NEVER, {}, false), next)
    ensures AllServed(s, startedAt, ticks, []) && AllRecorded(ticks, [], []) && Spaced([], s.interval)
  {
  }

  /** The polling half of a firing. */
  method Poll(s: Settings, t: Tick, planned: int, last: int) returns (next: int)
    requires s.Valid() && t.now > NEVER && last >= NEVER && planned > NEVER
    requires last != NEVER ==> last + s.interval <= planned
    ensures next > NEVER && (last != NEVER ==> last + s.interval <= next)
    ensures !Brought(t) ==> next == planned
    ensures Brought(t) ==>
      && next <= planned && (next == planned || IsThrottled(next, t.now, last, s))
      && forall y :: IsThrottled(y, t.now, last, s) ==> next <= y
  {
    next := planned;
    if t.collected.Some? && t.collected.value > 0 {
      next := EarlierThrottled(planned, t.now, last, s);
    }
  }

  /** What is planned after a pass. */
  method PlanAfter(s: Settings, t: Tick, last: int) returns (next: int, ghost slot: int, ghost planned: int)
    requires s.Valid() && t.now > NEVER && t.retryAt >= NEVER && last >= NEVER
    ensures next > NEVER && (last != NEVER ==> last + s.interval <= next)
    ensures IsNextSlot(s, t.now + SECOND, slot) && IsThrottled(planned, slot, last, s) && next <= planned
    ensures t.retryAt == NEVER ==> next == planned
    ensures t.retryAt != NEVER ==>
      && (next == planned || IsThrottled(next, t.retryAt, last, s))
      && forall y :: IsThrottled(y, t.retryAt, last, s) ==> next <= y
  {
    var scheduled := Scheduled(t.now + SECOND, s);
    next := EarlierThrottled(NEVER, scheduled, last, s);
    slot, planned := scheduled, next;
    if t.retryAt != NEVER {
      next := EarlierThrottled(next, t.retryAt, last, s);
    }
  }

  /**
    The service loop over any timer firings. A firing makes a pass exactly when one is due that the schedule, a retry
    or a poll with messages asked for; passes that processed are recorded, and are never closer together than the
    interval, whatever the clock does and whatever collecting and retrying ask for.
   */
  method Run(s: Settings, startedAt: int, ticks: seq<Tick>) returns (passes: seq<int>, ghost trail: seq<Firing>)
    requires s.Valid() && startedAt > NEVER && Realistic(ticks)
    ensures Spaced(passes, s.interval)
    ensures |trail| == |ticks| && AllServed(s, startedAt, ticks, trail) && AllRecorded(ticks, trail, passes)
  {
    hide IsThrottled, IsNextSlot, IsPlan, Spaced, AllServed, AllRecorded;
    passes, trail := [], [];
    var nextCollect, last := NEVER, NEVER;
    var nextProcess := Scheduled(startedAt, s);
    ghost var f := Firing(None, false, -1, NEVER, {}, false);
    NothingYet(s, startedAt, ticks, nextProcess);
    for i := 0 to |ticks|
      invariant |trail| == i && nextProcess > NEVER && last >= NEVER && Spaced(passes, s.interval)
      invariant last == if passes == [] then NEVER else passes[|passes| - 1]
      invariant (last != NEVER ==> last + s.interval <= nextProcess) && (passes != [] ==> last > NEVER)
      invariant AllServed(s, startedAt, ticks, trail) && AllRecorded(ticks, trail, passes)
      invariant Awaits(ticks, trail, f) && f.last == last && IsPlan(s, startedAt, ticks, f, nextProcess)
      invariant nextCollect == if f.polledAt.None? then NEVER else f.polledAt.value + s.pollInterval
    {
      var t := ticks[i];
      ghost var g := f.(polls := t.now >= nextCollect);
      SamePlan(s, startedAt, ticks, f, g, nextProcess);
      if t.now >= nextCollect {
        ghost var planned := nextProcess;
        nextProcess := Poll(s, t, nextProcess, last);
        if Brought(t) {
          NewsPlan(s, startedAt, ticks, g, planned, t.now, nextProcess);
          g := g.(news := g.news + {t.now});
        }
        nextCollect := t.now + s.pollInterval;
      }
      SamePlan(s, startedAt, ticks, g, g.(passes := t.now >= nextProcess), nextProcess);
      g := g.(passes := t.now >= nextProcess);
      ServesOneMore(s, startedAt, ticks, trail, f, g, nextProcess);
      RecordsOneMore(ticks, trail, g, passes);
      trail := trail + [g];
      f := g.(polledAt := if g.polls then Some(t.now) else g.polledAt);
      SamePlan(s, startedAt, ticks, g, f, nextProcess);
      if t.now >= nextProcess {
        if t.processed {
          SpacedAppend(passes, t.now, s.interval);
          last := t.now;
          passes := passes + [t.now];
        }
        ghost var slot, planned;
        nextProcess, slot, planned := PlanAfter(s, t, last);
        f := Firing(f.polledAt, false, i, last, {}, false);
        PassPlan(s, startedAt, ticks, f, slot, planned, nextProcess);
      }
    }
  }
}
