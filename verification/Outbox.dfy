/**
  The report outbox: enqueuers store an item and then signal a one-slot channel; one dispatcher loads
  what is due, sends it, deletes it, and sleeps until the next item is due or a signal comes.
 */
module Outbox {
  import opened Wrappers

  datatype Item = Item(attempts: nat, nextAttempt: int)

  type Queue = map<int, Item>

  const SECOND := 1_000_000_000

  function Power(n: nat): (r: int)
    ensures r >= 1
  {
    if n == 0 then 1 else 2 * Power(n - 1)
  }

  lemma {:induction false} PowerBound(n: int)
    ensures 0 <= n <= 8 ==> Power(n) <= 256
    ensures n == 8 ==> Power(n) == 256
  {
    assert Power(8) == 4 * Power(6) && Power(6) == 4 * Power(4) && Power(4) == 4 * Power(2) && Power(2) == 4;
    if 0 < n <= 8 {
      assert Power(7) == 2 * Power(6) && Power(5) == 2 * Power(4) && Power(3) == 2 * Power(2) && Power(1) == 2;
    }
  }

  /** How long a failed item waits: doubling, never as long as the five minutes it is cut to. */
  function Backoff(attempts: int): (r: int)
    ensures SECOND <= r <= 256 * SECOND
  {
    PowerBound(if attempts - 1 < 8 then attempts - 1 else 8);
    if attempts <= 1 then SECOND
    else
      var backoff := SECOND * Power(if attempts - 1 < 8 then attempts - 1 else 8);
      if backoff > 300 * SECOND then 300 * SECOND else backoff
  }

  /** The wait starts at one second, doubles with each attempt up to the ninth, and stays at 256 seconds from then on. */
  lemma BackoffDoubles(attempts: int)
    ensures attempts <= 1 ==> Backoff(attempts) == SECOND
    ensures 1 <= attempts <= 8 ==> Backoff(attempts + 1) == 2 * Backoff(attempts)
    ensures attempts >= 9 ==> Backoff(attempts) == 256 * SECOND
  {
    PowerBound(attempts - 1);
    PowerBound(attempts);
    PowerBound(8);
  }

  /** The dispatcher's sleep: from `since`, for ever or until an instant. */
  datatype Sleep = Awake | Asleep(since: int, until: Option<int>)

  /** What one turn meets: the load, the send, the store write after it, the look at what is next, and the time it takes. */
  datatype Turning = Turning(loads: bool, sends: bool, write: Ending, peeks: bool, took: nat)

  /** The item a turn tries is sent and gone. */
  predicate Delivers(f: Turning) {
    f.loads && f.sends && !f.write.FailsFirst?
  }

  ghost predicate Smooth(faults: nat -> Turning, turns: nat) {
    forall k: nat :: k < turns ==> Delivers(faults(k))
  }

  /** Nothing in the queue is due before `id`. */
  predicate IsNext(queue: Queue, id: int) {
    id in queue && forall other :: other in queue ==> queue[id].nextAttempt <= queue[other].nextAttempt
  }

  /** The items of the queue that come no later than `id`. */
  function UpTo(queue: Queue, id: int): set<int>
    requires id in queue
  {
    set other | other in queue && queue[other].nextAttempt <= queue[id].nextAttempt
  }

  lemma SubsetSize(a: set<int>, b: set<int>)
    requires a <= b
    ensures |a| <= |b|
  {
    assert b == a + (b - a);
  }

  /** The queue grew by items never stored before, and nothing else changed. */
  predicate Grew(before: Queue, stored: set<int>, after: Queue, stored': set<int>) {
    && stored <= stored' && after.Keys <= stored'
    && (forall id :: id in before ==> id in after && after[id] == before[id])
    && forall id :: id in after && id !in before ==> id !in stored
  }

  /**
    How an item that was due at the start stands after `k` turns that all delivered: sent, or in the queue as it
    was while `k` other items are gone, all of them due no later than it or stored since.
   */
  ghost predicate Waits(first: Queue, early: set<int>, queue: Queue, stored: set<int>, watched: int, gone: set<int>,
                        k: nat)
    requires watched in first
  {
    && first.Keys <= early <= stored && gone <= stored && queue.Keys <= stored
    && (forall id :: id in queue ==> if id in first then queue[id] == first[id] else id !in early)
    && (watched in queue ==>
          |gone| == k && gone !! queue.Keys && gone <= UpTo(first, watched) - {watched} + (stored - early))
  }

  lemma WaitsOn(first: Queue, early: set<int>, before: Queue, stored: set<int>, after: Queue, stored': set<int>,
                watched: int, gone: set<int>, k: nat)
    requires watched in first && Waits(first, early, before, stored, watched, gone, k)
    requires Grew(before, stored, after, stored')
    ensures Waits(first, early, after, stored', watched, gone, k)
    ensures watched in after ==> watched in before
  {
    forall id | id in after && id in gone
      ensures id in before
    {
    }
    assert stored - early <= stored' - early;
  }

  /** One turn that delivers: the item due first is gone, and it is due no later than the watched one. */
  lemma WaitsOneLess(first: Queue, early: set<int>, loaded: Queue, stored: set<int>, seen: Queue, after: Queue,
                     stored': set<int>, watched: int, gone: set<int>, k: nat, tried: Option<int>, now: int)
    requires watched in first && Waits(first, early, loaded, stored, watched, gone, k)
    requires Grew(loaded, stored, seen, stored') && first[watched].nextAttempt <= now
    requires tried.None? ==> forall id :: id in seen ==> seen[id].nextAttempt > now
    requires tried.Some? ==> IsNext(seen, tried.value) && tried.value !in after
    requires forall id :: id in seen && tried != Some(id) ==> id in after && after[id] == seen[id]
    requires after.Keys <= stored' && forall id :: id in after && id !in seen ==> id !in stored
    ensures Waits(first, early, after, stored', watched, if tried.Some? then gone + {tried.value} else gone, k + 1)
    ensures watched in after ==> watched in seen && tried.Some? && tried.value != watched
  {
    WaitsOn(first, early, loaded, stored, seen, stored', watched, gone, k);
    if watched in after {
      var id := tried.value;
      assert id in first ==> id in UpTo(first, watched);
      assert gone + {id} <= UpTo(first, watched) - {watched} + (stored' - early);
      assert forall other :: other in after && other in gone ==> other in seen;
    }
  }

  lemma WaitsAtFirst(queue: Queue, stored: set<int>, watched: int)
    requires watched in queue && queue.Keys <= stored
    ensures Waits(queue, stored, queue, stored, watched, {}, 0)
  {
  }

  /** An item still waiting has let that many others pass. */
  lemma WaitedFor(first: Queue, early: set<int>, queue: Queue, stored: set<int>, watched: int, gone: set<int>, k: nat)
    requires watched in first && Waits(first, early, queue, stored, watched, gone, k) && watched in queue
    ensures k < |UpTo(first, watched)| + |stored - early|
  {
    var others := UpTo(first, watched) - {watched};
    SubsetSize(gone, others + (stored - early));
    assert |others| == |UpTo(first, watched)| - 1;
  }

  /** Items are only added. */
  ghost predicate Added(before: Queue, after: Queue, quiet: set<int>, quiet': set<int>) {
    quiet <= quiet' && before.Keys <= after.Keys && forall id :: id in before ==> after[id] == before[id]
  }

  /** Every item added went unannounced. */
  ghost predicate Quiet(before: Queue, after: Queue, quiet: set<int>) {
    forall id :: id in after && id !in before ==> id in quiet
  }

  class DumpDispatcher {
    const interval: int

    var queue: Queue

    /** The one-slot channel. */
    var token: bool

    /** Enqueuers between their store write and their signal. */
    var signalling: nat
    var clock: int

    /** Identifiers are random and taken as never repeating. */
    var nextId: int
    ghost var sleep: Sleep

    /** Items ever stored, items whose send succeeded, and items whose store write reported an error although it stored. */
    ghost var stored: set<int>
    ghost var sent: set<int>
    ghost var unannounced: set<int>

    /** A signal is in the channel or on its way there. */
    ghost predicate WakeComing()
      reads this
    {
      token || signalling > 0
    }

    /** What came into the queue was never stored before. */
    ghost predicate New(before: Queue, stored: set<int>)
      reads this
    {
      forall id :: id in queue && id !in before ==> id !in stored
    }

    /** A sleep from `since` until `until` is not too long for any announced item, unless a wake is coming. */
    ghost predicate Timely(since: int, until: Option<int>)
      reads this
    {
      WakeComing() || forall id :: id in queue && id !in unannounced ==>
        until.Some? && (until.value <= queue[id].nextAttempt || until.value <= since + interval)
    }

    ghost predicate Valid()
      reads this
    {
      && interval > 0
      && (forall id :: id in stored ==> id < nextId)
      && queue.Keys <= stored && stored - queue.Keys <= sent
      && (sleep.Asleep? ==> sleep.since <= clock && Timely(sleep.since, sleep.until))
    }

    constructor (interval: int, clock: int, queue: Queue, nextId: int)
      requires forall id :: id in queue ==> id < nextId
      ensures Valid() && fresh(this) && sleep.Awake? && unannounced == {} && this.queue == queue && !token
      ensures this.clock == clock && signalling == 0 && this.nextId == nextId
      ensures this.interval == if interval <= 0 then SECOND else interval
    {
      this.interval := if interval <= 0 then SECOND else interval;
      this.queue, this.token, this.signalling, this.clock, this.sleep := queue, false, 0, clock, Awake;
      this.nextId, this.stored, this.sent, this.unannounced := nextId, queue.Keys, {}, {};
    }

    // ---- the enqueuers --------------------------------------------------------------------------------

    /** The store write of `enqueue`; a reported error ends it without a signal. */
    method StoreItem(createdAt: int, ending: Ending)
      requires Valid()
      modifies this`queue, this`signalling, this`nextId, this`stored, this`unannounced
      ensures Valid() && nextId == old(nextId) + 1
      ensures queue == if ending.FailsFirst? then old(queue) else old(queue)[old(nextId) := Item(0, createdAt)]
      ensures unannounced == if ending.FailsLate? then old(unannounced) + {old(nextId)} else old(unannounced)
      ensures signalling == if ending.Works? then old(signalling) + 1 else old(signalling)
      ensures stored == if ending.FailsFirst? then old(stored) else old(stored) + {old(nextId)}
    {
      var id := nextId;
      nextId := nextId + 1;
      if ending.FailsFirst? {
        return;
      }
      queue, stored := queue[id := Item(0, createdAt)], stored + {id};
      if ending.FailsLate? {
        unannounced := unannounced + {id};
      } else {
        signalling := signalling + 1;
      }
    }

    /** The non-blocking send on the channel: a full slot is left as it is. */
    method SignalWake()
      requires Valid() && signalling > 0
      modifies this`token, this`signalling
      ensures Valid() && token && signalling == old(signalling) - 1
    {
      if !token {
        token := true;
      }
      signalling := signalling - 1;
    }

    /** Any number of steps of the enqueuers. What they add without an error makes a wake come. */
    method Others()
      requires Valid()
      modifies this`queue, this`token, this`signalling, this`nextId, this`stored, this`unannounced
      ensures Valid() && old(stored) <= stored && Added(old(queue), queue, old(unannounced), unannounced)
      ensures New(old(queue), old(stored))
      ensures (old(token) ==> token) && (old(WakeComing()) ==> WakeComing())
      ensures WakeComing() ==> old(WakeComing()) || stored != old(stored)
      ensures WakeComing() || Quiet(old(queue), queue, unannounced)
    {
      var steps: int := *;
      if steps < 0 {
        return;
      }
      for k := 0 to steps
        invariant Valid() && old(stored) <= stored && Added(old(queue), queue, old(unannounced), unannounced)
        invariant New(old(queue), old(stored))
        invariant (old(token) ==> token) && (old(WakeComing()) ==> WakeComing())
        invariant WakeComing() ==> old(WakeComing()) || stored != old(stored)
        invariant WakeComing() || Quiet(old(queue), queue, unannounced)
      {
        var signal: bool, createdAt: int, ending: Ending := *, *, *;
        if signal && signalling > 0 {
          SignalWake();
        } else {
          assert Valid() ==> forall id :: id in stored ==> id < nextId;
          ghost var id := nextId;
          assert id !in stored;
          StoreItem(createdAt, ending);
        }
      }
    }

    // ---- the dispatcher -------------------------------------------------------------------------------

    /** Arms the timer, or stops it where there is no delay, and goes to sleep. */
    method FallAsleep(delay: Option<int>)
      requires Valid() && sleep.Awake? && (delay.Some? ==> delay.value > 0)
      requires Timely(clock, if delay.Some? then Some(clock + delay.value) else None)
      modifies this`sleep
      ensures Valid() && sleep == Asleep(clock, if delay.Some? then Some(clock + delay.value) else None)
    {
      sleep := Asleep(clock, if delay.Some? then Some(clock + delay.value) else None);
    }

    /**
      Sleeps as told: not at all, until a signal, or until a signal or the deadline; a signal under way
      arrives. Without one it does not wake before the deadline, and no signal comes unless something is stored. It
      sleeps for ever only if every stored item was stored by a write that reported an error.
     */
    method WaitForDumpWake(delay: Option<int>) returns (woken: bool)
      requires Valid() && sleep.Awake? && (delay.Some? ==> delay.value >= 0)
      requires Timely(clock, if delay.Some? then Some(clock + delay.value) else None)
      modifies this
      ensures Valid() && clock >= old(clock) && old(stored) <= stored && sent == old(sent)
      ensures Added(old(queue), queue, old(unannounced), unannounced) && New(old(queue), old(stored))
      ensures woken ==> sleep.Awake?
      ensures woken && !old(WakeComing()) && stored == old(stored) ==> delay.Some? && clock >= old(clock) + delay.value
      ensures !woken ==> delay.None? && !WakeComing() && forall id :: id in queue ==> id in unannounced
    {
      if delay == Some(0) {
        return true;
      }
      var until := if delay.Some? then Some(clock + delay.value) else None;
      FallAsleep(delay);
      Others();
      if !token && signalling > 0 {
        SignalWake();
      }
      var timerFirst: bool := *;
      if token && !(timerFirst && until.Some?) {
        token, sleep := false, Awake;
        return true;
      }
      if until.None? {
        return false;
      }
      if clock < until.value {
        clock := until.value;
      }
      sleep := Awake;
      woken := true;
    }

    /** The item with the least due instant, whatever the instant is. */
    method PeekNextReportDump() returns (id: Option<int>)
      ensures id.None? <==> queue == map[]
      ensures id.Some? ==> IsNext(queue, id.value)
    {
      var rest := queue.Keys;
      id := None;
      while rest != {}
        invariant rest <= queue.Keys && (id.None? ==> rest == queue.Keys)
        invariant id.Some? ==> id.value in queue && forall other :: other in queue && other !in rest ==>
          queue[id.value].nextAttempt <= queue[other].nextAttempt
        decreases rest
      {
        assert !(forall other :: other !in rest) || rest == {};
        var other :| other in rest;
        if id.None? || queue[other].nextAttempt < queue[id.value].nextAttempt {
          id := Some(other);
        }
        rest := rest - {other};
      }
    }

    /** The time until the next item is due, none for an empty outbox, and the interval where looking fails. */
    ghost predicate IsDelay(peeks: bool, delay: Option<int>)
      reads this
    {
      if !peeks then delay == Some(interval)
      else
        && (delay.None? <==> queue == map[])
        && forall id :: IsNext(queue, id) ==>
             delay == Some(if queue[id].nextAttempt < clock then 0 else queue[id].nextAttempt - clock)
    }

    /** How long to sleep, as the store says now: until the next item is due; a failing look retries after the interval. */
    method NextWakeDelay(peeks: bool) returns (delay: Option<int>)
      requires Valid() && sleep.Awake?
      ensures IsDelay(peeks, delay)
      ensures delay.Some? ==> delay.value >= 0
      ensures Timely(clock, if delay.Some? then Some(clock + delay.value) else None)
    {
      if !peeks {
        return Some(interval);
      }
      var id := PeekNextReportDump();
      if id.None? {
        return None;
      }
      var left := queue[id.value].nextAttempt - clock;
      return Some(if left < 0 then 0 else left);
    }

    /**
      Sends one due item. After a send that works it is deleted, after one that fails its next attempt is put off by
      the backoff; either write may fail.
     */
    method Dispatch(id: int, now: int, f: Turning) returns (delay: Option<int>)
      requires Valid() && sleep.Awake? && id in queue && now <= clock
      modifies this
      ensures Valid() && sleep.Awake? && clock == old(clock) + f.took && (delay.Some? ==> delay.value >= 0)
      ensures old(stored) <= stored && old(unannounced) <= unannounced && New(old(queue), old(stored))
      ensures Timely(clock, if delay.Some? then Some(clock + delay.value) else None)
      ensures delay.None? ==> queue == map[]
      ensures f.sends && !f.write.Works? ==> delay == Some(interval)
      ensures !(f.sends && !f.write.Works?) ==> IsDelay(f.peeks, delay)
      ensures sent == if f.sends then old(sent) + {id} else old(sent)
      ensures id in queue <==> !f.sends || f.write.FailsFirst?
      ensures id in queue ==>
        queue[id] == (if f.sends || f.write.FailsFirst? then old(queue)[id]
                      else Item(old(queue)[id].attempts + 1, now + Backoff(old(queue)[id].attempts + 1)))
      ensures forall other :: other in old(queue) && other != id ==> other in queue && queue[other] == old(queue)[other]
    {
      clock := clock + f.took;
      Others();
      if !f.sends {
        if !f.write.FailsFirst? {
          queue := queue[id := Item(queue[id].attempts + 1, now + Backoff(queue[id].attempts + 1))];
        }
        delay := NextWakeDelay(f.peeks);
        return;
      }
      sent := sent + {id};
      if !f.write.FailsFirst? {
        queue := queue - {id};
      }
      if !f.write.Works? {
        return Some(interval);
      }
      delay := NextWakeDelay(f.peeks);
    }

    /** Enqueuers cannot make a sleep too long: what they announce brings a wake. */
    ghost method StillTimely(before: Queue, quiet: set<int>, since: int, until: Option<int>)
      requires Added(before, queue, quiet, unannounced) && (WakeComing() || Quiet(before, queue, unannounced))
      requires WakeComing() || forall id :: id in before && id !in quiet ==>
        until.Some? && (until.value <= before[id].nextAttempt || until.value <= since + interval)
      ensures Timely(since, until)
    {
    }

    /**
      One turn of the loop with a configured client and chat. `seen` is the queue as it was loaded and `tried` the item
      that was due then, if any: the one due first.
     */
    method Turn(f: Turning) returns (delay: Option<int>, ghost seen: Queue, ghost tried: Option<int>)
      requires Valid() && sleep.Awake?
      modifies this
      ensures Valid() && sleep.Awake? && clock >= old(clock) && (delay.Some? ==> delay.value >= 0)
      ensures old(stored) <= stored && New(old(queue), old(stored)) && old(unannounced) <= unannounced
      ensures Timely(clock, if delay.Some? then Some(clock + delay.value) else None)
      ensures forall id :: id in old(queue) ==> id in seen && seen[id] == old(queue)[id]
      ensures forall id :: id in seen && id !in old(queue) ==> id !in old(stored) && id in stored
      ensures tried.None? <==> !f.loads || forall id :: id in seen ==> seen[id].nextAttempt > old(clock)
      ensures tried.Some? ==> IsNext(seen, tried.value) && seen[tried.value].nextAttempt <= old(clock)
      ensures sent == if tried.Some? && f.sends then old(sent) + {tried.value} else old(sent)
      ensures tried.Some? ==>
        && (tried.value in queue <==> !f.sends || f.write.FailsFirst?)
        && (tried.value in queue ==>
              queue[tried.value] == (if f.sends || f.write.FailsFirst? then seen[tried.value]
                                     else Item(seen[tried.value].attempts + 1,
                                               old(clock) + Backoff(seen[tried.value].attempts + 1))))
      ensures forall id :: id in seen && tried != Some(id) ==> id in queue && queue[id] == seen[id]
      ensures !f.loads || (tried.Some? && f.sends && !f.write.Works?) ==> delay == Some(interval)
      ensures delay.None? ==> forall id :: id in seen ==> tried == Some(id)
    {
      Others();
      var now := clock;
      seen, tried := queue, None;
      if !f.loads {
        delay := Some(interval);
      } else {
        var id := PeekNextReportDump();
        if id.Some? && queue[id.value].nextAttempt <= now {
          tried := id;
          delay := Dispatch(id.value, now, f);
        } else {
          delay := NextWakeDelay(f.peeks);
        }
      }
      ghost var before, quiet := queue, unannounced;
      Others();
      StillTimely(before, quiet, clock, if delay.Some? then Some(clock + delay.value) else None);
    }

    /**
      The dispatcher for a number of turns. It stops turning only when nothing but unannounced items is
      stored and no wake is coming; an item leaves the queue only after it was sent. When all turns deliver, an item
      that is due at the start is sent within as many turns as there are items due no later and items that come in.
     */
    method Run(turns: nat, faults: nat -> Turning, ghost watched: int) returns (waiting: bool)
      requires Valid() && sleep.Awake?
      modifies this
      ensures Valid() && old(stored) <= stored
      ensures waiting ==> !WakeComing() && forall id :: id in queue ==> id in unannounced
      ensures forall id :: id in old(queue) && id !in queue ==> id in sent
      ensures watched in old(queue) && old(queue)[watched].nextAttempt <= old(clock) && Smooth(faults, turns) ==>
        watched in sent || turns < |UpTo(old(queue), watched)| + |stored - old(stored)|
    {
      hide Waits, UpTo;
      var delay := Some(0);
      ghost var smooth := Smooth(faults, turns) && watched in queue && queue[watched].nextAttempt <= clock;
      ghost var gone: set<int> := {};
      if smooth {
        WaitsAtFirst(queue, stored, watched);
      }
      for k := 0 to turns
        invariant Valid() && sleep.Awake? && old(stored) <= stored && (delay.Some? ==> delay.value >= 0)
        invariant Timely(clock, if delay.Some? then Some(clock + delay.value) else None)
        invariant clock >= old(clock)
        invariant smooth ==> Waits(old(queue), old(stored), queue, stored, watched, gone, k)
        invariant smooth && delay.None? ==> watched !in queue
      {
        ghost var before, stored0 := queue, stored;
        var woken := WaitForDumpWake(delay);
        if smooth {
          WaitsOn(old(queue), old(stored), before, stored0, queue, stored, watched, gone, k);
        }
        if !woken {
          return true;
        }
        ghost var loaded, stored1, now := queue, stored, clock;
        assert forall id :: id in loaded ==> id in stored1;
        ghost var seen, tried;
        delay, seen, tried := Turn(faults(k));
        assert forall id :: id in seen ==> id in stored;
        if smooth {
          WaitsOneLess(old(queue), old(stored), loaded, stored1, seen, queue, stored, watched, gone, k, tried, now);
          gone := if tried.Some? then gone + {tried.value} else gone;
        }
      }
      if smooth && watched in queue {
        WaitedFor(old(queue), old(stored), queue, stored, watched, gone, turns);
      }
      waiting := false;
    }

    /**
      Writes that reach a dispatcher asleep with no deadline and no wake coming. A wake comes if and only if one of
      them succeeds, so an item among them waits for ever exactly when it was stored by a write that reported
      an error and no other one succeeded.
     */
    method StoreWhileAsleep(createdAt: int, endings: seq<Ending>)
      requires Valid() && sleep.Asleep? && sleep.until.None? && !WakeComing()
      modifies this`queue, this`signalling, this`nextId, this`stored, this`unannounced
      ensures Valid() && nextId == old(nextId) + |endings|
      ensures WakeComing() <==> Works in endings
      ensures forall k :: 0 <= k < |endings| ==> (old(nextId) + k in queue <==> endings[k] != FailsFirst)
      ensures forall k :: 0 <= k < |endings| ==>
        (old(nextId) + k in queue && !WakeComing() <==> endings[k].FailsLate? && Works !in endings)
    {
      for n := 0 to |endings|
        invariant Valid() && nextId == old(nextId) + n
        invariant signalling > 0 <==> Works in endings[..n]
        invariant forall k :: 0 <= k < n ==> (old(nextId) + k in queue <==> endings[k] != FailsFirst)
      {
        assert endings[..n + 1] == endings[..n] + [endings[n]];
        StoreItem(createdAt, endings[n]);
      }
      assert endings[..|endings|] == endings;
    }

    /**
      The one gap: with an empty outbox the dispatcher goes to sleep with no deadline, and a write that stores its
      item and still reports an error leaves it there.
     */
    method LateFailureStrands(createdAt: int)
      requires Valid() && sleep.Awake? && queue == map[] && !WakeComing()
      modifies this
      ensures Valid() && sleep == Asleep(clock, None) && !WakeComing()
      ensures queue == map[old(nextId) := Item(0, createdAt)]
    {
      var delay := NextWakeDelay(true);
      FallAsleep(delay);
      StoreItem(createdAt, FailsLate);
    }
  }
}
