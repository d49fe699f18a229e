/** Disk-space accounting of the qBittorrent housekeeper: which bytes a torrent list commits to. */
module HousekeeperCapacity {
  import opened Sums

  /** The four policy tags are pairwise distinct, which the policy validation guarantees. */
  datatype Tag = Admitted | Waiting | Rejected | Keep | Other(name: string)

  /**
    One entry of the torrent list. `hash` is the rank of the torrent's hash in string order;
    `inside`, `pastRetention` and `evictable` carry the verdicts of the path checks, of the retention checks
    and of the accounting-metadata checks but for the run state; their clocks and ratios are not modelled.
   */
  datatype Torrent = Torrent(
    hash: int, size: int64, completed: int64, state: string, tags: set<Tag>,
    inside: bool, addedOn: int, completionOn: int, pastRetention: bool, evictable: bool)

  predicate Held(t: Torrent) {
    Admitted in t.tags && Rejected !in t.tags
  }

  function Materialized(t: Torrent): (r: int)
    ensures 0 <= r <= Max0(t.size)
  {
    if t.completed <= 0 || t.size <= 0 then 0
    else if t.completed > t.size then t.size
    else t.completed
  }

  const NO_CANDIDATE: int := -1

  /** Torrent `i` takes part in the reservation of `cand` once the torrents `out` are evicted. */
  predicate Counted(ts: seq<Torrent>, i: nat, cand: int, out: set<nat>)
    requires i < |ts|
  {
    i == cand || (Held(ts[i]) && i !in out)
  }

  function ReserveTerm(ts: seq<Torrent>, i: nat, cand: int, out: set<nat>): (r: int)
    requires i < |ts|
    ensures 0 <= r
  {
    if Counted(ts, i, cand, out) then Max0(ts[i].size) else 0
  }

  function DiskTerm(ts: seq<Torrent>, i: nat, cand: int, out: set<nat>): (r: int)
    requires i < |ts|
    ensures 0 <= r <= ReserveTerm(ts, i, cand, out)
  {
    if Counted(ts, i, cand, out) then Materialized(ts[i]) else 0
  }

  function ReclaimTerm(ts: seq<Torrent>, i: nat, out: set<nat>): (r: int)
    requires i < |ts|
    ensures 0 <= r
  {
    if i in out then Materialized(ts[i]) else 0
  }

  /** Reserved bytes of the first `n` torrents. */
  function Reserved(ts: seq<Torrent>, cand: int, out: set<nat>, n: nat): int
    requires n <= |ts|
  {
    if n == 0 then 0 else Reserved(ts, cand, out, n - 1) + ReserveTerm(ts, n - 1, cand, out)
  }

  /** Bytes of the first `n` counted torrents that are already on disk. */
  function OnDisk(ts: seq<Torrent>, cand: int, out: set<nat>, n: nat): int
    requires n <= |ts|
  {
    if n == 0 then 0 else OnDisk(ts, cand, out, n - 1) + DiskTerm(ts, n - 1, cand, out)
  }

  /** Bytes the evictions among the first `n` torrents give back. */
  function Reclaimed(ts: seq<Torrent>, out: set<nat>, n: nat): int
    requires n <= |ts|
  {
    if n == 0 then 0 else Reclaimed(ts, out, n - 1) + ReclaimTerm(ts, n - 1, out)
  }

  /** Bytes that are, or may become, used: untracked usage after the evictions plus all reservations. */
  function Committed(ts: seq<Torrent>, cand: int, out: set<nat>, used: int): int {
    Max0(Max0(used - Reclaimed(ts, out, |ts|)) - OnDisk(ts, cand, out, |ts|)) + Reserved(ts, cand, out, |ts|)
  }

  function Holdings(ts: seq<Torrent>, used: int): int {
    Committed(ts, NO_CANDIDATE, {}, used)
  }

  /** The int64 accounting saturates, so the top cap value admits everything. */
  predicate Fits(ts: seq<Torrent>, cand: int, out: set<nat>, used: int, cap: int) {
    cap == MAX_INT64 || Committed(ts, cand, out, used) <= cap
  }

  lemma {:induction false} TotalsBounds(ts: seq<Torrent>, cand: int, out: set<nat>, n: nat)
    requires n <= |ts|
    ensures 0 <= OnDisk(ts, cand, out, n) <= Reserved(ts, cand, out, n)
    ensures 0 <= Reclaimed(ts, out, n)
    ensures out == {} ==> Reclaimed(ts, out, n) == 0
  {
    if n > 0 {
      TotalsBounds(ts, cand, out, n - 1);
    }
  }

  /** Clipping at zero twice loses nothing: only the total of tracked bytes matters. */
  lemma CommittedClosedForm(ts: seq<Torrent>, cand: int, out: set<nat>, used: int)
    ensures Committed(ts, cand, out, used)
         == Max0(used - Reclaimed(ts, out, |ts|) - OnDisk(ts, cand, out, |ts|)) + Reserved(ts, cand, out, |ts|)
  {
    TotalsBounds(ts, cand, out, |ts|);
  }

  lemma {:induction false} TotalsMonotone(ts: seq<Torrent>, cand: int, small: set<nat>, big: set<nat>, n: nat)
    requires n <= |ts| && small <= big
    ensures Reserved(ts, cand, big, n) <= Reserved(ts, cand, small, n)
    ensures Reclaimed(ts, small, n) + OnDisk(ts, cand, small, n) <= Reclaimed(ts, big, n) + OnDisk(ts, cand, big, n)
  {
    if n > 0 {
      TotalsMonotone(ts, cand, small, big, n - 1);
    }
  }

  /** Evicting more never makes a candidate stop fitting. */
  lemma FitsMonotoneInEvictions(ts: seq<Torrent>, cand: int, small: set<nat>, big: set<nat>, used: int, cap: int)
    requires small <= big
    requires Fits(ts, cand, small, used, cap)
    ensures Fits(ts, cand, big, used, cap)
  {
    CommittedClosedForm(ts, cand, small, used);
    CommittedClosedForm(ts, cand, big, used);
    TotalsMonotone(ts, cand, small, big, |ts|);
  }

  // ---- the prediction and the poll after the evictions agree --------------------------------

  /** The torrents left of the first `n` once those in `out` are gone, in list order. */
  function Remaining(ts: seq<Torrent>, out: set<nat>, n: nat): seq<Torrent>
    requires n <= |ts|
  {
    if n == 0 then []
    else if n - 1 in out then Remaining(ts, out, n - 1)
    else Remaining(ts, out, n - 1) + [ts[n - 1]]
  }

  lemma {:induction false} TotalsIgnoreSuffix(ts: seq<Torrent>, t: Torrent, n: nat)
    requires n <= |ts|
    ensures Reserved(ts + [t], NO_CANDIDATE, {}, n) == Reserved(ts, NO_CANDIDATE, {}, n)
    ensures OnDisk(ts + [t], NO_CANDIDATE, {}, n) == OnDisk(ts, NO_CANDIDATE, {}, n)
  {
    if n > 0 {
      TotalsIgnoreSuffix(ts, t, n - 1);
    }
  }

  lemma {:induction false} RemainingTotals(ts: seq<Torrent>, out: set<nat>, n: nat)
    requires n <= |ts|
    ensures var rest := Remaining(ts, out, n);
            && Reserved(rest, NO_CANDIDATE, {}, |rest|) == Reserved(ts, NO_CANDIDATE, out, n)
            && OnDisk(rest, NO_CANDIDATE, {}, |rest|) == OnDisk(ts, NO_CANDIDATE, out, n)
  {
    if n > 0 {
      RemainingTotals(ts, out, n - 1);
      if n - 1 !in out {
        var head := Remaining(ts, out, n - 1);
        TotalsIgnoreSuffix(head, ts[n - 1], |head|);
      }
    }
  }

  lemma {:induction false} RemainingAt(ts: seq<Torrent>, out: set<nat>, cand: nat, n: nat)
    requires cand < n <= |ts| && cand !in out
    ensures |Remaining(ts, out, cand)| < |Remaining(ts, out, n)|
    ensures Remaining(ts, out, n)[|Remaining(ts, out, cand)|] == ts[cand]
  {
    if cand < n - 1 {
      RemainingAt(ts, out, cand, n - 1);
    }
  }

  /** A candidate that is not held adds exactly its own term. */
  lemma {:induction false} CandidateTerm(ts: seq<Torrent>, cand: nat, out: set<nat>, n: nat)
    requires cand < |ts| && n <= |ts| && !Held(ts[cand])
    ensures Reserved(ts, cand, out, n)
         == Reserved(ts, NO_CANDIDATE, out, n) + (if cand < n then Max0(ts[cand].size) else 0)
    ensures OnDisk(ts, cand, out, n)
         == OnDisk(ts, NO_CANDIDATE, out, n) + (if cand < n then Materialized(ts[cand]) else 0)
  {
    if n > 0 {
      CandidateTerm(ts, cand, out, n - 1);
    }
  }

  /**
    Predicting that a waiting candidate fits after evicting `out` is the same verdict as the next
    poll's plain check on the surviving list at the predicted usage.
   */
  lemma PredictionMatchesNextPoll(ts: seq<Torrent>, cand: nat, out: set<nat>, used: int, cap: int)
    requires cand < |ts| && cand !in out && !Held(ts[cand])
    ensures Fits(ts, cand, out, used, cap)
       <==> Fits(Remaining(ts, out, |ts|), |Remaining(ts, out, cand)|, {},
                 Max0(used - Reclaimed(ts, out, |ts|)), cap)
  {
    var rest, at := Remaining(ts, out, |ts|), |Remaining(ts, out, cand)|;
    RemainingAt(ts, out, cand, |ts|);
    RemainingTotals(ts, out, |ts|);
    CandidateTerm(ts, cand, out, |ts|);
    CandidateTerm(rest, at, {}, |rest|);
    TotalsBounds(rest, at, {}, |rest|);
  }

  // ---- capacity safety over runs -------------------------------------------------------------

  /** Usage itself never exceeds what is committed. */
  lemma UsedAtMostHoldings(ts: seq<Torrent>, used: int)
    ensures used <= Holdings(ts, used)
  {
    CommittedClosedForm(ts, NO_CANDIDATE, {}, used);
    TotalsBounds(ts, NO_CANDIDATE, {}, |ts|);
  }

  /** Things that happen to the disk between and during polls, apart from untracked growth. */
  datatype DiskStep =
    | Download(i: nat, bytes: nat)
    | Reserve(i: nat)
    | Settle(i: nat, state: string, waiting: bool)
    | Reject(i: nat)
    | Evict(i: nat, freed: nat)

  datatype Disk = Disk(ts: seq<Torrent>, used: int)

  /**
    A download stays inside a held torrent's size; a reservation is made only when the candidate
    fits; an eviction frees at least the torrent's materialized bytes.
   */
  predicate Enabled(d: Disk, s: DiskStep, cap: int) {
    s.i < |d.ts| &&
    match s
    case Download(i, bytes) =>
      Held(d.ts[i]) && 0 <= d.ts[i].completed && d.ts[i].completed + bytes <= d.ts[i].size
    case Reserve(i) => Rejected !in d.ts[i].tags && Committed(d.ts, i, {}, d.used) <= cap
    case Settle(i, _, _) => true
    case Reject(i) => true
    case Evict(i, freed) => Materialized(d.ts[i]) <= freed
  }

  function WithTag(t: Torrent, tag: Tag, present: bool): Torrent {
    t.(tags := if present then t.tags + {tag} else t.tags - {tag})
  }

  function NewTorrent(t: Torrent, s: DiskStep): Torrent
    requires s.Download? ==> t.completed + s.bytes <= MAX_INT64
  {
    match s
    case Download(_, bytes) => t.(completed := t.completed + bytes)
    case Reserve(_) => WithTag(t, Admitted, true)
    case Settle(_, state, waiting) => WithTag(t.(state := state), Waiting, waiting)
    case Reject(_) => WithTag(t, Rejected, true)
    case Evict(_, _) => WithTag(t, Admitted, false)
  }

  function NewUsage(used: int, s: DiskStep): int {
    match s
    case Download(_, bytes) => used + bytes
    case Evict(_, freed) => used - freed
    case _ => used
  }

  function After(d: Disk, s: DiskStep, cap: int): Disk
    requires Enabled(d, s, cap)
  {
    Disk(d.ts[s.i := NewTorrent(d.ts[s.i], s)], NewUsage(d.used, s))
  }

  predicate ValidRun(d: Disk, steps: seq<DiskStep>, cap: int)
    decreases |steps|
  {
    steps == [] || (Enabled(d, steps[0], cap) && ValidRun(After(d, steps[0], cap), steps[1..], cap))
  }

  function RunEnd(d: Disk, steps: seq<DiskStep>, cap: int): Disk
    requires ValidRun(d, steps, cap)
    decreases |steps|
  {
    if steps == [] then d else RunEnd(After(d, steps[0], cap), steps[1..], cap)
  }

  lemma {:induction false} OneTermChange(ts: seq<Torrent>, i: nat, u: Torrent, n: nat)
    requires i < |ts| && n <= |ts|
    ensures Reserved(ts[i := u], NO_CANDIDATE, {}, n) == Reserved(ts, NO_CANDIDATE, {}, n)
              + if i < n then ReserveTerm([u], 0, NO_CANDIDATE, {}) - ReserveTerm(ts, i, NO_CANDIDATE, {}) else 0
    ensures OnDisk(ts[i := u], NO_CANDIDATE, {}, n) == OnDisk(ts, NO_CANDIDATE, {}, n)
              + if i < n then DiskTerm([u], 0, NO_CANDIDATE, {}) - DiskTerm(ts, i, NO_CANDIDATE, {}) else 0
  {
    if n > 0 {
      OneTermChange(ts, i, u, n - 1);
    }
  }

  /** Commitment as untracked plus reserved bytes, before and after one torrent is replaced. */
  lemma HoldingsUpdate(ts: seq<Torrent>, i: nat, u: Torrent, used: int, used': int)
    returns (disk: int, reserved: int)
    requires i < |ts|
    ensures Holdings(ts, used) == Max0(used - disk) + reserved
    ensures Holdings(ts[i := u], used')
         == Max0(used' - disk + DiskTerm(ts, i, NO_CANDIDATE, {}) - DiskTerm([u], 0, NO_CANDIDATE, {}))
            + reserved - ReserveTerm(ts, i, NO_CANDIDATE, {}) + ReserveTerm([u], 0, NO_CANDIDATE, {})
    ensures !Held(ts[i]) ==>
              Committed(ts, i, {}, used) == Max0(used - disk - Materialized(ts[i])) + reserved + Max0(ts[i].size)
  {
    disk, reserved := OnDisk(ts, NO_CANDIDATE, {}, |ts|), Reserved(ts, NO_CANDIDATE, {}, |ts|);
    TotalsBounds(ts, NO_CANDIDATE, {}, |ts|);
    TotalsBounds(ts[i := u], NO_CANDIDATE, {}, |ts|);
    OneTermChange(ts, i, u, |ts|);
    if !Held(ts[i]) {
      CandidateTerm(ts, i, {}, |ts|);
      CommittedClosedForm(ts, i, {}, used);
    }
  }

  /** What one step does to the torrent it touches. */
  lemma StepOnTorrent(d: Disk, s: DiskStep, cap: int)
    requires Enabled(d, s, cap)
    ensures var t, u := d.ts[s.i], NewTorrent(d.ts[s.i], s);
            && u.size == t.size
            && (s.Download? ==> Held(t) && Held(u) && Materialized(u) == Materialized(t) + s.bytes)
            && (!s.Download? ==> Materialized(u) == Materialized(t))
            && (s.Reserve? ==> Held(u))
            && (s.Settle? ==> Held(u) == Held(t))
            && (s.Reject? || s.Evict? ==> !Held(u))
  {
  }

  lemma StepKeepsCapacity(d: Disk, s: DiskStep, cap: int)
    requires Enabled(d, s, cap) && Holdings(d.ts, d.used) <= cap
    ensures Holdings(After(d, s, cap).ts, After(d, s, cap).used) <= cap
  {
    StepOnTorrent(d, s, cap);
    var disk, reserved := HoldingsUpdate(d.ts, s.i, NewTorrent(d.ts[s.i], s), d.used, NewUsage(d.used, s));
  }

  /** Once the commitment fits under the cap, no run of downloads and engine actions exceeds it. */
  lemma {:induction false} CapacitySafety(d: Disk, steps: seq<DiskStep>, cap: int)
    requires ValidRun(d, steps, cap) && Holdings(d.ts, d.used) <= cap
    ensures RunEnd(d, steps, cap).used <= Holdings(RunEnd(d, steps, cap).ts, RunEnd(d, steps, cap).used) <= cap
    decreases |steps|
  {
    if steps == [] {
      UsedAtMostHoldings(d.ts, d.used);
    } else {
      StepKeepsCapacity(d, steps[0], cap);
      CapacitySafety(After(d, steps[0], cap), steps[1..], cap);
    }
  }

  lemma {:induction false} GrowthTerm(ts: seq<Torrent>, i: nat, u: Torrent, cand: nat, n: nat)
    requires i < |ts| && n <= |ts| && i != cand && Held(ts[i]) && Held(u) && u.size == ts[i].size
    ensures Reserved(ts[i := u], cand, {}, n) == Reserved(ts, cand, {}, n)
    ensures OnDisk(ts[i := u], cand, {}, n)
         == OnDisk(ts, cand, {}, n) + (if i < n then Materialized(u) - Materialized(ts[i]) else 0)
  {
    if n > 0 {
      GrowthTerm(ts, i, u, cand, n - 1);
    }
  }

  /**
    Downloads that go on after the poll took its snapshot do not invalidate the admission check:
    the stale figures give the same commitment as the current ones.
   */
  lemma StaleSnapshotStaysExact(d: Disk, i: nat, bytes: nat, cand: nat, cap: int)
    requires Enabled(d, Download(i, bytes), cap) && cand < |d.ts| && cand != i
    ensures var e := After(d, Download(i, bytes), cap);
            Committed(e.ts, cand, {}, e.used) == Committed(d.ts, cand, {}, d.used)
  {
    var e := After(d, Download(i, bytes), cap);
    GrowthTerm(d.ts, i, e.ts[i], cand, |d.ts|);
    TotalsBounds(d.ts, cand, {}, |d.ts|);
    TotalsBounds(e.ts, cand, {}, |d.ts|);
  }
}
