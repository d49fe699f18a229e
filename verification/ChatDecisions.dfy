/** Validation and merging of the batch decisions a language model returns for chat messages. */
module ChatDecisions {
  import opened Series

  /**
    A report or a vote. `content` stands for its action, target and confidence, which neither
    validation nor merging looks at.
   */
  datatype Entry = Entry(content: string, reason: string, sources: seq<int>)

  datatype Ignore = Ignore(id: int, reason: string)

  datatype Decision = Decision(reports: seq<Entry>, votes: seq<Entry>, ignored: seq<Ignore>)

  // ---- sequences without repetition -------------------------------------------------------------

  predicate NoRepeats(s: seq<int>) {
    forall i, j :: 0 <= i < j < |s| ==> s[i] != s[j]
  }

  predicate Disjoint(a: seq<int>, b: seq<int>) {
    forall x :: x in b ==> x !in a
  }

  lemma NoRepeatsConcat(a: seq<int>, b: seq<int>)
    ensures NoRepeats(a + b) <==> NoRepeats(a) && NoRepeats(b) && Disjoint(a, b)
  {
    var c := a + b;
    if NoRepeats(c) {
      assert NoRepeats(a) by {
        assert forall i :: 0 <= i < |a| ==> a[i] == c[i];
      }
      assert NoRepeats(b) by {
        assert forall j :: 0 <= j < |b| ==> b[j] == c[|a| + j];
      }
      forall x | x in b
        ensures x !in a
      {
        var j :| 0 <= j < |b| && b[j] == x;
        forall i | 0 <= i < |a|
          ensures a[i] != x
        {
          assert c[i] != c[|a| + j];
        }
      }
    } else if NoRepeats(a) && NoRepeats(b) && Disjoint(a, b) {
      forall i, j | 0 <= i < j < |c|
        ensures c[i] != c[j]
      {
        if i < |a| <= j {
          assert b[j - |a|] in b;
        }
      }
    }
  }

  /** `s` claims messages of the batch, none twice and none that is already claimed. */
  predicate Clean(batch: set<int>, claimed: set<int>, s: seq<int>) {
    NoRepeats(s) && forall x :: x in s ==> x in batch && x !in claimed
  }

  lemma CleanConcat(batch: set<int>, claimed: set<int>, a: seq<int>, b: seq<int>)
    ensures Clean(batch, claimed, a + b) <==> Clean(batch, claimed, a) && Clean(batch, claimed + Elements(a), b)
    ensures Elements(a + b) == Elements(a) + Elements(b)
  {
    NoRepeatsConcat(a, b);
    assert forall x :: x in a + b <==> x in a || x in b;
  }

  lemma CleanMembers(batch: set<int>, claimed: set<int>, s: seq<int>)
    requires Clean(batch, claimed, s)
    ensures Elements(s) <= batch - claimed
  {
    forall x | x in Elements(s)
      ensures x in batch - claimed
    {
      assert x in s;
    }
  }

  // ---- which messages a decision claims ---------------------------------------------------------

  function Flat(entries: seq<Entry>): seq<int> {
    if entries == [] then [] else Flat(entries[..|entries| - 1]) + entries[|entries| - 1].sources
  }

  function Ids(ignored: seq<Ignore>): seq<int> {
    if ignored == [] then [] else Ids(ignored[..|ignored| - 1]) + [ignored[|ignored| - 1].id]
  }

  function Claims(d: Decision): seq<int> {
    Flat(d.reports) + Flat(d.votes) + Ids(d.ignored)
  }

  predicate AllHaveSources(entries: seq<Entry>) {
    forall k :: 0 <= k < |entries| ==> entries[k].sources != []
  }

  /** Every message is decided by at most one entry, and no entry speaks of anything outside the batch. */
  predicate ValidSources(items: seq<int>, d: Decision) {
    NoRepeats(items) && AllHaveSources(d.reports) && AllHaveSources(d.votes) &&
    Clean(Elements(items), {}, Claims(d))
  }

  lemma Rejoin<T>(s: seq<T>, n: nat)
    requires n <= |s|
    ensures s[..n] + s[n..] == s
  {
  }

  lemma Associative<T>(a: seq<T>, b: seq<T>, c: seq<T>)
    ensures (a + b) + c == a + (b + c)
  {
  }

  lemma {:induction false} FlatConcat(a: seq<Entry>, b: seq<Entry>)
    ensures Flat(a + b) == Flat(a) + Flat(b)
  {
    if b == [] {
      assert a + b == a;
    } else {
      var front := b[..|b| - 1];
      FlatConcat(a, front);
      assert (a + b)[..|a + b| - 1] == a + front;
      Associative(Flat(a), Flat(front), b[|b| - 1].sources);
    }
  }

  lemma {:induction false} IdsConcat(a: seq<Ignore>, b: seq<Ignore>)
    ensures Ids(a + b) == Ids(a) + Ids(b)
  {
    if b == [] {
      assert a + b == a;
    } else {
      var front := b[..|b| - 1];
      IdsConcat(a, front);
      assert (a + b)[..|a + b| - 1] == a + front;
      Associative(Ids(a), Ids(front), [b[|b| - 1].id]);
    }
  }

  lemma FlatOfPrefix(entries: seq<Entry>, n: nat)
    requires n <= |entries|
    ensures Flat(entries) == Flat(entries[..n]) + Flat(entries[n..])
  {
    Rejoin(entries, n);
    FlatConcat(entries[..n], entries[n..]);
  }

  lemma FlatSplit(entries: seq<Entry>, k: nat)
    requires k < |entries|
    ensures Flat(entries[..k + 1]) == Flat(entries[..k]) + entries[k].sources
    ensures Flat(entries) == Flat(entries[..k + 1]) + Flat(entries[k + 1..])
  {
    var prefix := entries[..k + 1];
    assert prefix[..|prefix| - 1] == entries[..k];
    assert prefix != [] && prefix[|prefix| - 1] == entries[k];
    FlatOfPrefix(entries, k + 1);
  }

  lemma FlatAppend(entries: seq<Entry>, e: Entry)
    ensures Flat(entries + [e]) == Flat(entries) + e.sources
    ensures Elements(Flat(entries + [e])) == Elements(Flat(entries)) + Elements(e.sources)
  {
    assert (entries + [e])[..|entries|] == entries;
  }

  lemma IdsOfPrefix(ignored: seq<Ignore>, n: nat)
    requires n <= |ignored|
    ensures Ids(ignored) == Ids(ignored[..n]) + Ids(ignored[n..])
  {
    Rejoin(ignored, n);
    IdsConcat(ignored[..n], ignored[n..]);
  }

  lemma IdsSplit(ignored: seq<Ignore>, k: nat)
    requires k < |ignored|
    ensures Ids(ignored[..k + 1]) == Ids(ignored[..k]) + [ignored[k].id]
    ensures Ids(ignored) == Ids(ignored[..k + 1]) + Ids(ignored[k + 1..])
  {
    var prefix := ignored[..k + 1];
    assert prefix[..|prefix| - 1] == ignored[..k];
    assert prefix != [] && prefix[|prefix| - 1] == ignored[k];
    IdsOfPrefix(ignored, k + 1);
  }

  // ---- the validator ------------------------------------------------------------------------------

  /** Claims one message; refuses a foreign or already claimed one. */
  method ClaimOne(batch: set<int>, claimed: set<int>, id: int) returns (ok: bool, claimed': set<int>)
    ensures ok <==> Clean(batch, claimed, [id])
    ensures ok ==> claimed' == claimed + Elements([id])
  {
    if id !in batch {
      return false, claimed;
    }
    if id in claimed {
      return false, claimed;
    }
    return true, claimed + {id};
  }

  method ClaimSources(batch: set<int>, claimed: set<int>, sources: seq<int>) returns (ok: bool, claimed': set<int>)
    ensures ok <==> Clean(batch, claimed, sources)
    ensures ok ==> claimed' == claimed + Elements(sources)
  {
    claimed' := claimed;
    for j := 0 to |sources|
      invariant Clean(batch, claimed, sources[..j]) && claimed' == claimed + Elements(sources[..j])
    {
      assert sources[..j + 1] == sources[..j] + [sources[j]];
      assert sources == sources[..j + 1] + sources[j + 1..];
      CleanConcat(batch, claimed, sources[..j], [sources[j]]);
      CleanConcat(batch, claimed, sources[..j + 1], sources[j + 1..]);
      ok, claimed' := ClaimOne(batch, claimed', sources[j]);
      if !ok {
        return;
      }
    }
    assert sources[..|sources|] == sources;
    ok := true;
  }

  lemma NothingClaimed(batch: set<int>, claimed: set<int>)
    ensures Clean(batch, claimed, Flat([])) && claimed == claimed + Elements(Flat([]))
  {
  }

  /** Once the first `k` entries are claimed, the next one decides how it goes on. */
  lemma ClaimsOfNext(batch: set<int>, claimed: set<int>, entries: seq<Entry>, k: nat)
    requires k < |entries| && Clean(batch, claimed, Flat(entries[..k]))
    ensures var now := claimed + Elements(Flat(entries[..k]));
            && (Clean(batch, claimed, Flat(entries[..k + 1])) <==> Clean(batch, now, entries[k].sources))
            && (Clean(batch, claimed, Flat(entries)) ==> Clean(batch, now, entries[k].sources))
            && claimed + Elements(Flat(entries[..k + 1])) == now + Elements(entries[k].sources)
  {
    hide Clean, Flat, Elements;
    FlatSplit(entries, k);
    CleanConcat(batch, claimed, Flat(entries[..k]), entries[k].sources);
    CleanConcat(batch, claimed, Flat(entries[..k + 1]), Flat(entries[k + 1..]));
  }

  method ClaimEntries(batch: set<int>, claimed: set<int>, entries: seq<Entry>) returns (ok: bool, claimed': set<int>)
    ensures ok <==> AllHaveSources(entries) && Clean(batch, claimed, Flat(entries))
    ensures ok ==> claimed' == claimed + Elements(Flat(entries))
  {
    hide Clean, Flat, Elements;
    NothingClaimed(batch, claimed);
    claimed' := claimed;
    for k := 0 to |entries|
      invariant AllHaveSources(entries[..k])
      invariant Clean(batch, claimed, Flat(entries[..k])) && claimed' == claimed + Elements(Flat(entries[..k]))
    {
      if entries[k].sources == [] {
        return false, claimed';
      }
      ClaimsOfNext(batch, claimed, entries, k);
      ok, claimed' := ClaimSources(batch, claimed', entries[k].sources);
      if !ok {
        return;
      }
    }
    assert entries[..|entries|] == entries;
    ok := true;
  }

  method ClaimIgnored(batch: set<int>, claimed: set<int>, ignored: seq<Ignore>) returns (ok: bool)
    ensures ok <==> Clean(batch, claimed, Ids(ignored))
  {
    var seen := claimed;
    for k := 0 to |ignored|
      invariant Clean(batch, claimed, Ids(ignored[..k])) && seen == claimed + Elements(Ids(ignored[..k]))
    {
      IdsSplit(ignored, k);
      CleanConcat(batch, claimed, Ids(ignored[..k]), [ignored[k].id]);
      CleanConcat(batch, claimed, Ids(ignored[..k + 1]), Ids(ignored[k + 1..]));
      ok, seen := ClaimOne(batch, seen, ignored[k].id);
      if !ok {
        return;
      }
    }
    assert ignored[..|ignored|] == ignored;
    ok := true;
  }

  method CollectBatch(items: seq<int>) returns (ok: bool, batch: set<int>)
    ensures ok <==> NoRepeats(items)
    ensures ok ==> batch == Elements(items)
  {
    batch := {};
    for k := 0 to |items|
      invariant NoRepeats(items[..k]) && batch == Elements(items[..k])
    {
      assert items[..k + 1] == items[..k] + [items[k]];
      assert items == items[..k + 1] + items[k + 1..];
      NoRepeatsConcat(items[..k], [items[k]]);
      NoRepeatsConcat(items[..k + 1], items[k + 1..]);
      if items[k] in batch {
        return false, batch;
      }
      batch := batch + {items[k]};
    }
    assert items[..|items|] == items;
    ok := true;
  }

  /** The validator accepts exactly the decisions whose sources are valid for the batch. */
  method ValidateUniqueBatchDecisionSources(items: seq<int>, d: Decision) returns (ok: bool)
    ensures ok <==> ValidSources(items, d)
  {
    var batch, claimed;
    ok, batch := CollectBatch(items);
    if !ok {
      return;
    }
    CleanConcat(batch, {}, Flat(d.reports), Flat(d.votes));
    CleanConcat(batch, {}, Flat(d.reports) + Flat(d.votes), Ids(d.ignored));
    ok, claimed := ClaimEntries(batch, {}, d.reports);
    if !ok {
      return;
    }
    ok, claimed := ClaimEntries(batch, claimed, d.votes);
    if !ok {
      return;
    }
    ok := ClaimIgnored(batch, claimed, d.ignored);
  }

  // ---- merging a second, location-reasoning decision ------------------------------------------------

  /** The recheck messages among `ids`, each once, in order of first appearance. */
  function OnlyRecheck(ids: seq<int>, recheck: set<int>): (r: seq<int>)
    ensures NoRepeats(r)
    ensures forall x :: x in r <==> x in ids && x in recheck
  {
    if ids == [] then []
    else
      var head, last := OnlyRecheck(ids[..|ids| - 1], recheck), ids[|ids| - 1];
      if last in recheck && last !in head then head + [last] else head
  }

  /** Where `x` first appears. */
  function FirstIndex(ids: seq<int>, x: int): (k: nat)
    requires x in ids
    ensures k < |ids| && ids[k] == x && x !in ids[..k]
  {
    var n := |ids| - 1;
    if x in ids[..n] then
      assert ids[..n][..FirstIndex(ids[..n], x)] == ids[..FirstIndex(ids[..n], x)];
      FirstIndex(ids[..n], x)
    else n
  }

  lemma FirstStays(ids: seq<int>, x: int)
    requires ids != [] && x in ids[..|ids| - 1]
    ensures x in ids && FirstIndex(ids, x) == FirstIndex(ids[..|ids| - 1], x) < |ids| - 1
  {
  }

  /** What is kept is kept in order of first appearance. */
  lemma {:induction false} KeptInOrder(ids: seq<int>, recheck: set<int>, i: nat, j: nat)
    requires i < j < |OnlyRecheck(ids, recheck)|
    ensures var r := OnlyRecheck(ids, recheck);
            r[i] in ids && r[j] in ids && FirstIndex(ids, r[i]) < FirstIndex(ids, r[j])
  {
    var n := |ids| - 1;
    var r, head := OnlyRecheck(ids, recheck), OnlyRecheck(ids[..n], recheck);
    assert r[i] == head[i] && head[i] in head;
    FirstStays(ids, head[i]);
    if j < |head| {
      KeptInOrder(ids[..n], recheck, i, j);
      assert r[j] == head[j] && head[j] in head;
      FirstStays(ids, head[j]);
    } else {
      assert r[j] == ids[n] && ids[n] in ids && ids[n] !in ids[..n];
      assert FirstIndex(ids, ids[n]) == n;
    }
  }

  method OnlyRecheckSourceIds(ids: seq<int>, recheck: set<int>) returns (kept: seq<int>)
    ensures kept == OnlyRecheck(ids, recheck)
  {
    kept := [];
    var seen: set<int> := {};
    for j := 0 to |ids|
      invariant kept == OnlyRecheck(ids[..j], recheck)
      invariant seen == Elements(kept)
    {
      assert ids[..j + 1][..j] == ids[..j];
      if ids[j] !in recheck {
        continue;
      }
      if ids[j] in seen {
        continue;
      }
      seen := seen + {ids[j]};
      kept := kept + [ids[j]];
    }
    assert ids[..|ids|] == ids;
  }

  predicate Touches(sources: seq<int>, ids: set<int>) {
    exists k :: 0 <= k < |sources| && sources[k] in ids
  }

  function Untouched(entries: seq<Entry>, ids: set<int>): (r: seq<Entry>)
    ensures forall e :: e in r <==> e in entries && !Touches(e.sources, ids)
  {
    if entries == [] then []
    else
      var head, last := Untouched(entries[..|entries| - 1], ids), entries[|entries| - 1];
      if Touches(last.sources, ids) then head else head + [last]
  }

  /** A reasoned entry restricted to the recheck messages, with its reason rewritten. */
  function Restricted(e: Entry, recheck: set<int>, note: string -> string): Entry {
    e.(sources := OnlyRecheck(e.sources, recheck), reason := note(e.reason))
  }

  function Reasoned(entries: seq<Entry>, recheck: set<int>, note: string -> string): (r: seq<Entry>)
    ensures AllHaveSources(r)
  {
    if entries == [] then []
    else
      var head := Reasoned(entries[..|entries| - 1], recheck, note);
      var last := Restricted(entries[|entries| - 1], recheck, note);
      if last.sources == [] then head else head + [last]
  }

  lemma {:induction false} ReasonedWithinRecheck(entries: seq<Entry>, recheck: set<int>, note: string -> string)
    ensures Elements(Flat(Reasoned(entries, recheck, note))) <= recheck
  {
    if entries != [] {
      var n := |entries| - 1;
      ReasonedWithinRecheck(entries[..n], recheck, note);
      var head, last := Reasoned(entries[..n], recheck, note), Restricted(entries[n], recheck, note);
      assert (head + [last])[..|head|] == head;
    }
  }

  function ReasonedIgnoredIds(ignored: seq<Ignore>, recheck: set<int>): set<int> {
    set k | 0 <= k < |ignored| && ignored[k].id in recheck :: ignored[k].id
  }

  function ReasonedSources(d: Decision, recheck: set<int>, note: string -> string): seq<int> {
    Flat(Reasoned(d.reports, recheck, note)) + Flat(Reasoned(d.votes, recheck, note))
  }

  /** The messages the second decision speaks about. */
  function ReasonedIds(d: Decision, recheck: set<int>, note: string -> string): set<int> {
    Elements(ReasonedSources(d, recheck, note)) + ReasonedIgnoredIds(d.ignored, recheck)
  }

  /**
    The restricted second decision claims no message twice; repeated ignores of one message count
    once, because the merge keeps them in a map.
   */
  predicate ReasonedAtMostOnce(d: Decision, recheck: set<int>, note: string -> string) {
    NoRepeats(ReasonedSources(d, recheck, note)) &&
    ReasonedIgnoredIds(d.ignored, recheck) !! Elements(ReasonedSources(d, recheck, note))
  }

  function UntouchedIgnored(ignored: seq<Ignore>, ids: set<int>): (r: seq<Ignore>)
    ensures forall g :: g in r <==> g in ignored && g.id !in ids
  {
    if ignored == [] then []
    else
      var head, last := UntouchedIgnored(ignored[..|ignored| - 1], ids), ignored[|ignored| - 1];
      if last.id in ids then head else head + [last]
  }

  /** `g` is the last word of the second decision on ignoring its message. */
  ghost predicate LastIgnore(g: Ignore, ignored: seq<Ignore>, recheck: set<int>, note: string -> string) {
    exists k :: 0 <= k < |ignored| && g == Ignore(ignored[k].id, note(ignored[k].reason)) && g.id in recheck &&
      forall j :: k < j < |ignored| ==> ignored[j].id != g.id
  }

  /**
    What the merge must produce: entries of the first decision that touch no reasoned message,
    then the restricted reasoned ones. The reasoned ignores follow once each, in any order.
   */
  ghost predicate IsMerge(m: Decision, initial: Decision, reasoned: Decision, recheck: set<int>, note: string -> string) {
    var ids := ReasonedIds(reasoned, recheck, note);
    var kept := UntouchedIgnored(initial.ignored, ids);
    && m.reports == Untouched(initial.reports, ids) + Reasoned(reasoned.reports, recheck, note)
    && m.votes == Untouched(initial.votes, ids) + Reasoned(reasoned.votes, recheck, note)
    && kept <= m.ignored
    && NoRepeats(Ids(m.ignored[|kept|..]))
    && Elements(Ids(m.ignored[|kept|..])) == ReasonedIgnoredIds(reasoned.ignored, recheck)
    && forall g :: g in m.ignored[|kept|..] ==> LastIgnore(g, reasoned.ignored, recheck, note)
  }

  method AddAll(ids: set<int>, sources: seq<int>) returns (all: set<int>)
    ensures all == ids + Elements(sources)
  {
    all := ids;
    for j := 0 to |sources|
      invariant all == ids + Elements(sources[..j])
    {
      assert sources[..j + 1] == sources[..j] + [sources[j]];
      all := all + {sources[j]};
    }
    assert sources[..|sources|] == sources;
  }

  method RestrictEntries(entries: seq<Entry>, recheck: set<int>, note: string -> string)
    returns (kept: seq<Entry>, ids: set<int>)
    ensures kept == Reasoned(entries, recheck, note)
    ensures ids == Elements(Flat(kept))
  {
    kept, ids := [], {};
    for k := 0 to |entries|
      invariant kept == Reasoned(entries[..k], recheck, note)
      invariant ids == Elements(Flat(kept))
    {
      assert entries[..k + 1][..k] == entries[..k];
      var sources := OnlyRecheckSourceIds(entries[k].sources, recheck);
      if sources != [] {
        var entry := entries[k].(sources := sources, reason := note(entries[k].reason));
        FlatAppend(kept, entry);
        kept := kept + [entry];
        ids := AddAll(ids, sources);
      }
    }
    assert entries[..|entries|] == entries;
  }

  method AnySourceIdIn(sources: seq<int>, ids: set<int>) returns (touched: bool)
    ensures touched <==> Touches(sources, ids)
  {
    for j := 0 to |sources|
      invariant forall k :: 0 <= k < j ==> sources[k] !in ids
    {
      if sources[j] in ids {
        return true;
      }
    }
    return false;
  }

  method KeepUntouched(entries: seq<Entry>, ids: set<int>) returns (kept: seq<Entry>)
    ensures kept == Untouched(entries, ids)
  {
    kept := [];
    for k := 0 to |entries|
      invariant kept == Untouched(entries[..k], ids)
    {
      assert entries[..k + 1][..k] == entries[..k];
      var touched := AnySourceIdIn(entries[k].sources, ids);
      if !touched {
        kept := kept + [entries[k]];
      }
    }
    assert entries[..|entries|] == entries;
  }

  lemma LastIgnoreKept(g: Ignore, ignored: seq<Ignore>, k: nat, recheck: set<int>, note: string -> string)
    requires k < |ignored| && LastIgnore(g, ignored[..k], recheck, note) && g.id != ignored[k].id
    ensures LastIgnore(g, ignored[..k + 1], recheck, note)
  {
    var shorter, longer := ignored[..k], ignored[..k + 1];
    assert longer == shorter + [ignored[k]];
    var i :| 0 <= i < k && g == Ignore(shorter[i].id, note(shorter[i].reason)) && g.id in recheck &&
      forall j :: i < j < k ==> shorter[j].id != g.id;
    assert g == Ignore(longer[i].id, note(longer[i].reason));
    forall j | i < j < k + 1
      ensures longer[j].id != g.id
    {
      if j < k {
        assert longer[j] == shorter[j];
      }
    }
  }

  method CollectIgnored(ignored: seq<Ignore>, recheck: set<int>, note: string -> string)
    returns (byId: map<int, Ignore>)
    ensures byId.Keys == ReasonedIgnoredIds(ignored, recheck)
    ensures forall x :: x in byId ==> byId[x].id == x && LastIgnore(byId[x], ignored, recheck, note)
  {
    byId := map[];
    for k := 0 to |ignored|
      invariant byId.Keys == ReasonedIgnoredIds(ignored[..k], recheck)
      invariant forall x :: x in byId ==> byId[x].id == x && LastIgnore(byId[x], ignored[..k], recheck, note)
    {
      forall x | x in byId && x != ignored[k].id
        ensures LastIgnore(byId[x], ignored[..k + 1], recheck, note)
      {
        LastIgnoreKept(byId[x], ignored, k, recheck, note);
      }
      assert ReasonedIgnoredIds(ignored[..k + 1], recheck)
          == ReasonedIgnoredIds(ignored[..k], recheck) + if ignored[k].id in recheck then {ignored[k].id} else {} by {
        assert forall j :: 0 <= j < k ==> ignored[..k + 1][j] == ignored[..k][j];
      }
      if ignored[k].id in recheck {
        byId := byId[ignored[k].id := Ignore(ignored[k].id, note(ignored[k].reason))];
        assert ignored[..k + 1][k] == ignored[k];
      }
    }
    assert ignored[..|ignored|] == ignored;
  }

  method KeepUntouchedIgnored(ignored: seq<Ignore>, ids: set<int>) returns (kept: seq<Ignore>)
    ensures kept == UntouchedIgnored(ignored, ids)
  {
    kept := [];
    for k := 0 to |ignored|
      invariant kept == UntouchedIgnored(ignored[..k], ids)
    {
      assert ignored[..k + 1][..k] == ignored[..k];
      if ignored[k].id !in ids {
        kept := kept + [ignored[k]];
      }
    }
    assert ignored[..|ignored|] == ignored;
  }

  /** Ranging over the map visits every key once, in any order. */
  method Drain(byId: map<int, Ignore>) returns (tail: seq<Ignore>)
    requires forall x :: x in byId ==> byId[x].id == x
    ensures NoRepeats(Ids(tail)) && Elements(Ids(tail)) == byId.Keys
    ensures forall g :: g in tail ==> g.id in byId && g == byId[g.id]
  {
    tail := [];
    var rest := byId.Keys;
    while rest != {}
      invariant rest <= byId.Keys
      invariant NoRepeats(Ids(tail)) && Elements(Ids(tail)) == byId.Keys - rest
      invariant forall g :: g in tail ==> g.id in byId && g == byId[g.id]
      decreases rest
    {
      assert !(forall x :: x !in rest) || rest == {};
      var x :| x in rest;
      assert (tail + [byId[x]])[..|tail|] == tail;
      CleanConcat({}, {}, Ids(tail), [x]);
      NoRepeatsConcat(Ids(tail), [x]);
      assert x !in Elements(Ids(tail));
      tail := tail + [byId[x]];
      rest := rest - {x};
    }
  }

  /** The merge as the service performs it, including its map of reasoned ignores. */
  method MergeLocationReasoningDecision(
    initial: Decision, reasoned: Decision, recheckIds: seq<int>, note: string -> string) returns (m: Decision)
    ensures IsMerge(m, initial, reasoned, Elements(recheckIds), note)
  {
    var recheck := Elements(recheckIds);
    var reports, reportIds := RestrictEntries(reasoned.reports, recheck, note);
    var votes, voteIds := RestrictEntries(reasoned.votes, recheck, note);
    var byId := CollectIgnored(reasoned.ignored, recheck, note);
    var ids := reportIds + voteIds + byId.Keys;
    assert ids == ReasonedIds(reasoned, recheck, note);
    var keptReports := KeepUntouched(initial.reports, ids);
    var keptVotes := KeepUntouched(initial.votes, ids);
    var ignored := KeepUntouchedIgnored(initial.ignored, ids);
    var tail := Drain(byId);
    m := Decision(keptReports + reports, keptVotes + votes, ignored + tail);
    assert m.ignored[|ignored|..] == tail;
  }

  lemma {:induction false} UntouchedClaims(entries: seq<Entry>, ids: set<int>)
    requires NoRepeats(Flat(entries))
    ensures NoRepeats(Flat(Untouched(entries, ids)))
    ensures Elements(Flat(Untouched(entries, ids))) <= Elements(Flat(entries))
    ensures Elements(Flat(Untouched(entries, ids))) !! ids
  {
    if entries != [] {
      var n := |entries| - 1;
      var head, last := Untouched(entries[..n], ids), entries[n].sources;
      NoRepeatsConcat(Flat(entries[..n]), last);
      UntouchedClaims(entries[..n], ids);
      assert (head + [entries[n]])[..|head|] == head;
      assert forall x :: x in Flat(head) ==> x in Elements(Flat(entries[..n]));
      NoRepeatsConcat(Flat(head), last);
    }
  }

  lemma {:induction false} UntouchedIgnoredClaims(ignored: seq<Ignore>, ids: set<int>)
    requires NoRepeats(Ids(ignored))
    ensures NoRepeats(Ids(UntouchedIgnored(ignored, ids)))
    ensures Elements(Ids(UntouchedIgnored(ignored, ids))) <= Elements(Ids(ignored))
    ensures Elements(Ids(UntouchedIgnored(ignored, ids))) !! ids
  {
    if ignored != [] {
      var n := |ignored| - 1;
      var head, last := UntouchedIgnored(ignored[..n], ids), [ignored[n].id];
      NoRepeatsConcat(Ids(ignored[..n]), last);
      UntouchedIgnoredClaims(ignored[..n], ids);
      assert (head + [ignored[n]])[..|head|] == head;
      assert forall x :: x in Ids(head) ==> x in Elements(Ids(ignored[..n]));
      NoRepeatsConcat(Ids(head), last);
    }
  }

  lemma {:induction false} RepeatsByCount(s: seq<int>)
    ensures NoRepeats(s) <==> forall x :: x in s ==> multiset(s)[x] == 1
  {
    if s != [] {
      var n := |s| - 1;
      assert s == s[..n] + [s[n]];
      RepeatsByCount(s[..n]);
      NoRepeatsConcat(s[..n], [s[n]]);
      assert multiset(s) == multiset(s[..n]) + multiset{s[n]};
      if forall x :: x in s ==> multiset(s)[x] == 1 {
        assert s[n] in s && multiset(s)[s[n]] == multiset(s[..n])[s[n]] + 1;
        forall x | x in s[..n]
          ensures multiset(s[..n])[x] == 1
        {
          assert x in s;
        }
      }
    }
  }

  /** Interleaving two mutually disjoint lists of claims is clean exactly when each of them is. */
  lemma Interleave(k1: seq<int>, r1: seq<int>, k2: seq<int>, r2: seq<int>, k3: seq<int>, r3: seq<int>)
    requires NoRepeats(k1 + k2 + k3)
    requires Elements(k1 + k2 + k3) !! Elements(r1 + r2 + r3)
    ensures NoRepeats((k1 + r1) + (k2 + r2) + (k3 + r3)) <==> NoRepeats(r1 + r2 + r3)
  {
    var k, r := k1 + k2 + k3, r1 + r2 + r3;
    var all := (k1 + r1) + (k2 + r2) + (k3 + r3);
    assert multiset(all) == multiset(k + r);
    RepeatsByCount(all);
    RepeatsByCount(k + r);
    assert forall x :: x in all <==> x in multiset(all);
    assert forall x :: x in k + r <==> x in multiset(k + r);
    NoRepeatsConcat(k, r);
    assert forall x :: x in r ==> x in Elements(r) && x !in Elements(k);
  }

  lemma JoinSubsets(a: seq<int>, b: seq<int>, c: seq<int>, a': seq<int>, b': seq<int>, c': seq<int>,
                    items: seq<int>, ids: set<int>)
    requires NoRepeats(a + b + c) && Elements(a + b + c) <= Elements(items)
    requires NoRepeats(a') && NoRepeats(b') && NoRepeats(c')
    requires Elements(a') <= Elements(a) && Elements(b') <= Elements(b) && Elements(c') <= Elements(c)
    requires Elements(a') !! ids && Elements(b') !! ids && Elements(c') !! ids
    ensures NoRepeats(a' + b' + c') && Elements(a' + b' + c') <= Elements(items) && Elements(a' + b' + c') !! ids
  {
    NoRepeatsConcat(a, b);
    NoRepeatsConcat(a + b, c);
    assert forall x :: x in a' ==> x in Elements(a);
    assert forall x :: x in b' ==> x in Elements(b);
    assert forall x :: x in c' ==> x in Elements(c);
    NoRepeatsConcat(a', b');
    NoRepeatsConcat(a' + b', c');
    forall x | x in a' + b' + c'
      ensures x in Elements(items) && x !in ids
    {
      assert x in a' || x in b' || x in c';
      assert x in Elements(a + b + c);
      assert x in Elements(a') || x in Elements(b') || x in Elements(c');
    }
  }

  lemma SurvivingClaims(items: seq<int>, initial: Decision, ids: set<int>)
    requires ValidSources(items, initial)
    ensures var k1, k2, k3 := Flat(Untouched(initial.reports, ids)), Flat(Untouched(initial.votes, ids)),
                              Ids(UntouchedIgnored(initial.ignored, ids));
            NoRepeats(k1 + k2 + k3) && Elements(k1 + k2 + k3) <= Elements(items) && Elements(k1 + k2 + k3) !! ids
  {
    var a, b, c := Flat(initial.reports), Flat(initial.votes), Ids(initial.ignored);
    NoRepeatsConcat(a, b);
    NoRepeatsConcat(a + b, c);
    assert Elements(a + b + c) <= Elements(items) by {
      assert forall x :: x in Elements(a + b + c) ==> x in Claims(initial);
    }
    UntouchedClaims(initial.reports, ids);
    UntouchedClaims(initial.votes, ids);
    UntouchedIgnoredClaims(initial.ignored, ids);
    JoinSubsets(a, b, c, Flat(Untouched(initial.reports, ids)), Flat(Untouched(initial.votes, ids)),
                Ids(UntouchedIgnored(initial.ignored, ids)), items, ids);
  }

  /** The claims of a merge are those of the surviving first entries interleaved with the reasoned ones. */
  lemma MergedClaims(items: seq<int>, m: Decision, initial: Decision, reasoned: Decision,
                     recheck: set<int>, note: string -> string)
    requires ValidSources(items, initial) && IsMerge(m, initial, reasoned, recheck, note)
    ensures var ids := ReasonedIds(reasoned, recheck, note);
            var k1, k2, k3 := Flat(Untouched(initial.reports, ids)), Flat(Untouched(initial.votes, ids)),
                              Ids(UntouchedIgnored(initial.ignored, ids));
            var r1, r2, r3 := Flat(Reasoned(reasoned.reports, recheck, note)),
                              Flat(Reasoned(reasoned.votes, recheck, note)),
                              Ids(m.ignored[|UntouchedIgnored(initial.ignored, ids)|..]);
            && Claims(m) == (k1 + r1) + (k2 + r2) + (k3 + r3)
            && NoRepeats(k1 + k2 + k3) && Elements(k1 + k2 + k3) <= Elements(items)
            && Elements(k1 + k2 + k3) !! ids && Elements(r1 + r2 + r3) == ids
  {
    hide Flat, Ids, Untouched, UntouchedIgnored, Reasoned, ValidSources;
    var ids := ReasonedIds(reasoned, recheck, note);
    var reports, votes := Untouched(initial.reports, ids), Untouched(initial.votes, ids);
    var ignored := UntouchedIgnored(initial.ignored, ids);
    FlatConcat(reports, Reasoned(reasoned.reports, recheck, note));
    FlatConcat(votes, Reasoned(reasoned.votes, recheck, note));
    assert m.ignored == ignored + m.ignored[|ignored|..];
    IdsConcat(ignored, m.ignored[|ignored|..]);
    SurvivingClaims(items, initial, ids);
    var r3 := Ids(m.ignored[|ignored|..]);
    assert Elements(ReasonedSources(reasoned, recheck, note) + r3) == ids;
  }

  lemma MergedWithinBatch(items: seq<int>, k1: seq<int>, r1: seq<int>, k2: seq<int>, r2: seq<int>, k3: seq<int>,
                          r3: seq<int>, recheck: set<int>, reasoned: Decision, note: string -> string, ids: set<int>)
    requires Elements(k1 + k2 + k3) <= Elements(items) && recheck <= Elements(items)
    requires ids == ReasonedIds(reasoned, recheck, note) && Elements(r1 + r2 + r3) == ids
    ensures forall x :: x in (k1 + r1) + (k2 + r2) + (k3 + r3) ==> x in Elements(items)
  {
    ReasonedWithinRecheck(reasoned.reports, recheck, note);
    ReasonedWithinRecheck(reasoned.votes, recheck, note);
    assert ids <= recheck;
    forall x | x in (k1 + r1) + (k2 + r2) + (k3 + r3)
      ensures x in Elements(items)
    {
      assert x in Elements(k1 + k2 + k3) || x in Elements(r1 + r2 + r3);
    }
  }

  lemma UntouchedHaveSources(entries: seq<Entry>, ids: set<int>)
    requires AllHaveSources(entries)
    ensures AllHaveSources(Untouched(entries, ids))
  {
    var kept := Untouched(entries, ids);
    forall k | 0 <= k < |kept|
      ensures kept[k].sources != []
    {
      assert kept[k] in entries;
    }
  }

  lemma MergedEntriesHaveSources(m: Decision, initial: Decision, reasoned: Decision,
                                 recheck: set<int>, note: string -> string)
    requires AllHaveSources(initial.reports) && AllHaveSources(initial.votes)
    requires IsMerge(m, initial, reasoned, recheck, note)
    ensures AllHaveSources(m.reports) && AllHaveSources(m.votes)
  {
    var ids := ReasonedIds(reasoned, recheck, note);
    UntouchedHaveSources(initial.reports, ids);
    UntouchedHaveSources(initial.votes, ids);
  }

  /**
    Merging a second decision into a valid first one is valid exactly when the second one, restricted
    to the rechecked messages, does not claim a message twice.
   */
  lemma MergeValidity(items: seq<int>, m: Decision, initial: Decision, reasoned: Decision,
                      recheck: set<int>, note: string -> string)
    requires ValidSources(items, initial) && IsMerge(m, initial, reasoned, recheck, note)
    requires recheck <= Elements(items)
    ensures ValidSources(items, m) <==> ReasonedAtMostOnce(reasoned, recheck, note)
  {
    var ids := ReasonedIds(reasoned, recheck, note);
    var k1, k2, k3 := Flat(Untouched(initial.reports, ids)), Flat(Untouched(initial.votes, ids)),
                      Ids(UntouchedIgnored(initial.ignored, ids));
    var r1, r2, r3 := Flat(Reasoned(reasoned.reports, recheck, note)), Flat(Reasoned(reasoned.votes, recheck, note)),
                      Ids(m.ignored[|UntouchedIgnored(initial.ignored, ids)|..]);
    MergedClaims(items, m, initial, reasoned, recheck, note);
    Interleave(k1, r1, k2, r2, k3, r3);
    NoRepeatsConcat(r1 + r2, r3);
    assert Disjoint(r1 + r2, r3) <==> ReasonedIgnoredIds(reasoned.ignored, recheck) !! Elements(r1 + r2) by {
      assert forall x :: x in r3 <==> x in Elements(r3);
      assert forall x :: x in r1 + r2 <==> x in Elements(r1 + r2);
    }
    MergedWithinBatch(items, k1, r1, k2, r2, k3, r3, recheck, reasoned, note, ids);
    MergedEntriesHaveSources(m, initial, reasoned, recheck, note);
  }

  /** `e` is `f` restricted to the rechecked messages, each once, with its reason rewritten. */
  predicate RestrictionOf(e: Entry, f: Entry, recheck: set<int>, note: string -> string) {
    && e.content == f.content && e.reason == note(f.reason)
    && e.sources != [] && NoRepeats(e.sources)
    && (forall x :: x in e.sources ==> x in f.sources && x in recheck)
    && forall x :: x in f.sources && x in recheck ==> x in e.sources
  }

  lemma RestrictedMeans(f: Entry, recheck: set<int>, note: string -> string)
    ensures Touches(f.sources, recheck) <==> Restricted(f, recheck, note).sources != []
    ensures Touches(f.sources, recheck) ==> RestrictionOf(Restricted(f, recheck, note), f, recheck, note)
  {
    var kept := Restricted(f, recheck, note).sources;
    if kept != [] {
      assert kept[0] in kept;
      var k :| 0 <= k < |f.sources| && f.sources[k] == kept[0];
    }
    if k :| 0 <= k < |f.sources| && f.sources[k] in recheck {
      assert f.sources[k] in kept;
    }
  }

  /** The reasoned entries are the restrictions of those that speak of a rechecked message. */
  lemma {:induction false} ReasonedExactly(entries: seq<Entry>, recheck: set<int>, note: string -> string)
    ensures forall e :: e in Reasoned(entries, recheck, note) ==>
              exists f :: f in entries && RestrictionOf(e, f, recheck, note)
    ensures forall f :: f in entries && Touches(f.sources, recheck) ==>
              exists e :: e in Reasoned(entries, recheck, note) && RestrictionOf(e, f, recheck, note)
  {
    hide Touches, RestrictionOf, Restricted;
    if entries != [] {
      var n := |entries| - 1;
      ReasonedExactly(entries[..n], recheck, note);
      RestrictedMeans(entries[n], recheck, note);
      assert entries == entries[..n] + [entries[n]];
    }
  }

  /** The second decision speaks of a message: it reports, votes on or ignores it, and the message was to be rechecked. */
  ghost predicate SpokenOf(d: Decision, recheck: set<int>, x: int) {
    && x in recheck
    && ((exists f :: f in d.reports + d.votes && x in f.sources) || exists g :: g in d.ignored && g.id == x)
  }

  lemma {:induction false} FlatEntry(entries: seq<Entry>, x: int)
    ensures x in Flat(entries) <==> exists e :: e in entries && x in e.sources
  {
    if entries != [] {
      var n := |entries| - 1;
      FlatEntry(entries[..n], x);
      assert entries == entries[..n] + [entries[n]];
    }
  }

  lemma ReasonedOf(entries: seq<Entry>, recheck: set<int>, note: string -> string, x: int)
    ensures x in Flat(Reasoned(entries, recheck, note)) <==> x in recheck && exists f :: f in entries && x in f.sources
  {
    FlatEntry(Reasoned(entries, recheck, note), x);
    ReasonedExactly(entries, recheck, note);
    if f :| f in entries && x in f.sources && x in recheck {
      var k :| 0 <= k < |f.sources| && f.sources[k] == x;
      assert Touches(f.sources, recheck);
    }
  }

  lemma SpokenOfIsReasoned(d: Decision, recheck: set<int>, note: string -> string, x: int)
    ensures x in ReasonedIds(d, recheck, note) <==> SpokenOf(d, recheck, x)
  {
    ReasonedOf(d.reports, recheck, note, x);
    ReasonedOf(d.votes, recheck, note, x);
    assert forall f :: f in d.reports + d.votes <==> f in d.reports || f in d.votes;
    if g :| g in d.ignored && g.id == x && x in recheck {
      var k :| 0 <= k < |d.ignored| && d.ignored[k] == g;
      assert x in ReasonedIgnoredIds(d.ignored, recheck);
    }
  }

  /** No source of the entry is spoken of by the second decision. */
  ghost predicate LeftAlone(e: Entry, reasoned: Decision, recheck: set<int>) {
    forall x :: x in e.sources ==> !SpokenOf(reasoned, recheck, x)
  }

  lemma TouchedOrLeftAlone(e: Entry, reasoned: Decision, recheck: set<int>, note: string -> string)
    ensures Touches(e.sources, ReasonedIds(reasoned, recheck, note)) <==> !LeftAlone(e, reasoned, recheck)
  {
    hide SpokenOf, ReasonedIds;
    forall x {
      SpokenOfIsReasoned(reasoned, recheck, note, x);
    }
    if k :| 0 <= k < |e.sources| && e.sources[k] in ReasonedIds(reasoned, recheck, note) {
      assert SpokenOf(reasoned, recheck, e.sources[k]) && e.sources[k] in e.sources;
    }
    if x :| x in e.sources && SpokenOf(reasoned, recheck, x) {
      var k :| 0 <= k < |e.sources| && e.sources[k] == x;
    }
  }

  /** Of one kind: what is merged are the first entries left alone and the restricted reasoned ones. */
  ghost predicate MergesKind(merged: seq<Entry>, first: seq<Entry>, second: seq<Entry>, reasoned: Decision,
                             recheck: set<int>, note: string -> string)
  {
    && (forall e :: e in first && LeftAlone(e, reasoned, recheck) ==> e in merged)
    && (forall f :: f in second && Touches(f.sources, recheck) ==>
          exists e :: e in merged && RestrictionOf(e, f, recheck, note))
    && forall e :: e in merged ==>
         || (e in first && LeftAlone(e, reasoned, recheck))
         || exists f :: f in second && RestrictionOf(e, f, recheck, note)
  }

  lemma KindMerged(merged: seq<Entry>, first: seq<Entry>, second: seq<Entry>, reasoned: Decision, recheck: set<int>,
                   note: string -> string)
    requires merged == Untouched(first, ReasonedIds(reasoned, recheck, note)) + Reasoned(second, recheck, note)
    ensures MergesKind(merged, first, second, reasoned, recheck, note)
  {
    hide RestrictionOf, SpokenOf, Touches, LeftAlone;
    var ids := ReasonedIds(reasoned, recheck, note);
    ReasonedExactly(second, recheck, note);
    forall e: Entry {
      TouchedOrLeftAlone(e, reasoned, recheck, note);
    }
    assert forall e :: e in merged <==> e in Untouched(first, ids) || e in Reasoned(second, recheck, note);
  }

  lemma {:induction false} IgnoreOf(ignored: seq<Ignore>, id: int) returns (g: Ignore)
    requires id in Ids(ignored)
    ensures g in ignored && g.id == id
  {
    var n := |ignored| - 1;
    if ignored[n].id == id {
      g := ignored[n];
    } else {
      g := IgnoreOf(ignored[..n], id);
    }
  }

  lemma LastIgnoreIsUnique(g: Ignore, h: Ignore, ignored: seq<Ignore>, recheck: set<int>, note: string -> string)
    requires LastIgnore(g, ignored, recheck, note) && LastIgnore(h, ignored, recheck, note) && g.id == h.id
    ensures g == h
  {
  }

  lemma IgnoresMerged(m: Decision, initial: Decision, reasoned: Decision, recheck: set<int>, note: string -> string)
    requires IsMerge(m, initial, reasoned, recheck, note)
    ensures forall g :: g in m.ignored <==>
      (g in initial.ignored && !SpokenOf(reasoned, recheck, g.id)) || LastIgnore(g, reasoned.ignored, recheck, note)
  {
    hide SpokenOf;
    var ids := ReasonedIds(reasoned, recheck, note);
    var kept := UntouchedIgnored(initial.ignored, ids);
    var tail := m.ignored[|kept|..];
    assert m.ignored == kept + tail;
    forall g
      ensures g in m.ignored <==>
        (g in initial.ignored && !SpokenOf(reasoned, recheck, g.id)) || LastIgnore(g, reasoned.ignored, recheck, note)
    {
      SpokenOfIsReasoned(reasoned, recheck, note, g.id);
      if LastIgnore(g, reasoned.ignored, recheck, note) {
        assert g.id in ReasonedIgnoredIds(reasoned.ignored, recheck);
        assert g.id in Elements(Ids(tail)) && g.id in Ids(tail);
        var h := IgnoreOf(tail, g.id);
        LastIgnoreIsUnique(g, h, reasoned.ignored, recheck, note);
      }
    }
  }

  /**
    A message the second decision speaks of keeps only what that decision says, every entry that speaks of a
    rechecked message is in the merge, restricted to those, and a first-decision entry that is left alone survives
    word for word. Ignores merge alike, the second decision's last one of each message.
   */
  lemma MergePrecedence(m: Decision, initial: Decision, reasoned: Decision, recheck: set<int>, note: string -> string)
    requires IsMerge(m, initial, reasoned, recheck, note)
    ensures MergesKind(m.reports, initial.reports, reasoned.reports, reasoned, recheck, note)
    ensures MergesKind(m.votes, initial.votes, reasoned.votes, reasoned, recheck, note)
    ensures forall g :: g in m.ignored <==>
      (g in initial.ignored && !SpokenOf(reasoned, recheck, g.id)) || LastIgnore(g, reasoned.ignored, recheck, note)
  {
    hide SpokenOf, MergesKind;
    KindMerged(m.reports, initial.reports, reasoned.reports, reasoned, recheck, note);
    KindMerged(m.votes, initial.votes, reasoned.votes, reasoned, recheck, note);
    IgnoresMerged(m, initial, reasoned, recheck, note);
  }

  lemma OnlySeven()
    ensures OnlyRecheck([7], {7}) == [7]
  {
    assert OnlyRecheck([], {7}) == [];
    assert [7][..0] == [];
  }

  lemma ReasonedStep(entries: seq<Entry>, e: Entry, recheck: set<int>, note: string -> string)
    requires Restricted(e, recheck, note).sources != []
    ensures Reasoned(entries + [e], recheck, note) == Reasoned(entries, recheck, note) + [Restricted(e, recheck, note)]
  {
    assert (entries + [e])[..|entries|] == entries;
  }

  lemma NothingReasoned(recheck: set<int>, note: string -> string)
    ensures Reasoned([], recheck, note) == [] && Flat([]) == []
  {
  }

  lemma FlatOfTwo(e: Entry)
    ensures Flat([e] + [e]) == e.sources + e.sources
  {
    assert [e][..0] == [];
    FlatConcat([e], [e]);
  }

  lemma RepeatedReport(note: string -> string)
    ensures var once := Entry("stop", "", [7]);
            ReasonedSources(Decision([once, once], [], []), {7}, note) == [7, 7]
  {
    hide Reasoned, OnlyRecheck, Flat;
    var once := Entry("stop", "", [7]);
    OnlySeven();
    var one := Restricted(once, {7}, note);
    NothingReasoned({7}, note);
    ReasonedStep([], once, {7}, note);
    ReasonedStep([once], once, {7}, note);
    assert [once, once] == [once] + [once] && [once] == [] + [once] && [one] == [] + [one];
    FlatOfTwo(one);
    assert one.sources + one.sources == [7, 7];
  }

  /** Two reasoned reports of one message make the merge of a valid decision invalid. */
  lemma MergeCanBeInvalid(m: Decision, note: string -> string)
    requires var once := Entry("stop", "", [7]);
             IsMerge(m, Decision([], [], []), Decision([once, once], [], []), {7}, note)
    ensures ValidSources([7], Decision([], [], [])) && !ValidSources([7], m)
  {
    var once := Entry("stop", "", [7]);
    RepeatedReport(note);
    var sources := ReasonedSources(Decision([once, once], [], []), {7}, note);
    assert sources[0] == sources[1];
    MergeValidity([7], m, Decision([], [], []), Decision([once, once], [], []), {7}, note);
  }
}
