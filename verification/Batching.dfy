/** Cutting retained history into import batches, greedily and in order. */
module Batching {
  import opened Wrappers

  const MAX_BATCH_EVENTS := 64
  const MAX_BATCH_BYTES := 65_536

  datatype Event = Event(id: string, domain: string, recordType: string, source: string, operation: string,
                         event: string, level: string, status: string, result: string, scopeId: string,
                         correlationId: string, parentId: string, component: string, detailJson: string)
  {
    function StringFields(): seq<string> {
      [id, domain, recordType, source, operation, event, level, status, result, scopeId, correlationId, parentId,
       component, detailJson]
    }
  }

  function Utf8Width(c: char): nat {
    if c as int < 0x80 then 1 else if c as int < 0x800 then 2 else if c as int < 0x10000 then 3 else 4
  }

  function Utf8Length(s: string): nat {
    if s == "" then 0 else Utf8Length(s[..|s| - 1]) + Utf8Width(s[|s| - 1])
  }

  function FieldsLength(fields: seq<string>): nat {
    if fields == [] then 0 else FieldsLength(fields[..|fields| - 1]) + Utf8Length(fields[|fields| - 1])
  }

  function LegacyWeight(e: Event): nat {
    96 + FieldsLength(e.StringFields())
  }

  function Weight(events: seq<Event>): nat {
    if events == [] then 0 else Weight(events[..|events| - 1]) + LegacyWeight(events[|events| - 1])
  }

  // ---- the weight is the length of an encoding (section 3 of RFC 3629) ------------------------------

  type Byte = x: int | 0 <= x < 256

  function Utf8(c: char): seq<Byte> {
    var x := c as int;
    if x < 0x80 then [x]
    else if x < 0x800 then [0xC0 + x / 64, 0x80 + x % 64]
    else if x < 0x10000 then [0xE0 + x / 4096, 0x80 + x / 64 % 64, 0x80 + x % 64]
    else [0xF0 + x / 262144, 0x80 + x / 4096 % 64, 0x80 + x / 64 % 64, 0x80 + x % 64]
  }

  /** The code point that starts a text, and how many bytes it takes, as its first byte says. */
  function FirstCodePoint(bytes: seq<Byte>): (r: (int, nat))
    requires bytes != []
  {
    var b := bytes[0];
    if b < 0x80 then (b, 1)
    else if b < 0xE0 && |bytes| >= 2 then ((b - 0xC0) * 64 + bytes[1] - 0x80, 2)
    else if b < 0xF0 && |bytes| >= 3 then ((b - 0xE0) * 4096 + (bytes[1] - 0x80) * 64 + bytes[2] - 0x80, 3)
    else if |bytes| >= 4 then
      ((b - 0xF0) * 262144 + (bytes[1] - 0x80) * 4096 + (bytes[2] - 0x80) * 64 + bytes[3] - 0x80, 4)
    else (0, 1)
  }

  function EncodedText(s: string): seq<Byte> {
    if s == "" then [] else EncodedText(s[..|s| - 1]) + Utf8(s[|s| - 1])
  }

  function EncodedFields(fields: seq<string>): seq<Byte> {
    if fields == [] then [] else EncodedFields(fields[..|fields| - 1]) + EncodedText(fields[|fields| - 1])
  }

  /** A character's encoding is as long as it is counted, and can be read back whatever follows it. */
  lemma WidthOfEncoding(c: char, rest: seq<Byte>)
    ensures |Utf8(c)| == Utf8Width(c) && FirstCodePoint(Utf8(c) + rest) == (c as int, Utf8Width(c))
  {
    var x := c as int;
    assert x == x / 64 * 64 + x % 64;
    assert x / 64 == x / 4096 * 64 + x / 64 % 64;
    assert x / 4096 == x / 262144 * 64 + x / 4096 % 64;
  }

  lemma {:induction false} LengthOfText(s: string)
    ensures |EncodedText(s)| == Utf8Length(s)
  {
    if s != "" {
      LengthOfText(s[..|s| - 1]);
      WidthOfEncoding(s[|s| - 1], []);
    }
  }

  lemma {:induction false} LengthOfFields(fields: seq<string>)
    ensures |EncodedFields(fields)| == FieldsLength(fields)
  {
    if fields != [] {
      LengthOfFields(fields[..|fields| - 1]);
      LengthOfText(fields[|fields| - 1]);
    }
  }

  /** An event weighs 96 and the bytes of its fields' encoding. */
  lemma WeightOfEncoding(e: Event)
    ensures LegacyWeight(e) == 96 + |EncodedFields(e.StringFields())|
  {
    LengthOfFields(e.StringFields());
  }

  predicate Fits(batch: seq<Event>) {
    |batch| <= MAX_BATCH_EVENTS && Weight(batch) <= MAX_BATCH_BYTES
  }

  function Flatten(batches: seq<seq<Event>>): seq<Event> {
    if batches == [] then [] else Flatten(batches[..|batches| - 1]) + batches[|batches| - 1]
  }

  /** A split of the first `k` events into batches that meet the limits. */
  predicate IsSplit(batches: seq<seq<Event>>, events: seq<Event>, k: nat)
    requires k <= |events|
  {
    Flatten(batches) == events[..k] && forall i :: 0 <= i < |batches| ==> Fits(batches[i])
  }

  /** Any split that reaches beyond event `c` uses more than `count` batches. */
  ghost predicate NeedsMore(events: seq<Event>, c: nat, count: nat) {
    forall k: nat, batches :: c < k <= |events| && IsSplit(batches, events, k) ==> |batches| > count
  }

  lemma {:induction false} WeightConcat(a: seq<Event>, b: seq<Event>)
    ensures Weight(a + b) == Weight(a) + Weight(b)
  {
    if b == [] {
      assert a + b == a;
    } else {
      WeightConcat(a, b[..|b| - 1]);
      assert (a + b)[..|a + b| - 1] == a + b[..|b| - 1];
    }
  }

  /** A batch that contains a stretch which does not fit does not fit either. */
  lemma FittingStretch(events: seq<Event>, i: nat, c: nat, m: nat, k: nat)
    requires i <= c <= m <= k <= |events| && Fits(events[i..k])
    ensures Fits(events[c..m])
  {
    assert events[i..k] == events[i..c] + (events[c..m] + events[m..k]);
    WeightConcat(events[i..c], events[c..m] + events[m..k]);
    WeightConcat(events[c..m], events[m..k]);
  }

  lemma DropLast(batches: seq<seq<Event>>, events: seq<Event>, k: nat) returns (j: nat)
    requires k <= |events| && batches != [] && IsSplit(batches, events, k)
    ensures j <= k && IsSplit(batches[..|batches| - 1], events, j)
    ensures Fits(events[j..k])
  {
    var front, last := batches[..|batches| - 1], batches[|batches| - 1];
    j := |Flatten(front)|;
    assert events[..k] == Flatten(front) + last;
    assert events[..j] == events[..k][..j] == Flatten(front);
    assert events[j..k] == events[..k][j..] == last;
  }

  /** When the next event does not fit the current batch, every split reaching that event needs one batch more. */
  lemma {:induction false} OneBatchMore(events: seq<Event>, c: nat, m: nat, count: nat, k: nat,
                                        batches: seq<seq<Event>>)
    requires c <= m < k <= |events| && NeedsMore(events, c, count) && !Fits(events[c..m + 1])
    requires IsSplit(batches, events, k)
    ensures |batches| > count + 1
    decreases |batches|
  {
    assert batches != [] by {
      assert |events[..k]| == k > 0;
    }
    var j := DropLast(batches, events, k);
    var front := batches[..|batches| - 1];
    if j > m {
      OneBatchMore(events, c, m, count, j, front);
    } else if j <= c {
      FittingStretch(events, j, c, m + 1, k);
    } else {
      assert |front| > count;
    }
  }

  lemma NextBatch(events: seq<Event>, c: nat, m: nat, count: nat)
    requires c <= m < |events| && NeedsMore(events, c, count) && !Fits(events[c..m + 1])
    ensures NeedsMore(events, m, count + 1)
  {
    forall k: nat, batches | m < k <= |events| && IsSplit(batches, events, k)
      ensures |batches| > count + 1
    {
      OneBatchMore(events, c, m, count, k, batches);
    }
  }

  lemma FirstBatch(events: seq<Event>)
    ensures NeedsMore(events, 0, 0)
  {
    forall k: nat, batches | 0 < k <= |events| && IsSplit(batches, events, k)
      ensures |batches| > 0
    {
      assert |events[..k]| == k;
    }
  }

  lemma FlattenAppend(batches: seq<seq<Event>>, batch: seq<Event>)
    ensures Flatten(batches + [batch]) == Flatten(batches) + batch
  {
    assert (batches + [batch])[..|batches|] == batches;
  }

  /** A split has the least number of batches among all that meet the limits. */
  ghost predicate IsOptimal(batches: seq<seq<Event>>, events: seq<Event>) {
    && IsSplit(batches, events, |events|)
    && (forall i :: 0 <= i < |batches| ==> batches[i] != [])
    && forall other :: IsSplit(other, events, |events|) ==> |batches| <= |other|
  }

  lemma LastBatch(events: seq<Event>, batches: seq<seq<Event>>, c: nat)
    requires c < |events| && NeedsMore(events, c, |batches|) && IsSplit(batches, events, c) && Fits(events[c..])
    requires forall i :: 0 <= i < |batches| ==> batches[i] != []
    ensures IsOptimal(batches + [events[c..]], events)
  {
    FlattenAppend(batches, events[c..]);
    assert events[..c] + events[c..] == events[..|events|];
  }

  /** Before event `m`: the open batch starts at `c`, and `c` could not have been reached with fewer closed batches. */
  ghost predicate Greedy(events: seq<Event>, c: nat, m: nat, batches: seq<seq<Event>>, current: seq<Event>, weight: int) {
    && c <= m <= |events| && current == events[c..m] && weight == Weight(current) && Fits(current)
    && IsSplit(batches, events, c) && (forall i :: 0 <= i < |batches| ==> batches[i] != [])
    && NeedsMore(events, c, |batches|)
  }

  lemma NothingYet(events: seq<Event>)
    ensures Greedy(events, 0, 0, [], [], 0)
  {
    FirstBatch(events);
  }

  lemma EmptyIsLight(events: seq<Event>, c: nat, m: nat, batches: seq<seq<Event>>, current: seq<Event>, weight: int)
    requires Greedy(events, c, m, batches, current, weight)
    ensures current == [] ==> weight == 0
  {
  }

  lemma Grow(events: seq<Event>, c: nat, m: nat)
    requires c <= m < |events|
    ensures events[c..m + 1] == events[c..m] + [events[m]]
    ensures Weight(events[c..m + 1]) == Weight(events[c..m]) + LegacyWeight(events[m])
  {
    assert events[c..m + 1][..m - c] == events[c..m];
  }

  lemma CloseBatch(events: seq<Event>, c: nat, m: nat, batches: seq<seq<Event>>, current: seq<Event>, weight: int)
    requires Greedy(events, c, m, batches, current, weight) && current != [] && m < |events|
    requires |current| >= MAX_BATCH_EVENTS || weight + LegacyWeight(events[m]) > MAX_BATCH_BYTES
    ensures Greedy(events, m, m, batches + [current], [], 0)
  {
    Grow(events, c, m);
    NextBatch(events, c, m, |batches|);
    FlattenAppend(batches, current);
    assert events[..c] + events[c..m] == events[..m];
  }

  lemma AddEvent(events: seq<Event>, c: nat, m: nat, batches: seq<seq<Event>>, current: seq<Event>, weight: int)
    requires Greedy(events, c, m, batches, current, weight) && m < |events|
    requires |current| < MAX_BATCH_EVENTS && weight + LegacyWeight(events[m]) <= MAX_BATCH_BYTES
    ensures Greedy(events, c, m + 1, batches, current + [events[m]], weight + LegacyWeight(events[m]))
  {
    Grow(events, c, m);
  }

  lemma Finish(events: seq<Event>, c: nat, batches: seq<seq<Event>>, current: seq<Event>, weight: int)
    requires Greedy(events, c, |events|, batches, current, weight) && (c < |events| || events == [])
    ensures IsOptimal(if current != [] then batches + [current] else batches, events)
  {
    if c < |events| {
      assert events[c..|events|] == events[c..];
      LastBatch(events, batches, c);
    }
  }

  /** Fails exactly when a single event is too heavy; otherwise the batches are an optimal split. */
  method WriteBatches(events: seq<Event>) returns (r: Option<seq<seq<Event>>>)
    ensures r.None? <==> exists i :: 0 <= i < |events| && LegacyWeight(events[i]) > MAX_BATCH_BYTES
    ensures r.Some? ==> IsOptimal(r.value, events)
  {
    hide Greedy, IsOptimal;
    var batches: seq<seq<Event>>, current: seq<Event>, currentWeight := [], [], 0;
    ghost var c := 0;
    NothingYet(events);
    for m := 0 to |events|
      invariant Greedy(events, c, m, batches, current, currentWeight) && (c < m || m == 0)
      invariant forall i :: 0 <= i < m ==> LegacyWeight(events[i]) <= MAX_BATCH_BYTES
    {
      var weight := LegacyWeight(events[m]);
      if weight > MAX_BATCH_BYTES {
        return None;
      }
      if current != [] && (|current| >= MAX_BATCH_EVENTS || currentWeight + weight > MAX_BATCH_BYTES) {
        CloseBatch(events, c, m, batches, current, currentWeight);
        batches := batches + [current];
        current, currentWeight, c := [], 0, m;
      }
      EmptyIsLight(events, c, m, batches, current, currentWeight);
      AddEvent(events, c, m, batches, current, currentWeight);
      current := current + [events[m]];
      currentWeight := currentWeight + weight;
    }
    Finish(events, c, batches, current, currentWeight);
    if current != [] {
      batches := batches + [current];
    }
    return Some(batches);
  }
}
