/** Counting, finding and cutting in text, and the pieces a document falls into at each '>'. */
module TextSearch {
  import opened Wrappers

  // ---- counting and finding ---------------------------------------------------------------------------

  predicate OccursAt(s: string, m: string, p: nat) {
    p + |m| <= |s| && s[p..p + |m|] == m
  }

  /** The number of non-overlapping occurrences from `p` on, left to right. */
  function CountFrom(s: string, m: string, p: nat): nat
    requires m != ""
    decreases |s| - p
  {
    if p + |m| > |s| then 0
    else if OccursAt(s, m, p) then 1 + CountFrom(s, m, p + |m|)
    else CountFrom(s, m, p + 1)
  }

  function Count(s: string, m: string): nat
    requires m != ""
  {
    CountFrom(s, m, 0)
  }

  /** The first occurrence from `p` on. */
  function Find(s: string, m: string, p: nat): Option<nat>
    requires m != ""
    decreases |s| - p
  {
    if p + |m| > |s| then None
    else if OccursAt(s, m, p) then Some(p)
    else Find(s, m, p + 1)
  }

  /** No occurrence of `m` reaches from `a` into what follows it: the last character of `a` is not inside `m`. */
  predicate Seals(a: string, m: string) {
    a == "" || (m != "" && a[|a| - 1] !in m[..|m| - 1])
  }

  lemma NoStraddle(a: string, b: string, m: string, p: nat)
    requires m != "" && Seals(a, m) && p < |a| < p + |m|
    ensures !OccursAt(a + b, m, p)
  {
    if p + |m| <= |a + b| {
      var k := |a| - 1 - p;
      assert (a + b)[p..p + |m|][k] == a[|a| - 1];
      assert m[..|m| - 1][k] == m[k];
    }
  }

  lemma OccursLeft(a: string, b: string, m: string, p: nat)
    requires p + |m| <= |a|
    ensures OccursAt(a + b, m, p) <==> OccursAt(a, m, p)
  {
    assert (a + b)[p..p + |m|] == a[p..p + |m|];
  }

  lemma OccursRight(a: string, b: string, m: string, p: nat)
    ensures OccursAt(a + b, m, |a| + p) <==> OccursAt(b, m, p)
  {
    if |a| + p + |m| <= |a + b| {
      assert (a + b)[|a| + p..|a| + p + |m|] == b[p..p + |m|];
    }
  }

  lemma {:induction false} CountRight(a: string, b: string, m: string, p: nat)
    requires m != ""
    ensures CountFrom(a + b, m, |a| + p) == CountFrom(b, m, p)
    decreases |b| - p
  {
    if p + |m| <= |b| {
      OccursRight(a, b, m, p);
      if OccursAt(b, m, p) {
        CountRight(a, b, m, p + |m|);
      } else {
        CountRight(a, b, m, p + 1);
      }
    }
  }

  lemma CountShort(s: string, m: string, p: nat)
    requires m != ""
    ensures p + |m| > |s| ==> CountFrom(s, m, p) == 0
  {
  }

  lemma {:induction false} CountConcatFrom(a: string, b: string, m: string, p: nat)
    requires m != "" && Seals(a, m) && p <= |a|
    ensures CountFrom(a + b, m, p) == CountFrom(a, m, p) + CountFrom(b, m, 0)
    decreases |a| - p
  {
    if p == |a| {
      CountRight(a, b, m, 0);
    } else if p + |m| <= |a| {
      OccursLeft(a, b, m, p);
      if OccursAt(a, m, p) {
        CountConcatFrom(a, b, m, p + |m|);
      } else {
        CountConcatFrom(a, b, m, p + 1);
      }
    } else {
      NoStraddle(a, b, m, p);
      CountConcatFrom(a, b, m, p + 1);
      CountShort(a, m, p);
      CountShort(a, m, p + 1);
      CountShort(a + b, m, p);
      if p + |m| > |a + b| {
        CountShort(b, m, 0);
      }
    }
  }

  /** Counts add up where no occurrence can reach across. */
  lemma CountConcat(a: string, b: string, m: string)
    requires m != "" && Seals(a, m)
    ensures Count(a + b, m) == Count(a, m) + Count(b, m)
  {
    CountConcatFrom(a, b, m, 0);
  }

  lemma {:induction false} CountAbsent(s: string, m: string, c: char, p: nat)
    requires c in m && c !in s
    ensures CountFrom(s, m, p) == 0
    decreases |s| - p
  {
    var k :| 0 <= k < |m| && m[k] == c;
    if p + |m| <= |s| {
      assert s[p..p + |m|][k] == s[p + k];
      CountAbsent(s, m, c, p + 1);
    }
  }

  lemma {:induction false} FindNone(s: string, m: string, p: nat)
    requires m != ""
    ensures CountFrom(s, m, p) == 0 <==> Find(s, m, p) == None
    ensures Find(s, m, p).Some? ==> p <= Find(s, m, p).value && OccursAt(s, m, Find(s, m, p).value)
    decreases |s| - p
  {
    if p + |m| <= |s| && !OccursAt(s, m, p) {
      FindNone(s, m, p + 1);
    }
  }

  /** With nothing in `a`, the search goes on at the start of `b`. */
  lemma {:induction false} FindPast(a: string, b: string, m: string, p: nat)
    requires m != "" && Seals(a, m) && p <= |a| && CountFrom(a, m, p) == 0 && OccursAt(b, m, 0)
    ensures Find(a + b, m, p) == Some(|a|)
    decreases |a| - p
  {
    OccursRight(a, b, m, 0);
    if p < |a| {
      if p + |m| > |a| {
        NoStraddle(a, b, m, p);
        CountShort(a, m, p + 1);
      } else {
        OccursLeft(a, b, m, p);
      }
      FindPast(a, b, m, p + 1);
    }
  }

  lemma CountWhole(m: string)
    requires m != ""
    ensures Count(m, m) == 1
  {
    assert OccursAt(m, m, 0);
    CountShort(m, m, |m|);
  }

  /** A word followed by a space holds no part of an attribute that reaches further. */
  lemma CountPastWord(word: string, rest: string, m: string)
    requires m != "" && ' ' !in m && word != "" && word[|word| - 1] == ' '
    requires |word| < |m| || (exists c :: c in m && c !in word)
    ensures Count(word + rest, m) == Count(rest, m)
  {
    CountConcat(word, rest, m);
    if |word| < |m| {
      CountShort(word, m, 0);
    } else {
      var c :| c in m && c !in word;
      CountAbsent(word, m, c, 0);
    }
  }

  lemma CountItself(m: string)
    requires |m| > 1
    ensures Count(m + ">", m) == 1
  {
    assert OccursAt(m + ">", m, 0);
    CountShort(m + ">", m, |m|);
  }

  /** Setting a block between two chunks adds its occurrences. */
  lemma CountAround(a: string, block: string, b: string, m: string)
    requires m != "" && Seals(a, m) && Seals(block, m) && block != ""
    ensures Count(a + block + b, m) == Count(a, m) + Count(block, m) + Count(b, m)
    ensures Count(a + b, m) == Count(a, m) + Count(b, m)
  {
    CountConcat(a, b, m);
    CountConcat(a, block, m);
    assert (a + block)[|a + block| - 1] == block[|block| - 1];
    CountConcat(a + block, b, m);
  }

  lemma Cut(a: string, block: string, b: string)
    ensures (a + block + b)[..|a|] == a && (a + block + b)[|a| + |block|..] == b
    ensures (a + block + b)[|a|..|a| + |block|] == block
  {
  }

  /** A piece of markup: some text and one final '>'. */
  predicate IsChunk(s: string) {
    s != "" && s[|s| - 1] == '>' && '>' !in s[..|s| - 1]
  }

  predicate EndsChunk(a: string) {
    a == "" || a[|a| - 1] == '>'
  }

  lemma FindEnd(a: string, front: string, m: string, b: string)
    requires IsChunk(m) && EndsChunk(a) && EndsChunk(front) && Count(front, m) == 0
    ensures Find(a + (front + m) + b, m, |a|) == Some(|a| + |front|)
  {
    assert a + (front + m) + b == (a + front) + (m + b);
    CountRight(a, front, m, 0);
    assert (m + b)[..|m|] == m;
    assert EndsChunk(a + front);
    FindPast(a + front, m + b, m, |a|);
  }

  lemma LastOfSum(front: string, text: string)
    ensures (front + (text + ">"))[|front + (text + ">")| - 1] == '>'
  {
  }

  lemma Regroup(s: string, v: string, w: string, x: string, y: string, z: string)
    ensures s + (v + (w + (x + (y + z)))) == (s + (v + (w + (x + y)))) + z
  {
  }

  // ---- chunks ---------------------------------------------------------------------------------------------

  lemma ChunkOf(text: string)
    requires '>' !in text
    ensures IsChunk(text + ">")
  {
    assert (text + ">")[..|text|] == text;
  }

  /** What a string has to be so that no occurrence of it crosses from one chunk into the next. */
  predicate WithinChunks(m: string) {
    m != "" && '>' !in m[..|m| - 1]
  }

  function FirstEnd(s: string): (k: nat)
    requires '>' in s
    ensures k < |s| && s[k] == '>' && '>' !in s[..k]
  {
    if s[0] == '>' then 0
    else
      assert s == [s[0]] + s[1..];
      assert s[..1 + FirstEnd(s[1..])] == [s[0]] + s[1..][..FirstEnd(s[1..])];
      1 + FirstEnd(s[1..])
  }

  /** The pieces that end at each '>'; what follows the last one can hold no match. */
  function Chunks(s: string): seq<string>
    decreases |s|
  {
    if '>' !in s then []
    else [s[..FirstEnd(s) + 1]] + Chunks(s[FirstEnd(s) + 1..])
  }

  lemma PrefixMembers(s: string, k: nat)
    requires k <= |s|
    ensures forall i :: 0 <= i < k ==> s[i] in s[..k]
  {
    forall i | 0 <= i < k
      ensures s[i] in s[..k]
    {
      assert s[..k][i] == s[i];
    }
  }

  lemma FirstEndUnique(s: string, k: nat)
    requires k < |s| && s[k] == '>' && '>' !in s[..k]
    ensures '>' in s && FirstEnd(s) == k
  {
    PrefixMembers(s, k);
    PrefixMembers(s, FirstEnd(s));
  }

  /** The first chunk and what follows it. */
  lemma FirstChunk(s: string) returns (chunk: string, rest: string)
    requires '>' in s
    ensures s == chunk + rest && IsChunk(chunk) && (EndsChunk(s) ==> EndsChunk(rest))
  {
    var k := FirstEnd(s);
    chunk, rest := s[..k + 1], s[k + 1..];
    assert chunk[..k] == s[..k];
  }

  lemma ChunksStep(chunk: string, rest: string)
    requires IsChunk(chunk)
    ensures Chunks(chunk + rest) == [chunk] + Chunks(rest)
  {
    var k := |chunk| - 1;
    assert (chunk + rest)[..k] == chunk[..k];
    FirstEndUnique(chunk + rest, k);
    assert (chunk + rest)[..k + 1] == chunk && (chunk + rest)[k + 1..] == rest;
  }

  lemma NoChunks(a: string, b: string)
    requires a == ""
    ensures Chunks(a + b) == Chunks(a) + Chunks(b)
  {
    assert a + b == b;
  }

  lemma Associative<T>(x: seq<T>, y: seq<T>, z: seq<T>)
    ensures (x + y) + z == x + (y + z)
  {
  }

  lemma {:induction false} ChunksConcat(a: string, b: string)
    requires EndsChunk(a)
    ensures Chunks(a + b) == Chunks(a) + Chunks(b)
    decreases |a|
  {
    if a == "" {
      NoChunks(a, b);
    } else {
      var chunk, rest := FirstChunk(a);
      ChunksConcat(rest, b);
      ChunksStep(chunk, rest);
      ChunksStep(chunk, rest + b);
      Associative(chunk, rest, b);
      Associative([chunk], Chunks(rest), Chunks(b));
    }
  }

  lemma OneChunk(s: string)
    requires IsChunk(s)
    ensures Chunks(s) == [s]
  {
    FirstEndUnique(s, |s| - 1);
    assert s[..|s|] == s && s[|s|..] == "";
  }

  /** The chunks an expression matches in. */
  function Matches(chunks: seq<string>, expression: string -> bool): seq<string> {
    if chunks == [] then []
    else
      var head := Matches(chunks[..|chunks| - 1], expression);
      if expression(chunks[|chunks| - 1]) then head + [chunks[|chunks| - 1]] else head
  }

  lemma {:induction false} MatchesConcat(a: seq<string>, b: seq<string>, expression: string -> bool)
    ensures Matches(a + b, expression) == Matches(a, expression) + Matches(b, expression)
  {
    if b == [] {
      assert a + b == a;
    } else {
      MatchesConcat(a, b[..|b| - 1], expression);
      assert (a + b)[..|a + b| - 1] == a + b[..|b| - 1];
    }
  }

  lemma MatchesOne(chunk: string, expression: string -> bool)
    ensures Matches([chunk], expression) == if expression(chunk) then [chunk] else []
  {
    assert [chunk][..0] == [];
  }

  // ---- a block between two markers --------------------------------------------------------------------------

  datatype MarkerProblem = Malformed | Reversed

  /** Where the text from the first marker to the second is; nothing without markers. */
  function MarkedSpan(document: string, first: string, last: string): Result<Option<(nat, nat)>, MarkerProblem>
    requires first != "" && last != ""
  {
    var starts, ends := Count(document, first), Count(document, last);
    if starts == 0 && ends == 0 then Ok(None)
    else if starts != 1 || ends != 1 then Err(Malformed)
    else
      FindNone(document, first, 0);
      var start := Find(document, first, 0).value;
      var end := Find(document, last, start);
      if end.None? then Err(Reversed) else Ok(Some((start, end.value + |last|)))
  }

  lemma SpanInside(document: string, first: string, last: string)
    requires first != "" && last != ""
    requires MarkedSpan(document, first, last).Ok? && MarkedSpan(document, first, last).value.Some?
    ensures var span := MarkedSpan(document, first, last).value.value; span.0 <= span.1 <= |document|
  {
    FindNone(document, first, 0);
    var start := Find(document, first, 0).value;
    FindNone(document, last, start);
  }

  /** What the search for a block needs: one of each marker, the first at its start, the second at its end. */
  ghost predicate Delimited(block: string, front: string, first: string, last: string) {
    && IsChunk(first) && IsChunk(last) && block == front + last && first <= block && EndsChunk(front)
    && Count(front, last) == 0 && Count(block, first) == 1 && Count(block, last) == 1
  }

  lemma FindStart(a: string, block: string, b: string, first: string)
    requires EndsChunk(a) && IsChunk(first) && Count(a, first) == 0 && first <= block
    ensures Find(a + block + b, first, 0) == Some(|a|)
  {
    assert a + block + b == a + (block + b);
    assert (block + b)[..|first|] == first;
    FindPast(a, block + b, first, 0);
  }

  lemma MarkersOnce(a: string, block: string, front: string, b: string, first: string, last: string)
    requires EndsChunk(a) && Delimited(block, front, first, last)
    requires Count(a + b, first) == 0 && Count(a + b, last) == 0
    ensures Count(a, first) == 0 && Count(a + block + b, first) == 1
    ensures Count(a, last) == 0 && Count(a + block + b, last) == 1
  {
    assert block[|block| - 1] == '>';
    CountAround(a, block, b, first);
    CountAround(a, block, b, last);
  }

  /** In a marker-free document, a marked block set after a '>' is found exactly where it was set. */
  lemma MarkedBlockIsFound(a: string, block: string, front: string, b: string, first: string, last: string)
    requires EndsChunk(a) && Delimited(block, front, first, last) && MarkedSpan(a + b, first, last) == Ok(None)
    ensures MarkedSpan(a + block + b, first, last) == Ok(Some((|a|, |a| + |block|)))
  {
    MarkersOnce(a, block, front, b, first, last);
    FindStart(a, block, b, first);
    FindEnd(a, front, last, b);
  }
}
