/** api/app/rag.py: cutting a document into overlapping chunks. */
module Rag {
  import opened PyText

  const CHUNK_CHARS: nat := 1200
  const CHUNK_OVERLAP: nat := 150
  const STRIDE: nat := CHUNK_CHARS - CHUNK_OVERLAP

  function Min(a: int, b: int): int {
    if a <= b then a else b
  }

  /** The offsets of chunk k in a text of n characters. */
  function From(k: nat): nat {
    k * STRIDE
  }

  function To(k: nat, n: nat): nat {
    Min(From(k) + CHUNK_CHARS, n)
  }

  /** One chunk for up to 1200 characters, and one more for each started 1050 after that. */
  function Count(n: nat): nat {
    if n == 0 then 0 else if n <= CHUNK_CHARS then 1 else 1 + (n - CHUNK_CHARS + STRIDE - 1) / STRIDE
  }

  /** The first chunk, then every later one without what it shares with its predecessor. */
  function Rebuild(chunks: seq<string>): string {
    if chunks == [] then ""
    else if |chunks| == 1 then chunks[0]
    else
      var last := chunks[|chunks|-1];
      Rebuild(chunks[..|chunks|-1]) + if |last| >= CHUNK_OVERLAP then last[CHUNK_OVERLAP..] else ""
  }

  /** Every chunk is full but the last, which is not empty. */
  predicate WellCut(chunks: seq<string>) {
    && (forall k | 0 <= k < |chunks| - 1 :: |chunks[k]| == CHUNK_CHARS)
    && (chunks != [] ==> 0 < |chunks[|chunks|-1]| <= CHUNK_CHARS)
    && (|chunks| > 1 ==> |chunks[|chunks|-1]| > CHUNK_OVERLAP)
  }

  method ChunkText(text: string) returns (chunks: seq<string>)
    ensures Rebuild(chunks) == Strip(text)
    ensures |chunks| == Count(|Strip(text)|) && WellCut(chunks)
    ensures forall k | 0 <= k < |chunks| ::
              From(k) < To(k, |Strip(text)|) && chunks[k] == Strip(text)[From(k)..To(k, |Strip(text)|)]
  {
    var s := Strip(text);
    chunks := [];
    hide Rebuild, Strip;
    assert Rebuild([]) == "" by { NothingYet(); }
    if s == "" {
      return;
    }
    var start := 0;
    while start < |s|
      invariant start == From(|chunks|) && start < |s|
      invariant forall k | 0 <= k < |chunks| ::
                  From(k) + CHUNK_CHARS < |s| && chunks[k] == s[From(k)..From(k) + CHUNK_CHARS]
      invariant |chunks| > 0 ==> start + CHUNK_OVERLAP < |s| && Rebuild(chunks) == s[..start + CHUNK_OVERLAP]
      decreases |s| - start
    {
      var end := Min(start + CHUNK_CHARS, |s|);
      Extend(chunks, s, start, end);
      chunks := chunks + [s[start..end]];
      if end == |s| {
        CountExact(|chunks|, |s|);
        return;
      }
      start := end - CHUNK_OVERLAP;
    }
  }

  lemma NothingYet()
    ensures Rebuild([]) == ""
  {
  }

  lemma Extend(chunks: seq<string>, s: string, start: nat, end: nat)
    requires start < end <= |s|
    requires |chunks| > 0 ==> start + CHUNK_OVERLAP <= end && Rebuild(chunks) == s[..start + CHUNK_OVERLAP]
    requires chunks == [] ==> start == 0
    ensures Rebuild(chunks + [s[start..end]]) == s[..end]
  {
    RebuildNext(chunks, s[start..end]);
    hide Rebuild;
    if chunks != [] {
      Overlap(s, start, CHUNK_OVERLAP, end);
    }
  }

  lemma RebuildNext(chunks: seq<string>, last: string)
    ensures Rebuild(chunks + [last]) ==
            if chunks == [] then last
            else Rebuild(chunks) + if |last| >= CHUNK_OVERLAP then last[CHUNK_OVERLAP..] else ""
  {
    assert (chunks + [last])[..|chunks|] == chunks;
  }

  lemma Overlap(s: string, i: nat, k: nat, j: nat)
    requires i + k <= j <= |s|
    ensures s[..i + k] + s[i..j][k..] == s[..j]
  {
    assert s[i..j][k..] == s[i + k..j];
  }

  lemma CountExact(m: nat, n: nat)
    requires m > 0 && n > 0 && n <= From(m - 1) + CHUNK_CHARS
    requires m > 1 ==> From(m - 2) + CHUNK_CHARS < n
    ensures m == Count(n)
  {
  }

  /** Where chunk k of a text of n characters lies, and how many chunks there are. */
  lemma ChunkPlaces(n: nat, k: nat)
    ensures From(k) == 1050 * k && To(k, n) == Min(1050 * k + 1200, n)
    ensures n == 0 <==> Count(n) == 0
    ensures n > 0 ==> n <= 150 + 1050 * Count(n) && (Count(n) > 1 ==> n > 150 + 1050 * (Count(n) - 1))
  {
  }

  // ---------- what a search in the chunks can find ----------

  /** The span of `length` characters at i lies in one chunk of a text of n characters. */
  predicate InOneChunk(n: nat, i: nat, length: nat) {
    exists k: nat | k < Count(n) :: From(k) <= i && i + length <= To(k, n)
  }

  /** Every span of a length is found whole in some chunk, in every text, exactly if it is at most 151. */
  lemma SpanBound(length: nat)
    ensures (forall n: nat, i: nat | i + length <= n && n > 0 :: InOneChunk(n, i, length)) <==>
            length <= 151
  {
    if length <= CHUNK_OVERLAP + 1 {
      forall n: nat, i: nat | i + length <= n && n > 0
        ensures InOneChunk(n, i, length)
      {
        ShortSpan(n, i, length);
      }
    } else {
      var n, i := STRIDE - 1 + length, STRIDE - 1;
      forall k: nat | k < Count(n)
        ensures !(From(k) <= i && i + length <= To(k, n))
      {
        if k > 0 {
          assert From(k) >= STRIDE;
        }
      }
      assert !InOneChunk(n, i, length);
    }
  }

  lemma ShortSpan(n: nat, i: nat, length: nat)
    requires length <= CHUNK_OVERLAP + 1 && i + length <= n && n > 0
    ensures InOneChunk(n, i, length)
  {
    var k := i / STRIDE;
    if k >= Count(n) || To(k, n) < i + length {
      var last: nat := Count(n) - 1;
      assert From(last) <= i && i + length <= To(last, n);
    }
  }
}
