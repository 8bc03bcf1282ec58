/** The chunker: cuts the document text into slices of at most a given
    number of characters, at fixed offsets, with no regard for sentences. */
module Chunker {
  import opened Errors
  import opened Strings

  /** The default max_chars of _chunk_text, the only width summarize uses. */
  const DefaultMaxChars: nat := 6000

  function Min(a: int, b: int): int {
    if a <= b then a else b
  }

  /** _chunk_text(text, width) for a positive width: one slice per offset
      0, width, 2 * width, ... below |text|, each reaching width further or
      to the end of the text. */
  function Chunks(text: string, width: nat): (chunks: seq<string>)
    requires width >= 1
    ensures text == [] <==> chunks == []
    decreases |text|
  {
    if text == [] then []
    else
      var cut := Min(width, |text|);
      [text[..cut]] + Chunks(text[cut..], width)
  }

  /** _chunk_text for any integer max_chars, as Python's range() treats the
      step: a zero step raises, a negative one yields no offsets at all. */
  function ChunkText(text: string, maxChars: int): (r: Result<seq<string>>)
    ensures maxChars == 0 <==> r.Err?
    ensures maxChars < 0 ==> r == Ok([])
    ensures maxChars > 0 ==> r == Ok(Chunks(text, maxChars))
  {
    if maxChars == 0 then Err(InvalidChunkSize)
    else if maxChars < 0 then Ok([])
    else Ok(Chunks(text, maxChars))
  }

  /** The first chunk, and the chunks of what follows it; there is more
      than one chunk only when the text is longer than a chunk. */
  lemma ChunksCons(text: string, width: nat)
    requires width >= 1 && text != []
    ensures var chunks := Chunks(text, width);
            && chunks[0] == text[..Min(width, |text|)]
            && chunks[1..] == Chunks(text[Min(width, |text|)..], width)
            && (|chunks| > 1 ==> width < |text|)
  {
  }

  /** Concatenating the chunks in order gives the text back. */
  lemma {:induction false} ConcatChunks(text: string, width: nat)
    requires width >= 1
    ensures Concat(Chunks(text, width)) == text
    decreases |text|
  {
    if text != [] {
      var cut := Min(width, |text|);
      var chunks := Chunks(text, width);
      ChunksCons(text, width);
      ConcatChunks(text[cut..], width);
      assert Concat(chunks) == chunks[0] + Concat(chunks[1..]);
      assert text == text[..cut] + text[cut..];
    }
  }

  /** Every chunk holds at least one character and at most width; every
      chunk but the last holds exactly width. */
  lemma {:induction false} ChunkLengths(text: string, width: nat)
    requires width >= 1
    ensures var chunks := Chunks(text, width);
            && (forall k :: 0 <= k < |chunks| ==> 0 < |chunks[k]| <= width)
            && (forall k :: 0 <= k < |chunks| - 1 ==> |chunks[k]| == width)
    decreases |text|
  {
    if text != [] {
      var chunks := Chunks(text, width);
      var cut := Min(width, |text|);
      ChunksCons(text, width);
      ChunkLengths(text[cut..], width);
      forall k | 0 <= k < |chunks|
        ensures 0 < |chunks[k]| <= width
        ensures k < |chunks| - 1 ==> |chunks[k]| == width
      {
        if k > 0 {
          assert chunks[k] == chunks[1..][k - 1];
        }
      }
    }
  }

  /** Chunk k is the slice text[k * width : k * width + width], the form
      the list comprehension of _chunk_text computes. */
  lemma ChunkAt(text: string, width: nat, k: nat)
    requires width >= 1
    requires k < |Chunks(text, width)|
    ensures k * width < |text|
    ensures Chunks(text, width)[k] == text[k * width .. Min(k * width + width, |text|)]
  {
    ChunkAtOffset(text, width, k);
    OffsetIsProduct(k, width);
  }

  /** k * width, counted up one width at a time. */
  function Offset(k: nat, width: nat): nat {
    if k == 0 then 0 else Offset(k - 1, width) + width
  }

  lemma {:induction false} OffsetIsProduct(k: nat, width: nat)
    ensures Offset(k, width) == k * width
  {
    if k > 0 {
      OffsetIsProduct(k - 1, width);
      MulSucc(k - 1, width);
    }
  }

  lemma {:induction false} ChunkAtOffset(text: string, width: nat, k: nat)
    requires width >= 1
    requires k < |Chunks(text, width)|
    ensures Offset(k, width) < |text|
    ensures Chunks(text, width)[k] == text[Offset(k, width) .. Min(Offset(k, width) + width, |text|)]
    decreases k
  {
    ChunksCons(text, width);
    if k > 0 {
      var rest := text[width..];
      assert Chunks(text, width)[k] == Chunks(rest, width)[k - 1];
      ChunkAtOffset(rest, width, k - 1);
      ShiftChunk(text, width, Offset(k - 1, width), Chunks(text, width)[k]);
    }
  }

  /** A slice of the text after the first chunk is a slice of the text,
      one width further on. */
  lemma ShiftChunk(text: string, width: nat, prev: nat, chunk: string)
    requires width <= |text| && prev < |text| - width
    requires chunk == text[width..][prev .. Min(prev + width, |text| - width)]
    ensures chunk == text[width + prev .. Min(width + prev + width, |text|)]
  {
    TailSlice(text, width, prev, Min(prev + width, |text| - width));
  }

  lemma TailSlice(s: string, d: nat, lo: nat, hi: nat)
    requires d <= |s| && lo <= hi <= |s| - d
    ensures s[d..][lo..hi] == s[d + lo .. d + hi]
  {
  }

  /** The chunk count is ceil(|text| / width), the length of
      range(0, len(text), width). */
  lemma ChunkCount(text: string, width: nat)
    requires width >= 1
    ensures |Chunks(text, width)| == (|text| + width - 1) / width
  {
    var c := |Chunks(text, width)|;
    ChunkBounds(text, width);
    if c == 0 {
      assert |text| == 0;
    } else {
      OffsetIsProduct(c - 1, width);
      OffsetIsProduct(c, width);
      CeilingDiv(c, width, |text|);
    }
  }

  /** The chunks cover the text and no whole chunk lies beyond it. */
  lemma {:induction false} ChunkBounds(text: string, width: nat)
    requires width >= 1
    ensures var c := |Chunks(text, width)|;
            c >= 1 ==> Offset(c - 1, width) < |text| <= Offset(c, width)
    decreases |text|
  {
    if text != [] {
      var c := |Chunks(text, width)|;
      ChunksCons(text, width);
      var cut := Min(width, |text|);
      ChunkBounds(text[cut..], width);
      if c >= 2 {
        OffsetShift(c - 2, width);
        OffsetShift(c - 1, width);
      }
    }
  }

  /** One more width at the front is one more width at the end. */
  lemma {:induction false} OffsetShift(k: nat, width: nat)
    ensures Offset(k + 1, width) == width + Offset(k, width)
  {
  }

  /** A length between (c - 1) * width (exclusive) and c * width (inclusive)
      needs exactly c slices. */
  lemma CeilingDiv(c: nat, width: nat, len: nat)
    requires width >= 1 && c >= 1
    requires (c - 1) * width < len <= c * width
    ensures (len + width - 1) / width == c
  {
    MulSucc(c - 1, width);
    MulSucc(c, width);
    DivUnique(len + width - 1, width, c);
  }

  lemma MulSucc(a: nat, m: nat)
    ensures 0 <= a * m
    ensures (a + 1) * m == a * m + m
  {
  }

  lemma DivUnique(n: nat, width: nat, q: nat)
    requires width >= 1
    requires q * width <= n < (q + 1) * width
    ensures n / width == q
  {
    var d := n / width;
    assert d * width + n % width == n;
    if d < q {
      MulMonotone(d + 1, q, width);
      MulSucc(d, width);
    } else if d > q {
      MulMonotone(q + 1, d, width);
    }
  }

  lemma MulMonotone(a: nat, b: nat, m: nat)
    requires a <= b
    ensures a * m <= b * m
  {
    assert b * m == a * m + (b - a) * m;
  }

  /** A text no longer than one chunk is a single chunk. */
  lemma SingleChunk(text: string, width: nat)
    requires width >= 1 && 1 <= |text| <= width
    ensures Chunks(text, width) == [text]
  {
    assert text[..|text|] == text;
    assert Chunks(text[|text|..], width) == [];
  }
}
