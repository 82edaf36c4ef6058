/**
 * What the chunk loop of `Downloader.get_artifact` accumulates, as functions of the
 * chunk sequence the streamed GET response delivers: the bytes written to the output
 * file, the running total `done`, and the values handed to the progress callback.
 */
module Transfer {

  newtype byte = x: int | 0 <= x < 256

  /** One piece of the body as the HTTP client delivers it; empty ones are keep-alive artifacts. */
  type Chunk = seq<byte>

  /**
   * A progress value `done / size`, kept as the exact pair rather than the float the
   * callback receives.
   */
  datatype Fraction = Fraction(done: nat, size: int) {
    /** The value is 1 (for a non-zero size). */
    predicate IsOne() {
      done == size
    }

    /** This value is at most `other` (both sizes positive). */
    predicate AtMost(other: Fraction) {
      done * other.size <= other.done * size
    }
  }

  /** The chunks laid end to end. */
  function Concat(chunks: seq<Chunk>): seq<byte> {
    if chunks == [] then [] else chunks[0] + Concat(chunks[1..])
  }

  /** The chunks that carry data, in arrival order. */
  function NonEmpty(chunks: seq<Chunk>): (kept: seq<Chunk>)
    ensures |kept| <= |chunks|
    ensures forall i :: 0 <= i < |kept| ==> kept[i] != [] && kept[i] in chunks
  {
    if chunks == [] then []
    else if chunks[0] == [] then NonEmpty(chunks[1..])
    else [chunks[0]] + NonEmpty(chunks[1..])
  }

  /**
   * The callback values for `chunks` when `before` bytes were counted already: one per
   * non-empty chunk, carrying the running total after that chunk.
   */
  function Trace(chunks: seq<Chunk>, before: nat, size: int): seq<Fraction> {
    if chunks == [] then []
    else if chunks[0] == [] then Trace(chunks[1..], before, size)
    else [Fraction(before + |chunks[0]|, size)] + Trace(chunks[1..], before + |chunks[0]|, size)
  }

  /** Writing two runs of chunks one after the other writes their concatenations in order. */
  lemma {:induction false} ConcatSplit(a: seq<Chunk>, b: seq<Chunk>)
    ensures Concat(a + b) == Concat(a) + Concat(b)
  {
    if a != [] {
      assert (a + b)[1..] == a[1..] + b;
      ConcatSplit(a[1..], b);
    } else {
      assert a + b == b;
    }
  }

  /** The callback values of two runs: the second run continues from the first run's total. */
  lemma {:induction false} TraceSplit(a: seq<Chunk>, b: seq<Chunk>, before: nat, size: int)
    ensures Trace(a + b, before, size) == Trace(a, before, size) + Trace(b, before + |Concat(a)|, size)
  {
    if a != [] {
      assert (a + b)[1..] == a[1..] + b;
      TraceSplit(a[1..], b, if a[0] == [] then before else before + |a[0]|, size);
    } else {
      assert a + b == b;
    }
  }

  /** One more chunk: the sink grows by it and, when it is not empty, the callback sees the new total. */
  lemma ChunkStep(a: seq<Chunk>, x: Chunk, before: nat, size: int)
    ensures Concat(a + [x]) == Concat(a) + x
    ensures Trace(a + [x], before, size)
         == Trace(a, before, size) + (if x == [] then [] else [Fraction(before + |Concat(a)| + |x|, size)])
  {
    ConcatSplit(a, [x]);
    TraceSplit(a, [x], before, size);
    assert Concat([x]) == x + Concat([]);
  }

  /** `if chunk:` keeps every non-empty chunk, as often as it occurs, and drops only the empty ones. */
  lemma {:induction false} NonEmptyKeepsAll(chunks: seq<Chunk>)
    ensures multiset(NonEmpty(chunks)) == multiset(chunks)[[] := 0]
    ensures |NonEmpty(chunks)| == |chunks| - multiset(chunks)[[]]
  {
    if chunks != [] {
      assert chunks == [chunks[0]] + chunks[1..];
      NonEmptyKeepsAll(chunks[1..]);
    }
  }

  /** Empty chunks contribute nothing: the bytes written are those of the non-empty chunks. */
  lemma {:induction false} ConcatNonEmpty(chunks: seq<Chunk>)
    ensures Concat(NonEmpty(chunks)) == Concat(chunks)
  {
    if chunks != [] {
      var rest := NonEmpty(chunks[1..]);
      ConcatNonEmpty(chunks[1..]);
      if chunks[0] != [] {
        assert ([chunks[0]] + rest)[1..] == rest;
        assert Concat(NonEmpty(chunks)) == chunks[0] + Concat(rest);
      } else {
        assert Concat(chunks) == [] + Concat(chunks[1..]) == Concat(rest);
      }
    }
  }

  /** An empty chunk anywhere in the stream changes neither the bytes written nor the callback values. */
  lemma EmptyChunkInvisible(a: seq<Chunk>, b: seq<Chunk>, before: nat, size: int)
    ensures Concat(a + [[]] + b) == Concat(a + b)
    ensures Trace(a + [[]] + b, before, size) == Trace(a + b, before, size)
  {
    ConcatSplit(a + [[]], b);
    ConcatSplit(a, [[]]);
    ConcatSplit(a, b);
    TraceSplit(a + [[]], b, before, size);
    TraceSplit(a, [[]], before, size);
    TraceSplit(a, b, before, size);
    assert Concat([[]]) == [];
  }

  /** The callback fires exactly once per non-empty chunk. */
  lemma {:induction false} TraceCount(chunks: seq<Chunk>, before: nat, size: int)
    ensures |Trace(chunks, before, size)| == |NonEmpty(chunks)|
  {
    if chunks != [] {
      TraceCount(chunks[1..], if chunks[0] == [] then before else before + |chunks[0]|, size);
    }
  }

  /** Every value has denominator `size` and a running total in `(lo, hi]`. */
  predicate TotalsWithin(t: seq<Fraction>, lo: nat, hi: nat, size: int) {
    forall i :: 0 <= i < |t| ==> t[i].size == size && lo < t[i].done <= hi
  }

  predicate StrictlyIncreasing(t: seq<Fraction>) {
    forall i, j :: 0 <= i < j < |t| ==> t[i].done < t[j].done
  }

  /**
   * Every callback value has the expected size as denominator; the running totals
   * strictly increase, stay above `before` and never pass the bytes received.
   */
  lemma {:induction false} TraceIncreasing(chunks: seq<Chunk>, before: nat, size: int)
    ensures TotalsWithin(Trace(chunks, before, size), before, before + |Concat(chunks)|, size)
    ensures StrictlyIncreasing(Trace(chunks, before, size))
  {
    if chunks != [] {
      var next := if chunks[0] == [] then before else before + |chunks[0]|;
      TraceIncreasing(chunks[1..], next, size);
      var t, rest := Trace(chunks, before, size), Trace(chunks[1..], next, size);
      assert before + |Concat(chunks)| == next + |Concat(chunks[1..])|;
      if chunks[0] != [] {
        assert t == [Fraction(next, size)] + rest;
        forall i, j | 0 <= i < j < |t| ensures t[i].done < t[j].done {
          assert t[j] == rest[j - 1];
          if i > 0 { assert t[i] == rest[i - 1]; }
        }
      } else {
        assert t == rest;
      }
    }
  }

  /**
   * The callback fires at all exactly when some byte arrives, and then its last value
   * carries the total number of bytes received.
   */
  lemma {:induction false} TraceLast(chunks: seq<Chunk>, before: nat, size: int)
    ensures var t := Trace(chunks, before, size);
      && (t == [] <==> Concat(chunks) == [])
      && (t != [] ==> t[|t| - 1] == Fraction(before + |Concat(chunks)|, size))
  {
    if chunks != [] {
      var next := if chunks[0] == [] then before else before + |chunks[0]|;
      TraceLast(chunks[1..], next, size);
    }
  }

  /** For a positive expected size the progress values never decrease. */
  lemma TraceNonDecreasing(chunks: seq<Chunk>, before: nat, size: int)
    requires size > 0
    ensures var t := Trace(chunks, before, size);
      forall i, j :: 0 <= i < j < |t| ==> t[i].AtMost(t[j])
  {
    var t := Trace(chunks, before, size);
    TraceIncreasing(chunks, before, size);
    forall i, j | 0 <= i < j < |t| ensures t[i].AtMost(t[j]) {
      assert t[i].done <= t[j].done && t[i].size == t[j].size == size;
      MulMonotone(t[i].done, t[j].done, size);
    }
  }

  /** Whatever the expected size, a value with a positive denominator is at most every later value. */
  lemma TraceAtMost(chunks: seq<Chunk>, before: nat, size: int)
    ensures var t := Trace(chunks, before, size);
      forall i, j :: 0 <= i < j < |t| && t[i].size > 0 ==> t[i].AtMost(t[j])
  {
    if size > 0 {
      TraceNonDecreasing(chunks, before, size);
    } else {
      TraceIncreasing(chunks, before, size);
    }
  }

  lemma MulMonotone(a: nat, b: nat, k: nat)
    requires a <= b
    ensures a * k <= b * k
  {
  }
}
