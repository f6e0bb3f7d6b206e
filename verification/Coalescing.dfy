/** Chunk coalescing of streamed listings (`registry_api/serialized_fragments.py`). */
module Coalescing {
  type Chunk = seq<bv8>

  function Concat(chunks: seq<Chunk>): Chunk {
    if |chunks| == 0 then [] else Concat(chunks[..|chunks| - 1]) + chunks[|chunks| - 1]
  }

  lemma ConcatAppend(chunks: seq<Chunk>, chunk: Chunk)
    ensures Concat(chunks + [chunk]) == Concat(chunks) + chunk
  {
  }

  /** Non-empty outputs, each within the target or a whole input, neighbours together above the target. */
  ghost predicate WellCut(out: seq<Chunk>, chunks: seq<Chunk>, target: nat) {
    && (forall i | 0 <= i < |out| :: |out[i]| > 0 && (|out[i]| <= target || out[i] in chunks))
    && (forall i | 0 <= i < |out| - 1 :: |out[i]| + |out[i + 1]| > target)
  }

  /** The last output and the buffer do not fit together, unless nothing has been put out. */
  predicate Overflows(out: seq<Chunk>, buffer: Chunk, target: nat) {
    |out| > 0 ==> |out[|out| - 1]| + |buffer| > target || (buffer == [] && |out[|out| - 1]| >= target)
  }

  lemma EmitKeepsCut(out: seq<Chunk>, chunk: Chunk, chunks: seq<Chunk>, target: nat)
    requires WellCut(out, chunks, target) && |chunk| > 0 && (|chunk| <= target || chunk in chunks)
    requires |out| > 0 ==> |out[|out| - 1]| + |chunk| > target
    ensures WellCut(out + [chunk], chunks, target)
  {
  }

  method Flush(out: seq<Chunk>, buffer: Chunk, ghost chunks: seq<Chunk>, target: nat) returns (more: seq<Chunk>)
    requires WellCut(out, chunks, target) && 0 < |buffer| <= target && Overflows(out, buffer, target)
    ensures more == out + [buffer] && WellCut(more, chunks, target) && Concat(more) == Concat(out) + buffer
  {
    EmitKeepsCut(out, buffer, chunks, target);
    ConcatAppend(out, buffer);
    more := out + [buffer];
  }

  /** Start afresh with what does not fit, if there is anything to put out first. */
  method Drain(out: seq<Chunk>, buffer: Chunk, ghost chunks: seq<Chunk>, target: nat) returns (more: seq<Chunk>)
    requires WellCut(out, chunks, target) && |buffer| <= target && Overflows(out, buffer, target)
    ensures more == (if buffer == [] then out else out + [buffer])
    ensures WellCut(more, chunks, target) && Concat(more) == Concat(out) + buffer
  {
    if buffer == [] { return out; }
    more := Flush(out, buffer, chunks, target);
  }

  /** One turn of the loop for a chunk that fills a part of its own. */
  method PutLarge(out: seq<Chunk>, buffer: Chunk, chunk: Chunk, ghost chunks: seq<Chunk>, target: nat)
    returns (more: seq<Chunk>)
    requires 0 < target <= |chunk| && chunk in chunks
    requires WellCut(out, chunks, target) && |buffer| <= target && Overflows(out, buffer, target)
    ensures WellCut(more, chunks, target) && Overflows(more, [], target)
    ensures Concat(more) == Concat(out) + buffer + chunk
  {
    more := Drain(out, buffer, chunks, target);
    EmitKeepsCut(more, chunk, chunks, target);
    ConcatAppend(more, chunk);
    more := more + [chunk];
  }

  /** One turn of the loop for a smaller chunk. */
  method PutSmall(out: seq<Chunk>, buffer: Chunk, chunk: Chunk, ghost chunks: seq<Chunk>, target: nat)
    returns (more: seq<Chunk>, rest: Chunk)
    requires |chunk| < target && WellCut(out, chunks, target) && |buffer| <= target && Overflows(out, buffer, target)
    ensures WellCut(more, chunks, target) && |rest| <= target && Overflows(more, rest, target)
    ensures Concat(more) + rest == Concat(out) + buffer + chunk
  {
    if |buffer| + |chunk| <= target {
      assert Concat(out) + (buffer + chunk) == Concat(out) + buffer + chunk;
      return out, buffer + chunk;
    }
    more := Flush(out, buffer, chunks, target);
    rest := chunk;
  }

  /** `_coalesce_bytes`. */
  method Coalesce(chunks: seq<Chunk>, target: nat) returns (out: seq<Chunk>)
    requires target > 0
    ensures Concat(out) == Concat(chunks) && WellCut(out, chunks, target)
  {
    out := [];
    var buffer: Chunk := [];
    var i := 0;
    while i < |chunks|
      invariant i <= |chunks| && Concat(out) + buffer == Concat(chunks[..i])
      invariant WellCut(out, chunks, target) && |buffer| <= target && Overflows(out, buffer, target)
    {
      ConcatAppend(chunks[..i], chunks[i]);
      assert chunks[..i + 1] == chunks[..i] + [chunks[i]];
      if |chunks[i]| >= target {
        out := PutLarge(out, buffer, chunks[i], chunks, target);
        buffer := [];
      } else {
        out, buffer := PutSmall(out, buffer, chunks[i], chunks, target);
      }
      i := i + 1;
    }
    assert chunks[..i] == chunks;
    if buffer != [] { out := Flush(out, buffer, chunks, target); }
  }

  lemma OneMoreTime(n: nat, size: nat)
    ensures (n + 1) * size == n * size + size
  {
  }

  lemma LastTwo(out: seq<Chunk>)
    requires |out| >= 2
    ensures |Concat(out)| == |Concat(out[..|out| - 2])| + |out[|out| - 2]| + |out[|out| - 1]|
  {
    var n := |out| - 2;
    assert out[..n + 1][..n] == out[..n];
  }

  /** The number of outputs is at most about twice the total over the target, plus one. */
  lemma {:induction false} FewChunks(out: seq<Chunk>, chunks: seq<Chunk>, target: nat)
    requires WellCut(out, chunks, target)
    ensures (|out| / 2) * (target + 1) <= |Concat(out)|
  {
    if |out| >= 2 {
      var rest := out[..|out| - 2];
      FewChunks(rest, chunks, target);
      LastTwo(out);
      OneMoreTime(|rest| / 2, target + 1);
      assert |out| / 2 == |rest| / 2 + 1;
    } else {
      assert |out| / 2 == 0;
    }
  }
}
