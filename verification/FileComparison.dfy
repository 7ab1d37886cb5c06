/** The chunked comparison of two files: the first offset at which they differ. */
module FileComparison {
  import opened Outcomes

  type Bytes = seq<bv8>

  /** An open file: what is left to read. */
  class File {
    var left: Bytes

    constructor (content: Bytes)
      ensures left == content
    {
      left := content;
    }

    /** The next `size` bytes, fewer only at the end of the file. */
    method Read(size: nat) returns (chunk: Bytes)
      modifies this
      ensures chunk + left == old(left)
      ensures |chunk| == if size < |old(left)| then size else |old(left)|
    {
      var n := if size < |left| then size else |left|;
      chunk, left := left[..n], left[n..];
    }
  }

  /** The files agree before k, and differ or one of them ends there. */
  predicate FirstDifferenceAt(a: Bytes, b: Bytes, k: nat) {
    && k <= |a| && k <= |b| && a[..k] == b[..k] && a != b
    && (k < |a| && k < |b| ==> a[k] != b[k])
  }

  /** A chunk of at most `size` bytes read at `offset`. */
  predicate IsChunk(chunk: Bytes, file: Bytes, offset: nat, size: nat)
    requires offset <= |file|
  {
    chunk <= file[offset..] && |chunk| == if size < |file| - offset then size else |file| - offset
  }

  lemma DifferenceInChunk(a: Bytes, b: Bytes, offset: nat, size: nat, lhs: Bytes, rhs: Bytes, k: nat)
    requires offset <= |a| && offset <= |b| && a[..offset] == b[..offset]
    requires IsChunk(lhs, a, offset, size) && IsChunk(rhs, b, offset, size) && lhs != rhs
    requires k <= |lhs| && k <= |rhs| && lhs[..k] == rhs[..k]
    requires if k < |lhs| && k < |rhs| then lhs[k] != rhs[k] else k == |lhs| || k == |rhs|
    ensures FirstDifferenceAt(a, b, offset + k)
  {
    assert a[..offset + k] == a[..offset] + lhs[..k];
    assert b[..offset + k] == b[..offset] + rhs[..k];
    assert lhs[..|lhs|] == lhs && rhs[..|rhs|] == rhs;
    assert lhs == a[offset..][..|lhs|] && rhs == b[offset..][..|rhs|];
  }

  /** The offset of the first mismatch, whatever the size of the chunks. */
  method FirstMismatch(expected: File, actual: File, chunkSize: nat) returns (mismatch: Option<nat>)
    requires chunkSize > 0 && expected != actual
    modifies expected, actual
    ensures mismatch.None? <==> old(expected.left) == old(actual.left)
    ensures mismatch.Some? ==> FirstDifferenceAt(old(expected.left), old(actual.left), mismatch.value)
  {
    ghost var a, b := expected.left, actual.left;
    var offset := 0;
    while true
      invariant 0 <= offset <= |a| && offset <= |b| && a[..offset] == b[..offset]
      invariant expected.left == a[offset..] && actual.left == b[offset..]
      decreases |expected.left|
    {
      var lhs := expected.Read(chunkSize);
      var rhs := actual.Read(chunkSize);
      if lhs == rhs {
        if lhs == [] {
          assert a == b;
          return None;
        }
        assert a[..offset + |lhs|] == a[..offset] + lhs && b[..offset + |lhs|] == b[..offset] + rhs;
        offset := offset + |lhs|;
        continue;
      }
      var index := 0;
      while index < |lhs| && index < |rhs| && lhs[index] == rhs[index]
        invariant index <= |lhs| && index <= |rhs| && lhs[..index] == rhs[..index]
      {
        index := index + 1;
      }
      DifferenceInChunk(a, b, offset, chunkSize, lhs, rhs, index);
      return Some(offset + index);
    }
  }
}
