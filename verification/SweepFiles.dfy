/**
Sampler files sweep by sweep: a file whose lines come in blocks, one consistent block per sample
index, parses into exactly the sweeps of its blocks.
 */
module SweepFiles {
  import opened Lists
  import opened PowerEvidence
  import opened PowerConservation

  type Blocks = seq<seq<Row>>

  /** The lines of one sweep: one index, one time, no rail twice. */
  predicate IsBlock(block: seq<Row>, sample: int) {
    && block != []
    && (forall q | 0 <= q < |block| :: block[q].sample == sample && IsClose(block[0].timestamp, block[q].timestamp))
    && forall p, q | 0 <= p < q < |block| :: RailKey(block[p]) != RailKey(block[q])
  }

  predicate AreBlocks(blocks: Blocks) {
    forall k | 0 <= k < |blocks| :: IsBlock(blocks[k], k)
  }

  /** The file after all blocks. */
  function FileOf(blocks: Blocks): seq<Row> {
    if blocks == [] then [] else FileOf(blocks[..|blocks| - 1]) + blocks[|blocks| - 1]
  }

  function SampleOrder(n: nat): seq<int> {
    seq(n, k => k)
  }

  function SweepsOf(blocks: Blocks): Evidence
    requires AreBlocks(blocks)
  {
    seq(|blocks|, k requires 0 <= k < |blocks| => assert IsBlock(blocks[k], k); SweepOf(blocks[k]))
  }

  lemma {:induction false} RowsOfPrefix(a: seq<Row>, b: seq<Row>, n: nat, sample: int)
    requires n <= |a|
    ensures RowsBefore(a + b, n, sample) == RowsBefore(a, n, sample)
  {
    if n > 0 {
      RowsOfPrefix(a, b, n - 1, sample);
    }
  }

  /** The rows of one sweep in a file to which the first p lines of the sweep `own` have been appended. */
  lemma {:induction false} RowsOfAppended(before: seq<Row>, own: seq<Row>, p: nat, sample: int, other: int)
    requires p <= |own| && forall q | 0 <= q < |own| :: own[q].sample == sample
    ensures RowsBefore(before + own, |before| + p, other)
         == RowsOf(before, other) + (if other == sample then own[..p] else [])
  {
    if p == 0 {
      RowsOfPrefix(before, own, |before|, other);
    } else {
      RowsOfAppended(before, own, p - 1, sample, other);
      assert (before + own)[|before| + p - 1] == own[p - 1];
      assert own[..p] == own[..p - 1] + [own[p - 1]];
    }
  }

  lemma RowsOfLast(before: seq<Row>, last: seq<Row>, n: nat, sample: int)
    requires IsBlock(last, n)
    ensures RowsOf(before + last, sample) == if sample == n then RowsOf(before, n) + last else RowsOf(before, sample)
  {
    RowsOfAppended(before, last, |last|, n, sample);
    assert last[..|last|] == last;
    NothingMore(RowsOf(before, sample));
  }

  lemma {:induction false} RowsOfFile(blocks: Blocks, sample: int)
    requires AreBlocks(blocks)
    ensures RowsOf(FileOf(blocks), sample) == if 0 <= sample < |blocks| then blocks[sample] else []
  {
    if blocks != [] {
      var n := |blocks| - 1;
      RowsOfFile(blocks[..n], sample);
      assert IsBlock(blocks[n], n);
      RowsOfLast(FileOf(blocks[..n]), blocks[n], n, sample);
      NothingBefore(blocks[n]);
    }
  }

  lemma {:induction false} ReadingsOfRows(rows: seq<Row>)
    ensures |RailReadings(rows)| == |rows|
    ensures forall i | 0 <= i < |rows| :: RailReadings(rows)[i] == (RailKey(rows[i]), Watts(rows[i]))
  {
    if rows != [] {
      ReadingsOfRows(rows[..|rows| - 1]);
    }
  }

  /** Every line is consistent with the earlier lines of its sweep. */
  lemma {:induction false} FileIsConsistent(blocks: Blocks, i: nat)
    requires AreBlocks(blocks) && i < |FileOf(blocks)|
    ensures Consistent(FileOf(blocks), i)
  {
    var n := |blocks| - 1;
    var before, last := FileOf(blocks[..n]), blocks[n];
    if i < |before| {
      FileIsConsistent(blocks[..n], i);
      EarlierLine(before, last, i);
    } else {
      RowsOfFile(blocks[..n], n);
      assert IsBlock(last, n);
      LaterLine(before, last, n, i - |before|);
    }
  }

  lemma EarlierLine(before: seq<Row>, last: seq<Row>, i: nat)
    requires i < |before| && Consistent(before, i)
    ensures Consistent(before + last, i)
  {
    RowsOfPrefix(before, last, i, before[i].sample);
  }

  lemma KeyIsNew(block: seq<Row>, sample: int, p: nat)
    requires IsBlock(block, sample) && p < |block|
    ensures RailKey(block[p]) !in Keys(RailReadings(block[..p]))
  {
    ReadingsOfRows(block[..p]);
    forall q | 0 <= q < p
      ensures RailReadings(block[..p])[q].0 != RailKey(block[p])
    {
      assert RailKey(block[q]) != RailKey(block[p]);
    }
  }

  lemma LaterRows(before: seq<Row>, last: seq<Row>, sample: int, p: nat)
    requires p < |last| && RowsOf(before, sample) == [] && forall q | 0 <= q < |last| :: last[q].sample == sample
    ensures (before + last)[|before| + p] == last[p]
    ensures RowsBefore(before + last, |before| + p, sample) == last[..p]
  {
    RowsOfAppended(before, last, p, sample, sample);
    assert [] + last[..p] == last[..p];
  }

  lemma LaterLine(before: seq<Row>, last: seq<Row>, sample: int, p: nat)
    requires p < |last| && RowsOf(before, sample) == [] && IsBlock(last, sample)
    ensures Consistent(before + last, |before| + p)
  {
    KeyIsNew(last, sample, p);
    LaterRows(before, last, sample, p);
  }

  lemma FileIsEvidence(blocks: Blocks)
    requires AreBlocks(blocks)
    ensures IsEvidence(FileOf(blocks), SampleOrder(|blocks|), SweepsOf(blocks))
  {
    var rows, order := FileOf(blocks), SampleOrder(|blocks|);
    forall sample: int
      ensures sample in order <==> RowsOf(rows, sample) != []
      ensures 0 <= sample < |blocks| ==> RowsOf(rows, sample) == blocks[sample]
    {
      RowsOfFile(blocks, sample);
      if 0 <= sample < |blocks| { assert order[sample] == sample && IsBlock(blocks[sample], sample); }
    }
  }

  /** The file parses into the sweeps of its blocks. */
  lemma FileParses(blocks: Blocks)
    requires AreBlocks(blocks) && blocks != [] && SameRails(SweepsOf(blocks))
    ensures IsParsed(FileOf(blocks), SampleOrder(|blocks|), SweepsOf(blocks))
  {
    forall i | 0 <= i < |FileOf(blocks)|
      ensures Consistent(FileOf(blocks), i)
    {
      FileIsConsistent(blocks, i);
    }
    FileIsEvidence(blocks);
  }
}
