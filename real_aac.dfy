/** AAC sub-frame splitting of the RealMedia reader (deliver_aac_frames,
    r_real.cpp): a chunk holds a count in the high nibble of its second
    byte, a table of big-endian 16-bit sizes, then the sub-frames. */
module RealAac {
  import opened Common

  /** Sum of a list of sizes. */
  function Sum(xs: seq<nat>): nat
  {
    if xs == [] then 0 else Sum(xs[..|xs| - 1]) + xs[|xs| - 1]
  }

  /** The number of sub-frames the chunk announces. */
  function SubFrameCount(chunk: seq<byte>): nat
    requires 2 <= |chunk|
  {
    chunk[1] / 16
  }

  /** The size table: the i-th big-endian 16-bit word after the first two bytes. */
  function SubLengths(chunk: seq<byte>, n: nat): (r: seq<nat>)
    requires 2 + 2 * n <= |chunk|
    ensures |r| == n && forall i :: 0 <= i < n ==> r[i] == U16Be(chunk, 2 + 2 * i)
  {
    seq(n, i requires 0 <= i < n => U16Be(chunk, 2 + 2 * i))
  }

  /** `data` cut into consecutive pieces of the given sizes. */
  function Split(data: seq<byte>, lens: seq<nat>): (r: seq<seq<byte>>)
    requires Sum(lens) == |data|
    ensures |r| == |lens|
    decreases |lens|
  {
    if lens == [] then []
    else
      var last := lens[|lens| - 1];
      Split(data[..|data| - last], lens[..|lens| - 1]) + [data[|data| - last..]]
  }

  /** The i-th piece has the i-th size and starts where the sizes before it
      end. */
  lemma {:induction false} SplitPiece(data: seq<byte>, lens: seq<nat>, i: nat)
    requires Sum(lens) == |data| && i < |lens|
    ensures Sum(lens[..i]) + lens[i] <= |data|
    ensures Split(data, lens)[i] == data[Sum(lens[..i])..Sum(lens[..i]) + lens[i]]
    decreases |lens|
  {
    var init, last := lens[..|lens| - 1], lens[|lens| - 1];
    var front := data[..|data| - last];
    assert Split(data, lens) == Split(front, init) + [data[|data| - last..]];
    if i < |init| {
      SplitPiece(front, init, i);
      assert init[..i] == lens[..i] && init[i] == lens[i];
      var a := Sum(lens[..i]);
      assert Split(data, lens)[i] == Split(front, init)[i];
      assert front[a..a + lens[i]] == data[a..a + lens[i]];
    } else {
      assert lens[..i] == init;
    }
  }

  /** The pieces put back together are the data. */
  lemma {:induction false} SplitConcat(data: seq<byte>, lens: seq<nat>)
    requires Sum(lens) == |data|
    ensures Concat(Split(data, lens)) == data
    decreases |lens|
  {
    if lens != [] {
      var init, last := lens[..|lens| - 1], lens[|lens| - 1];
      var r := Split(data, lens);
      SplitConcat(data[..|data| - last], init);
      assert r[..|r| - 1] == Split(data[..|data| - last], init);
    }
  }

  /** The sub-frames deliver_aac_frames hands to the packetizer, in order:
      none when the chunk is shorter than 2 bytes, shorter than its size
      table, or when 2 + 2n + the sizes differs from its length. */
  function AacSubFrames(chunk: seq<byte>): (r: seq<seq<byte>>)
  {
    if |chunk| < 2 then []
    else
      var n := SubFrameCount(chunk);
      if |chunk| < 2 + 2 * n then []
      else
        var lens := SubLengths(chunk, n);
        if 2 + 2 * n + Sum(lens) != |chunk| then []
        else Split(chunk[2 + 2 * n..], lens)
  }

  /** A well-formed chunk yields exactly n sub-frames, the i-th of the i-th
      announced size, which together are the chunk after the size table. */
  lemma AacSplitsChunk(chunk: seq<byte>)
    requires 2 <= |chunk|
    requires 2 + 2 * SubFrameCount(chunk) <= |chunk|
    requires 2 + 2 * SubFrameCount(chunk) + Sum(SubLengths(chunk, SubFrameCount(chunk))) == |chunk|
    ensures var n := SubFrameCount(chunk);
            var r := AacSubFrames(chunk);
            |r| == n &&
            (forall i :: 0 <= i < n ==> |r[i]| == U16Be(chunk, 2 + 2 * i)) &&
            Concat(r) == chunk[2 + 2 * n..]
  {
    var n := SubFrameCount(chunk);
    var data, lens := chunk[2 + 2 * n..], SubLengths(chunk, n);
    assert AacSubFrames(chunk) == Split(data, lens);
    SplitConcat(data, lens);
    forall i | 0 <= i < n
      ensures |Split(data, lens)[i]| == U16Be(chunk, 2 + 2 * i)
    {
      SplitPiece(data, lens, i);
    }
  }

  /** A malformed chunk yields nothing. */
  lemma AacRejects(chunk: seq<byte>)
    requires |chunk| < 2 || |chunk| < 2 + 2 * SubFrameCount(chunk) ||
             2 + 2 * SubFrameCount(chunk) + Sum(SubLengths(chunk, SubFrameCount(chunk))) != |chunk|
    ensures AacSubFrames(chunk) == []
  {
  }

  /** Appending one size to the table appends one piece. */
  lemma SplitSnoc(data: seq<byte>, lens: seq<nat>, i: nat)
    requires i < |lens| && Sum(lens[..i + 1]) <= |data|
    ensures Sum(lens[..i + 1]) == Sum(lens[..i]) + lens[i]
    ensures Split(data[..Sum(lens[..i + 1])], lens[..i + 1]) ==
            Split(data[..Sum(lens[..i])], lens[..i]) + [data[Sum(lens[..i])..Sum(lens[..i + 1])]]
  {
    var l := lens[..i + 1];
    assert l[..i] == lens[..i];
    var s0, s1 := Sum(lens[..i]), Sum(l);
    var d := data[..s1];
    assert d[..|d| - lens[i]] == data[..s0];
    assert d[|d| - lens[i]..] == data[s0..s1];
  }

  /** deliver_aac_frames' first pass: 2 + 2n plus the announced sizes. */
  method LengthCheck(chunk: seq<byte>, n: nat) returns (lenCheck: nat)
    requires 2 + 2 * n <= |chunk|
    ensures lenCheck == 2 + 2 * n + Sum(SubLengths(chunk, n))
  {
    ghost var lens := SubLengths(chunk, n);
    lenCheck := 2 + n * 2;
    var i := 0;
    while i < n
      invariant 0 <= i <= n && lenCheck == 2 + 2 * n + Sum(lens[..i])
    {
      assert lens[..i + 1][..i] == lens[..i];
      lenCheck := lenCheck + U16Be(chunk, 2 + i * 2);
      i := i + 1;
    }
    assert lens[..n] == lens;
  }

  /** The size table fits and the sizes add up to the chunk. */
  predicate WellCut(chunk: seq<byte>, n: nat)
  {
    2 + 2 * n <= |chunk| && 2 + 2 * n + Sum(SubLengths(chunk, n)) == |chunk|
  }

  /** Where the i-th sub-frame starts in the chunk. */
  ghost function CutEnd(chunk: seq<byte>, n: nat, i: nat): (r: nat)
    requires WellCut(chunk, n) && i <= n
    ensures r <= |chunk|
  {
    var lens := SubLengths(chunk, n);
    SumPrefix(lens, i);
    2 + 2 * n + Sum(lens[..i])
  }

  /** The first i sub-frames. */
  ghost function Cut(chunk: seq<byte>, n: nat, i: nat): seq<seq<byte>>
    requires WellCut(chunk, n) && i <= n
  {
    var lens := SubLengths(chunk, n);
    SumPrefix(lens, i);
    Split(chunk[2 + 2 * n..][..Sum(lens[..i])], lens[..i])
  }

  /** deliver_aac_frames' second pass: each sub-frame starts where the
      previous one ended. */
  method CutSubFrames(chunk: seq<byte>, n: nat) returns (frames: seq<seq<byte>>)
    requires 2 + 2 * n <= |chunk| && 2 + 2 * n + Sum(SubLengths(chunk, n)) == |chunk|
    ensures frames == Split(chunk[2 + 2 * n..], SubLengths(chunk, n))
  {
    var dataIdx := 2 + 2 * n;
    frames := [];
    var i := 0;
    CutFirst(chunk, n);
    while i < n
      invariant i <= n && dataIdx == CutEnd(chunk, n, i)
      invariant frames == Cut(chunk, n, i)
    {
      CutStep(chunk, n, i);
      var subLength := U16Be(chunk, 2 + 2 * i);
      frames := frames + [chunk[dataIdx..dataIdx + subLength]];
      dataIdx := dataIdx + subLength;
      i := i + 1;
    }
    CutLast(chunk, n);
  }

  /** Before the first pass nothing is cut. */
  lemma CutFirst(chunk: seq<byte>, n: nat)
    requires WellCut(chunk, n)
    ensures CutEnd(chunk, n, 0) == 2 + 2 * n && Cut(chunk, n, 0) == []
  {
    assert SubLengths(chunk, n)[..0] == [];
  }

  /** After the last pass the whole chunk is cut. */
  lemma CutLast(chunk: seq<byte>, n: nat)
    requires WellCut(chunk, n)
    ensures Cut(chunk, n, n) == Split(chunk[2 + 2 * n..], SubLengths(chunk, n))
  {
    var lens := SubLengths(chunk, n);
    assert lens[..n] == lens;
    assert chunk[2 + 2 * n..][..Sum(lens)] == chunk[2 + 2 * n..];
  }

  /** One pass of the cut: the next piece is the next `size` bytes of the
      chunk after the table. */
  lemma CutStep(chunk: seq<byte>, n: nat, i: nat)
    requires WellCut(chunk, n) && i < n
    ensures CutEnd(chunk, n, i + 1) == CutEnd(chunk, n, i) + U16Be(chunk, 2 + 2 * i)
    ensures Cut(chunk, n, i + 1) == Cut(chunk, n, i) + [chunk[CutEnd(chunk, n, i)..CutEnd(chunk, n, i + 1)]]
  {
    var lens := SubLengths(chunk, n);
    var data := chunk[2 + 2 * n..];
    SumPrefix(lens, i + 1);
    var a, b := Sum(lens[..i]), Sum(lens[..i + 1]);
    assert b == a + lens[i] by {
      assert lens[..i + 1][..i] == lens[..i];
    }
    assert Split(data[..b], lens[..i + 1]) == Split(data[..a], lens[..i]) + [chunk[2 + 2 * n + a..2 + 2 * n + b]] by {
      SplitSnoc(data, lens, i);
      assert data[a..b] == chunk[2 + 2 * n + a..2 + 2 * n + b];
    }
  }

  /** deliver_aac_frames' checks and cut. */
  method SplitAacFrames(chunk: seq<byte>) returns (frames: seq<seq<byte>>)
    ensures frames == AacSubFrames(chunk)
  {
    if |chunk| < 2 {
      return [];
    }
    var n := chunk[1] / 16;
    if |chunk| < 2 + n * 2 {
      return [];
    }
    var lenCheck := LengthCheck(chunk, n);
    if lenCheck != |chunk| {
      return [];
    }
    frames := CutSubFrames(chunk, n);
  }

  /** The sum of a prefix of sizes is at most the whole sum. */
  lemma {:induction false} SumPrefix(xs: seq<nat>, i: nat)
    requires i <= |xs|
    ensures Sum(xs[..i]) <= Sum(xs)
    decreases |xs|
  {
    if i < |xs| {
      SumPrefix(xs[..|xs| - 1], i);
      assert xs[..|xs| - 1][..i] == xs[..i];
    } else {
      assert xs[..i] == xs;
    }
  }
}
