/**
 The token counts of data-parallel ranks, shared out over sequence-parallel ranks and
 cut into chunks that all ranks run in lockstep.
 */
module ChunkSizes {
  import opened Wrappers

  function CeilDiv(a: nat, b: nat): (r: nat)
    requires b >= 1
    ensures a <= r * b < a + b
  {
    var q, m := (a + b - 1) / b, (a + b - 1) % b;
    assert a + b - 1 == q * b + m;
    q
  }

  function Repeated(x: nat, times: nat): (r: seq<nat>)
    ensures |r| == times && forall i :: 0 <= i < times ==> r[i] == x
  {
    seq(times, _ => x)
  }

  /** Each count divided over the sequence-parallel ranks, rounding up, and repeated for
      each of them. */
  function SpNumTokens(numTokens: seq<nat>, spSize: nat): seq<nat>
    requires spSize >= 1
  {
    if numTokens == [] then []
    else SpNumTokens(numTokens[..|numTokens| - 1], spSize)
         + Repeated(CeilDiv(numTokens[|numTokens| - 1], spSize), spSize)
  }

  function Min(a: int, b: int): int {
    if a < b then a else b
  }

  function Max(a: int, b: int): int {
    if a < b then b else a
  }

  /** The size of one chunk on a rank with s tokens: at least 1, to stay in lockstep. */
  function LocalSize(s: nat, maxNumTokens: nat, chunkIdx: nat): int {
    var x := Min(maxNumTokens, s - maxNumTokens * chunkIdx);
    if x <= 0 then 1 else x
  }

  class DpMetadata {
    const numTokensAcrossDp: seq<nat>
    var localSizes: Option<seq<int>>

    constructor (numTokens: seq<nat>)
      ensures numTokensAcrossDp == numTokens && localSizes == None
    {
      numTokensAcrossDp := numTokens;
      localSizes := None;
    }

    /** On entering the context of one chunk. */
    method EnterChunk(spSize: nat, maxChunkSizePerRank: nat, chunkIdx: nat)
      requires spSize >= 1
      modifies this
      ensures var sp := SpNumTokens(numTokensAcrossDp, spSize);
              && localSizes.Some? && |localSizes.value| == |sp|
              && forall i :: 0 <= i < |sp| ==> localSizes.value[i] == LocalSize(sp[i], maxChunkSizePerRank, chunkIdx)
    {
      var spTokens := SpNumTokens(numTokensAcrossDp, spSize);
      var localSize: seq<int> := seq(|spTokens|, _ => -1);
      for i := 0 to |spTokens|
        invariant |localSize| == |spTokens|
        invariant forall j :: 0 <= j < i ==> localSize[j] == LocalSize(spTokens[j], maxChunkSizePerRank, chunkIdx)
      {
        localSize := localSize[i := Min(maxChunkSizePerRank, spTokens[i] - maxChunkSizePerRank * chunkIdx)];
        if localSize[i] <= 0 {
          localSize := localSize[i := 1];
        }
      }
      localSizes := Some(localSize);
    }

    method LeaveChunk()
      modifies this
      ensures localSizes == None
    {
      localSizes := None;
    }
  }

  // ------------------------------------------------------------- chunks tile the work

  /** The sizes of the first c chunks together. */
  function SizesBefore(s: nat, m: nat, c: nat): int {
    if c == 0 then 0 else SizesBefore(s, m, c - 1) + LocalSize(s, m, c - 1)
  }

  /** The chunks among the first c that start behind the last token. */
  function IdleBefore(s: nat, m: nat, c: nat): nat {
    if c == 0 then 0 else IdleBefore(s, m, c - 1) + if m * (c - 1) >= s then 1 else 0
  }

  lemma SizeInRange(s: nat, m: nat, c: nat)
    requires m >= 1
    ensures 1 <= LocalSize(s, m, c) <= m
  {
  }

  /** The first c chunks hold as many of the tokens as they can, and a dummy token for
      each idle one. */
  lemma {:induction false} FirstChunks(s: nat, m: nat, c: nat)
    requires m >= 1
    ensures SizesBefore(s, m, c) == Min(s, m * c) + IdleBefore(s, m, c)
  {
    if c > 0 {
      FirstChunks(s, m, c - 1);
      assert m * c == m * (c - 1) + m;
    }
  }

  /** Every token lies in exactly one chunk, the one that its position falls in. */
  lemma TokenInOneChunk(s: nat, m: nat, t: nat, c: nat)
    requires m >= 1 && t < s
    ensures m * c < s && m * c <= t < m * c + LocalSize(s, m, c) <==> c == t / m
  {
    var q := t / m;
    assert t == m * q + t % m;
    if c < q {
      MulLe(m, c + 1, q);
    } else if c > q {
      MulLe(m, q + 1, c);
    }
  }

  lemma MulLe(m: nat, a: int, b: int)
    requires a <= b
    ensures m * a <= m * b
  {
  }

  lemma {:induction false} IdleCount(s: nat, m: nat, c: nat)
    requires m >= 1
    ensures IdleBefore(s, m, c) == Max(0, c - CeilDiv(s, m))
  {
    if c > 0 {
      IdleCount(s, m, c - 1);
      var k := CeilDiv(s, m);
      assert k * m == m * k;
      if c - 1 < k {
        MulLe(m, c, k);
        assert m * c == m * (c - 1) + m;
      } else {
        MulLe(m, k, c - 1);
      }
    }
  }

  lemma {:induction false} CeilDivMonotone(a: nat, b: nat, m: nat)
    requires m >= 1 && a <= b
    ensures CeilDiv(a, m) <= CeilDiv(b, m)
  {
    var p, q := CeilDiv(a, m), CeilDiv(b, m);
    if q < p {
      MulLe(m, q + 1, p);
    }
  }

  /** Over as many chunks as the fullest rank needs, every rank runs its own tokens once,
      and one dummy token in each chunk that the others need and it does not. */
  lemma AllChunks(s: nat, most: nat, m: nat)
    requires m >= 1 && s <= most
    ensures SizesBefore(s, m, CeilDiv(most, m)) == s + (CeilDiv(most, m) - CeilDiv(s, m))
  {
    var c := CeilDiv(most, m);
    FirstChunks(s, m, c);
    IdleCount(s, m, c);
    CeilDivMonotone(s, most, m);
    assert m * c == c * m;
  }

  // ---------------------------------------------------------- sequence-parallel ranks

  function Sum(s: seq<nat>): nat {
    if s == [] then 0 else Sum(s[..|s| - 1]) + s[|s| - 1]
  }

  /** torch.cumsum of the counts computed as for the chunks. */
  method CuTokensAcrossSp(numTokens: seq<nat>, spSize: nat) returns (cumulative: seq<nat>)
    requires spSize >= 1
    ensures |cumulative| == |numTokens| * spSize == |SpNumTokens(numTokens, spSize)|
    ensures forall i :: 0 <= i < |cumulative| ==> cumulative[i] == Sum(SpNumTokens(numTokens, spSize)[..i + 1])
  {
    var counts := SpNumTokens(numTokens, spSize);
    CountOfRanks(numTokens, spSize);
    hide SpNumTokens;
    cumulative := [];
    var total := 0;
    for i := 0 to |counts|
      invariant |cumulative| == i && total == Sum(counts[..i])
      invariant forall j :: 0 <= j < i ==> cumulative[j] == Sum(counts[..j + 1])
    {
      SumNext(counts, i);
      total := total + counts[i];
      cumulative := cumulative + [total];
    }
  }

  lemma SumNext(s: seq<nat>, i: nat)
    requires i < |s|
    ensures Sum(s[..i + 1]) == Sum(s[..i]) + s[i]
  {
    assert s[..i + 1][..i] == s[..i];
  }

  lemma {:induction false} CountOfRanks(numTokens: seq<nat>, spSize: nat)
    requires spSize >= 1
    ensures |SpNumTokens(numTokens, spSize)| == |numTokens| * spSize
  {
    if numTokens != [] {
      CountOfRanks(numTokens[..|numTokens| - 1], spSize);
      assert (|numTokens| - 1) * spSize + spSize == |numTokens| * spSize;
    }
  }

  /** Entry j of data-parallel rank p is the count of that rank divided over its
      sequence-parallel ranks. */
  lemma {:induction false} SpEntry(numTokens: seq<nat>, spSize: nat, p: nat, j: nat)
    requires p < |numTokens| && j < spSize
    ensures p * spSize + j < |SpNumTokens(numTokens, spSize)| == |numTokens| * spSize
    ensures SpNumTokens(numTokens, spSize)[p * spSize + j] == CeilDiv(numTokens[p], spSize)
  {
    var last := |numTokens| - 1;
    CountOfRanks(numTokens, spSize);
    CountOfRanks(numTokens[..last], spSize);
    SpNumTokensNext(numTokens, spSize);
    hide SpNumTokens, CeilDiv;
    assert last * spSize + spSize == |numTokens| * spSize;
    if p < last {
      SpEntry(numTokens[..last], spSize, p, j);
    }
  }

  lemma SpNumTokensNext(numTokens: seq<nat>, spSize: nat)
    requires numTokens != [] && spSize >= 1
    ensures var last := |numTokens| - 1;
            SpNumTokens(numTokens, spSize)
            == SpNumTokens(numTokens[..last], spSize) + Repeated(CeilDiv(numTokens[last], spSize), spSize)
  {
    hide CeilDiv, Repeated;
  }

  lemma {:induction false} SumConcat(s: seq<nat>, t: seq<nat>)
    ensures Sum(s + t) == Sum(s) + Sum(t)
  {
    if t == [] {
      assert s + t == s;
    } else {
      assert (s + t)[..|s + t| - 1] == s + t[..|t| - 1];
      SumConcat(s, t[..|t| - 1]);
    }
  }

  lemma {:induction false} SumRepeated(x: nat, times: nat)
    ensures Sum(Repeated(x, times)) == x * times
  {
    if times > 0 {
      SumRepeated(x, times - 1);
      assert Repeated(x, times)[..times - 1] == Repeated(x, times - 1);
      assert x * (times - 1) + x == x * times;
    }
  }

  /** Rounding up never loses a token, and pads fewer than one token for each rank. */
  lemma {:induction false} PaddingBounded(numTokens: seq<nat>, spSize: nat)
    requires spSize >= 1
    ensures Sum(numTokens) <= Sum(SpNumTokens(numTokens, spSize))
    ensures numTokens != [] ==> Sum(SpNumTokens(numTokens, spSize)) < Sum(numTokens) + |numTokens| * spSize
  {
    if numTokens != [] {
      var front, n := numTokens[..|numTokens| - 1], numTokens[|numTokens| - 1];
      PaddingBounded(front, spSize);
      SumConcat(SpNumTokens(front, spSize), Repeated(CeilDiv(n, spSize), spSize));
      SumRepeated(CeilDiv(n, spSize), spSize);
      assert (|numTokens| - 1) * spSize + spSize == |numTokens| * spSize;
    }
  }
}
