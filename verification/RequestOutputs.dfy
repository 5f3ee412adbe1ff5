/**
 Streaming outputs of a request: later outputs are merged into the first, by the index
 of their completions.
 */
module RequestOutputs {
  import opened Wrappers
  import FlatLogprobs

  type Positions = seq<map<int, FlatLogprobs.Logprob>>

  datatype Completion = Completion(
    index: int,
    text: string,
    tokenIds: seq<int>,
    cumulativeLogprob: Option<real>,
    logprobs: Option<Positions>,
    finishReason: Option<string>,
    stopReason: Option<string>)
  {
    /** None and an empty container both count as no logprobs. */
    predicate HasLogprobs() {
      logprobs.Some? && logprobs.value != []
    }
  }

  // -------------------------------------------------------------- merging, on values

  /** A later completion merged into an earlier one of the same index; None where
      logprobs arrive for a completion that has none, which fails an assertion. */
  function Combine(a: Completion, b: Completion, aggregate: bool): Option<Completion> {
    if !aggregate then Some(b)
    else if b.HasLogprobs() && a.logprobs.None? then None
    else Some(Completion(
      a.index, a.text + b.text, a.tokenIds + b.tokenIds, b.cumulativeLogprob,
      if b.HasLogprobs() then Some(a.logprobs.value + b.logprobs.value) else a.logprobs,
      b.finishReason, b.stopReason))
  }

  /** The first position with the index, or the length where there is none. */
  function Position(outs: seq<Completion>, index: int): (i: nat)
    ensures i <= |outs|
    ensures i < |outs| ==> outs[i].index == index
    ensures forall j :: 0 <= j < i ==> outs[j].index != index
  {
    if outs == [] || outs[0].index == index then 0 else 1 + Position(outs[1..], index)
  }

  function MergeOne(outs: Option<seq<Completion>>, c: Completion, aggregate: bool): Option<seq<Completion>> {
    if outs == None then None
    else
      var i := Position(outs.value, c.index);
      if i == |outs.value| then Some(outs.value + [c])
      else
        var both := Combine(outs.value[i], c, aggregate);
        if both == None then None else Some(outs.value[i := both.value])
  }

  function Merge(outs: Option<seq<Completion>>, next: seq<Completion>, aggregate: bool): Option<seq<Completion>> {
    if next == [] then outs
    else MergeOne(Merge(outs, next[..|next| - 1], aggregate), next[|next| - 1], aggregate)
  }

  predicate DistinctIndices(outs: seq<Completion>) {
    forall i, j :: 0 <= i < j < |outs| ==> outs[i].index != outs[j].index
  }

  // --------------------------------------------------------------------- the classes

  class CompletionOutput {
    var index: int
    var text: string
    var tokenIds: seq<int>
    var cumulativeLogprob: Option<real>
    var logprobs: Option<Positions>
    var finishReason: Option<string>
    var stopReason: Option<string>

    function Value(): Completion
      reads this
    {
      Completion(index, text, tokenIds, cumulativeLogprob, logprobs, finishReason, stopReason)
    }

    constructor (c: Completion)
      ensures Value() == c
    {
      index, text, tokenIds, cumulativeLogprob := c.index, c.text, c.tokenIds, c.cumulativeLogprob;
      logprobs, finishReason, stopReason := c.logprobs, c.finishReason, c.stopReason;
    }

    /** The aggregating branch, on the fields of the earlier completion; false is an
        assertion failure. */
    method Absorb(next: CompletionOutput) returns (ok: bool)
      requires next != this && next.index == index
      modifies this
      ensures ok <==> Combine(old(Value()), next.Value(), true).Some?
      ensures ok ==> Some(Value()) == Combine(old(Value()), next.Value(), true)
      ensures index == old(index)
    {
      text := text + next.text;
      tokenIds := tokenIds + next.tokenIds;
      if next.logprobs.Some? && next.logprobs.value != [] {
        if logprobs == None {
          return false;
        }
        logprobs := Some(logprobs.value + next.logprobs.value);
      }
      cumulativeLogprob := next.cumulativeLogprob;
      finishReason := next.finishReason;
      stopReason := next.stopReason;
      return true;
    }
  }

  ghost predicate DistinctObjects(s: seq<CompletionOutput>) {
    forall i, j :: 0 <= i < j < |s| ==> s[i] != s[j]
  }

  ghost predicate DisjointObjects(s: seq<CompletionOutput>, t: seq<CompletionOutput>) {
    forall i, j :: 0 <= i < |s| && 0 <= j < |t| ==> s[i] != t[j]
  }

  ghost predicate ComeFrom(s: seq<CompletionOutput>, a: seq<CompletionOutput>, b: seq<CompletionOutput>) {
    forall i :: 0 <= i < |s| ==> s[i] in a || s[i] in b
  }

  ghost function ValuesOf(s: seq<CompletionOutput>): (v: seq<Completion>)
    reads s
    ensures |v| == |s| && forall i :: 0 <= i < |s| ==> v[i] == s[i].Value()
  {
    seq(|s|, i requires 0 <= i < |s| reads s => s[i].Value())
  }

  class RequestOutput {
    var outputs: seq<CompletionOutput>
    var finished: bool
    var kvTransferParams: Option<string>

    constructor (outputs: seq<CompletionOutput>, finished: bool, kvTransferParams: Option<string>)
      ensures this.outputs == outputs && this.finished == finished && this.kvTransferParams == kvTransferParams
    {
      this.outputs, this.finished, this.kvTransferParams := outputs, finished, kvTransferParams;
    }

    /** One completion of the next output: the inner loop over the outputs so far. */
    method AddCompletion(next: CompletionOutput, aggregate: bool) returns (ok: bool)
      requires DistinctObjects(outputs) && next !in outputs
      modifies this`outputs, outputs
      ensures ok <==> MergeOne(Some(old(ValuesOf(outputs))), old(next.Value()), aggregate).Some?
      ensures ok ==> Some(ValuesOf(outputs)) == MergeOne(Some(old(ValuesOf(outputs))), old(next.Value()), aggregate)
      ensures ok ==> DistinctObjects(outputs) && ComeFrom(outputs, old(outputs), [next])
    {
      ghost var before := ValuesOf(outputs);
      for i := 0 to |outputs|
        invariant outputs == old(outputs) && ValuesOf(outputs) == before
        invariant next.Value() == old(next.Value())
        invariant forall j :: 0 <= j < i ==> before[j].index != next.index
      {
        if outputs[i].index == next.index {
          PositionIs(before, next.index, i);
          if aggregate {
            ok := outputs[i].Absorb(next);
            if !ok {
              return false;
            }
            assert ValuesOf(outputs) == before[i := outputs[i].Value()];
          } else {
            outputs := outputs[i := next];
            assert ValuesOf(outputs) == before[i := next.Value()];
          }
          return true;
        }
      }
      PositionIs(before, next.index, |before|);
      outputs := outputs + [next];
      assert ValuesOf(outputs) == before + [next.Value()];
      return true;
    }

    /** The outer loop, over the completions of the next output; false is an assertion
        failure in the middle of the merge. */
    method AddCompletions(coming: seq<CompletionOutput>, aggregate: bool) returns (ok: bool)
      requires DistinctObjects(outputs) && DistinctObjects(coming) && DisjointObjects(outputs, coming)
      modifies this`outputs, outputs, coming
      ensures ok <==> Merge(Some(old(ValuesOf(outputs))), old(ValuesOf(coming)), aggregate).Some?
      ensures ok ==> Some(ValuesOf(outputs)) == Merge(Some(old(ValuesOf(outputs))), old(ValuesOf(coming)), aggregate)
      ensures ok ==> DistinctObjects(outputs) && ComeFrom(outputs, old(outputs), coming)
    {
      hide MergeOne;
      ghost var before, values := ValuesOf(outputs), ValuesOf(coming);
      for j := 0 to |coming|
        invariant DistinctObjects(outputs) && DisjointObjects(outputs, coming[j..])
        invariant ComeFrom(outputs, old(outputs), coming)
        invariant forall k :: j <= k < |coming| ==> coming[k].Value() == values[k]
        invariant Some(ValuesOf(outputs)) == Merge(Some(before), values[..j], aggregate)
      {
        assert coming[j..][0] == coming[j];
        assert values[..j + 1][..j] == values[..j];
        ghost var was := outputs;
        var added := AddCompletion(coming[j], aggregate);
        if !added {
          MergeFailed(Some(before), values, j + 1, aggregate);
          return false;
        }
        StillApart(was, outputs, coming, j);
      }
      assert values[..|values|] == values;
      return true;
    }

    method Add(next: RequestOutput, aggregate: bool) returns (ok: bool)
      requires next != this
      requires DistinctObjects(outputs) && DistinctObjects(next.outputs) && DisjointObjects(outputs, next.outputs)
      modifies this, outputs, next.outputs
      ensures finished == (old(finished) || next.finished) && kvTransferParams == next.kvTransferParams
      ensures ok <==> Merge(Some(old(ValuesOf(outputs))), old(ValuesOf(next.outputs)), aggregate).Some?
      ensures ok ==> Some(ValuesOf(outputs))
                     == Merge(Some(old(ValuesOf(outputs))), old(ValuesOf(next.outputs)), aggregate)
      ensures ok ==> DistinctObjects(outputs) && ComeFrom(outputs, old(outputs), next.outputs)
    {
      finished := finished || next.finished;
      kvTransferParams := next.kvTransferParams;
      ok := AddCompletions(next.outputs, aggregate);
    }
  }

  lemma StillApart(was: seq<CompletionOutput>, now: seq<CompletionOutput>, coming: seq<CompletionOutput>, j: nat)
    requires j < |coming| && DistinctObjects(coming) && DisjointObjects(was, coming[j..])
    requires ComeFrom(now, was, [coming[j]])
    ensures DisjointObjects(now, coming[j + 1..])
  {
    var rest := coming[j + 1..];
    forall i, k | 0 <= i < |now| && 0 <= k < |rest| ensures now[i] != rest[k] {
      assert coming[j..][k + 1] == rest[k] == coming[j + 1 + k];
    }
  }

  lemma {:induction false} PositionIs(outs: seq<Completion>, index: int, i: nat)
    requires i <= |outs| && (i < |outs| ==> outs[i].index == index)
    requires forall j :: 0 <= j < i ==> outs[j].index != index
    ensures Position(outs, index) == i
  {
  }

  lemma {:induction false} MergeFailed(outs: Option<seq<Completion>>, next: seq<Completion>, j: nat, aggregate: bool)
    requires j <= |next| && Merge(outs, next[..j], aggregate) == None
    ensures Merge(outs, next, aggregate) == None
  {
    if j < |next| {
      assert next[..|next| - 1][..j] == next[..j];
      MergeFailed(outs, next[..|next| - 1], j, aggregate);
    } else {
      assert next[..j] == next;
    }
  }

  // ------------------------------------------------- what a whole stream amounts to

  /** The completions of a stream with the given index, in arrival order. */
  function Group(all: seq<Completion>, index: int): (g: seq<Completion>)
    ensures forall c :: c in g <==> c in all && c.index == index
  {
    if all == [] then []
    else Group(all[..|all| - 1], index) + if all[|all| - 1].index == index then [all[|all| - 1]] else []
  }

  function FirstSeen(all: seq<Completion>): (indices: seq<int>)
    ensures forall x :: x in indices <==> exists c :: c in all && c.index == x
    ensures forall i, j :: 0 <= i < j < |indices| ==> indices[i] != indices[j]
  {
    if all == [] then []
    else
      var before, last := FirstSeen(all[..|all| - 1]), all[|all| - 1];
      assert all == all[..|all| - 1] + [last];
      if last.index in before then before else before + [last.index]
  }

  function Texts(group: seq<Completion>): string {
    if group == [] then "" else Texts(group[..|group| - 1]) + group[|group| - 1].text
  }

  function TokenIds(group: seq<Completion>): seq<int> {
    if group == [] then [] else TokenIds(group[..|group| - 1]) + group[|group| - 1].tokenIds
  }

  function LogprobsOf(group: seq<Completion>): Positions {
    if group == [] then []
    else LogprobsOf(group[..|group| - 1]) +
         if group[|group| - 1].logprobs.Some? then group[|group| - 1].logprobs.value else []
  }

  lemma Associates<T>(a: seq<T>, b: seq<T>, c: seq<T>)
    ensures (a + b) + c == a + (b + c)
  {
  }

  lemma {:induction false} GroupConcat(a: seq<Completion>, b: seq<Completion>, index: int)
    ensures Group(a + b, index) == Group(a, index) + Group(b, index)
  {
    if b == [] {
      assert a + b == a;
    } else {
      var front, last := b[..|b| - 1], (if b[|b| - 1].index == index then [b[|b| - 1]] else []);
      GroupConcat(a, front, index);
      assert (a + b)[..|a + b| - 1] == a + front;
      assert Group(a + b, index) == Group(a + front, index) + last && Group(b, index) == Group(front, index) + last;
      hide Group;
      Associates(Group(a, index), Group(front, index), last);
    }
  }

  lemma {:induction false} TextsConcat(a: seq<Completion>, b: seq<Completion>)
    ensures Texts(a + b) == Texts(a) + Texts(b)
  {
    if b == [] {
      assert a + b == a;
    } else {
      var front, last := b[..|b| - 1], b[|b| - 1].text;
      TextsConcat(a, front);
      assert (a + b)[..|a + b| - 1] == a + front;
      assert Texts(a + b) == Texts(a + front) + last && Texts(b) == Texts(front) + last;
      hide Texts;
      Associates(Texts(a), Texts(front), last);
    }
  }

  lemma {:induction false} TokenIdsConcat(a: seq<Completion>, b: seq<Completion>)
    ensures TokenIds(a + b) == TokenIds(a) + TokenIds(b)
  {
    if b == [] {
      assert a + b == a;
    } else {
      var front, last := b[..|b| - 1], b[|b| - 1].tokenIds;
      TokenIdsConcat(a, front);
      assert (a + b)[..|a + b| - 1] == a + front;
      assert TokenIds(a + b) == TokenIds(a + front) + last && TokenIds(b) == TokenIds(front) + last;
      hide TokenIds;
      Associates(TokenIds(a), TokenIds(front), last);
    }
  }

  lemma {:induction false} LogprobsOfConcat(a: seq<Completion>, b: seq<Completion>)
    ensures LogprobsOf(a + b) == LogprobsOf(a) + LogprobsOf(b)
  {
    if b == [] {
      assert a + b == a;
    } else {
      var front, last := b[..|b| - 1], (if b[|b| - 1].logprobs.Some? then b[|b| - 1].logprobs.value else []);
      LogprobsOfConcat(a, front);
      assert (a + b)[..|a + b| - 1] == a + front;
      assert LogprobsOf(a + b) == LogprobsOf(a + front) + last && LogprobsOf(b) == LogprobsOf(front) + last;
      hide LogprobsOf;
      Associates(LogprobsOf(a), LogprobsOf(front), last);
    }
  }

  /** Groups and their texts, token ids and logprobs keep the arrival order. */
  lemma InArrivalOrder(a: seq<Completion>, b: seq<Completion>, index: int)
    ensures Group(a + b, index) == Group(a, index) + Group(b, index)
    ensures Texts(a + b) == Texts(a) + Texts(b)
    ensures TokenIds(a + b) == TokenIds(a) + TokenIds(b)
    ensures LogprobsOf(a + b) == LogprobsOf(a) + LogprobsOf(b)
  {
    hide *;
    GroupConcat(a, b, index);
    TextsConcat(a, b);
    TokenIdsConcat(a, b);
    LogprobsOfConcat(a, b);
  }

  lemma OfOne(c: Completion, index: int)
    ensures Group([c], index) == if c.index == index then [c] else []
    ensures Texts([c]) == c.text && TokenIds([c]) == c.tokenIds
    ensures LogprobsOf([c]) == if c.logprobs.Some? then c.logprobs.value else []
  {
    assert [c][..0] == [];
  }

  /** The indices come in the order of their first completions. */
  lemma {:induction false} FirstSeenInOrder(all: seq<Completion>, i: nat, j: nat)
    requires i < j < |FirstSeen(all)|
    ensures Position(all, FirstSeen(all)[i]) < Position(all, FirstSeen(all)[j]) < |all|
  {
    var front, last := all[..|all| - 1], all[|all| - 1];
    assert all == front + [last];
    FirstSeenSnoc(front, last);
    hide FirstSeen, Position;
    var x, y := FirstSeen(all)[i], FirstSeen(all)[j];
    PositionInFront(front, last, x);
    PositionInFront(front, last, y);
    assert x == FirstSeen(front)[i];
    if j < |FirstSeen(front)| {
      FirstSeenInOrder(front, i, j);
    } else {
      assert x in FirstSeen(front) && y == last.index;
    }
  }

  lemma {:induction false} PositionInFront(front: seq<Completion>, last: Completion, index: int)
    ensures Position(front, index) < |front| <==> exists c :: c in front && c.index == index
    ensures Position(front + [last], index) ==
            if Position(front, index) < |front| || last.index == index then Position(front, index) else |front| + 1
  {
    PositionIs(front + [last], index,
               if Position(front, index) < |front| || last.index == index then Position(front, index) else |front| + 1);
  }

  /** c is the concatenation of its group, with the last word on how it finished. */
  predicate IsJoined(c: Completion, group: seq<Completion>)
    requires group != []
  {
    var last := group[|group| - 1];
    && c.text == Texts(group)
    && c.tokenIds == TokenIds(group)
    && c.logprobs == (if group[0].logprobs.Some? then Some(LogprobsOf(group)) else None)
    && c.cumulativeLogprob == last.cumulativeLogprob
    && c.finishReason == last.finishReason
    && c.stopReason == last.stopReason
  }

  /** A group whose first completion came without logprobs has none later either. */
  predicate LogprobsConsistent(group: seq<Completion>) {
    group != [] && group[0].logprobs.None? ==> forall c :: c in group ==> !c.HasLogprobs()
  }

  ghost predicate Represents(outs: seq<Completion>, all: seq<Completion>, aggregate: bool) {
    && |outs| == |FirstSeen(all)|
    && forall k :: 0 <= k < |outs| ==> RepresentsAt(outs[k], FirstSeen(all)[k], all, aggregate)
  }

  ghost predicate RepresentsAt(c: Completion, index: int, all: seq<Completion>, aggregate: bool) {
    var group := Group(all, index);
    && c.index == index
    && group != []
    && if aggregate then LogprobsConsistent(group) && IsJoined(c, group) else c == group[|group| - 1]
  }

  ghost predicate AllConsistent(all: seq<Completion>) {
    forall index :: LogprobsConsistent(Group(all, index))
  }

  lemma GroupSnoc(all: seq<Completion>, c: Completion, index: int)
    ensures Group(all + [c], index) == Group(all, index) + if c.index == index then [c] else []
  {
    assert (all + [c])[..|all|] == all;
  }

  lemma FirstSeenSnoc(all: seq<Completion>, c: Completion)
    ensures FirstSeen(all + [c]) == FirstSeen(all) + if c.index in FirstSeen(all) then [] else [c.index]
  {
    assert (all + [c])[..|all|] == all;
  }

  /** Combining with one more completion goes through exactly when its logprobs are
      consistent with the group, and then joins it to the group. */
  lemma JoinOneMore(a: Completion, group: seq<Completion>, b: Completion)
    requires group != [] && IsJoined(a, group) && LogprobsConsistent(group)
    ensures Combine(a, b, true).Some? <==> LogprobsConsistent(group + [b])
    ensures Combine(a, b, true).Some? ==> IsJoined(Combine(a, b, true).value, group + [b])
  {
    assert (group + [b])[..|group|] == group;
    assert b in group + [b];
    LogprobsSnoc(group, b);
  }

  lemma LogprobsSnoc(group: seq<Completion>, b: Completion)
    ensures LogprobsOf(group + [b]) == if b.HasLogprobs() then LogprobsOf(group) + b.logprobs.value else LogprobsOf(group)
  {
    assert (group + [b])[..|group|] == group;
    assert LogprobsOf(group) + [] == LogprobsOf(group);
  }

  lemma SingleJoined(c: Completion)
    ensures IsJoined(c, [c]) && LogprobsConsistent([c])
  {
    assert [c][..0] == [];
    assert c.logprobs.Some? ==> LogprobsOf([c]) == [] + c.logprobs.value == c.logprobs.value;
  }

  lemma PositionInFirstSeen(outs: seq<Completion>, all: seq<Completion>, index: int, aggregate: bool)
    requires Represents(outs, all, aggregate)
    ensures Position(outs, index) < |outs| <==> index in FirstSeen(all)
    ensures index in FirstSeen(all) ==> FirstSeen(all)[Position(outs, index)] == index
  {
    if index in FirstSeen(all) {
      var k :| 0 <= k < |FirstSeen(all)| && FirstSeen(all)[k] == index;
      assert RepresentsAt(outs[k], FirstSeen(all)[k], all, aggregate);
    }
    var p := Position(outs, index);
    if p < |outs| {
      assert RepresentsAt(outs[p], FirstSeen(all)[p], all, aggregate);
    }
  }

  lemma UntouchedSlot(c: Completion, index: int, all: seq<Completion>, b: Completion, aggregate: bool)
    requires RepresentsAt(c, index, all, aggregate) && b.index != index
    ensures RepresentsAt(c, index, all + [b], aggregate)
  {
    hide IsJoined, LogprobsConsistent, Group;
    GroupSnoc(all, b, index);
    assert Group(all + [b], index) == Group(all, index);
  }

  lemma CombinedSlot(c: Completion, all: seq<Completion>, b: Completion, aggregate: bool)
    requires RepresentsAt(c, b.index, all, aggregate)
    ensures Combine(c, b, aggregate).Some? <==> !aggregate || LogprobsConsistent(Group(all + [b], b.index))
    ensures Combine(c, b, aggregate).Some? ==>
              RepresentsAt(Combine(c, b, aggregate).value, b.index, all + [b], aggregate)
  {
    GroupSnoc(all, b, b.index);
    if aggregate {
      JoinOneMore(c, Group(all, b.index), b);
    }
  }

  lemma {:induction false} GroupEmpty(all: seq<Completion>, index: int)
    requires forall c :: c in all ==> c.index != index
    ensures Group(all, index) == []
  {
    if all != [] {
      GroupEmpty(all[..|all| - 1], index);
    }
  }

  lemma NewSlot(all: seq<Completion>, b: Completion, aggregate: bool)
    requires b.index !in FirstSeen(all)
    ensures RepresentsAt(b, b.index, all + [b], aggregate)
    ensures LogprobsConsistent(Group(all + [b], b.index))
  {
    assert Group(all, b.index) == [] by {
      forall c | c in all ensures c.index != b.index {
        assert c.index in FirstSeen(all);
      }
      GroupEmpty(all, b.index);
    }
    GroupSnoc(all, b, b.index);
    assert Group(all + [b], b.index) == [b];
    SingleJoined(b);
  }

  lemma ConsistentSnoc(all: seq<Completion>, b: Completion)
    requires AllConsistent(all)
    ensures AllConsistent(all + [b]) <==> LogprobsConsistent(Group(all + [b], b.index))
  {
    forall index | index != b.index ensures LogprobsConsistent(Group(all + [b], index)) {
      GroupSnoc(all, b, index);
      assert LogprobsConsistent(Group(all, index));
    }
  }

  lemma InconsistentSnoc(all: seq<Completion>, b: Completion)
    requires !AllConsistent(all)
    ensures !AllConsistent(all + [b])
  {
    var index :| !LogprobsConsistent(Group(all, index));
    GroupSnoc(all, b, index);
    assert !LogprobsConsistent(Group(all + [b], index)) by {
      var c :| c in Group(all, index) && c.HasLogprobs();
      assert c in Group(all + [b], index);
    }
  }

  lemma RepresentsStep(outs: seq<Completion>, all: seq<Completion>, b: Completion, aggregate: bool)
    requires Represents(outs, all, aggregate)
    ensures var r := MergeOne(Some(outs), b, aggregate);
            && (r.Some? <==> !aggregate || LogprobsConsistent(Group(all + [b], b.index)))
            && (r.Some? ==> Represents(r.value, all + [b], aggregate))
  {
    hide Combine, RepresentsAt, LogprobsConsistent, Group, FirstSeen, Position;
    PositionInFirstSeen(outs, all, b.index, aggregate);
    FirstSeenSnoc(all, b);
    OtherSlots(outs, all, b, aggregate);
    if Position(outs, b.index) < |outs| {
      CombinedSlot(outs[Position(outs, b.index)], all, b, aggregate);
    } else {
      NewSlot(all, b, aggregate);
    }
  }

  lemma OtherSlots(outs: seq<Completion>, all: seq<Completion>, b: Completion, aggregate: bool)
    requires Represents(outs, all, aggregate)
    ensures forall k :: 0 <= k < |outs| && FirstSeen(all)[k] != b.index ==>
              RepresentsAt(outs[k], FirstSeen(all)[k], all + [b], aggregate)
  {
    hide RepresentsAt, FirstSeen;
    forall k | 0 <= k < |outs| && FirstSeen(all)[k] != b.index
      ensures RepresentsAt(outs[k], FirstSeen(all)[k], all + [b], aggregate)
    {
      UntouchedSlot(outs[k], FirstSeen(all)[k], all, b, aggregate);
    }
  }

  lemma {:induction false} StartRepresents(start: seq<Completion>, aggregate: bool)
    requires DistinctIndices(start)
    ensures Represents(start, start, aggregate) && AllConsistent(start)
  {
    hide RepresentsAt, LogprobsConsistent;
    if start == [] {
      assert forall index :: LogprobsConsistent(Group(start, index)) by {
        forall index ensures LogprobsConsistent(Group(start, index)) {
          EmptyConsistent(index);
        }
      }
    } else {
      var rest, last := start[..|start| - 1], start[|start| - 1];
      assert start == rest + [last];
      StartRepresents(rest, aggregate);
      RepresentsStep(rest, rest, last, aggregate);
      PositionInFirstSeen(rest, rest, last.index, aggregate);
      NewSlot(rest, last, aggregate);
      ConsistentSnoc(rest, last);
    }
  }

  lemma EmptyConsistent(index: int)
    ensures LogprobsConsistent(Group([], index))
  {
  }

  /** Folding a stream onto the first outputs. It goes through exactly when no completion
      brings logprobs to an index that started without; then the outputs are, in
      first-seen order, one for each index: with aggregation the concatenation of its
      completions in arrival order, without it the latest. */
  lemma {:induction false} StreamFolds(start: seq<Completion>, coming: seq<Completion>, aggregate: bool)
    requires DistinctIndices(start)
    ensures Merge(Some(start), coming, aggregate).Some? <==> !aggregate || AllConsistent(start + coming)
    ensures Merge(Some(start), coming, aggregate).Some? ==>
              Represents(Merge(Some(start), coming, aggregate).value, start + coming, aggregate)
  {
    hide Represents, AllConsistent, MergeOne, LogprobsConsistent;
    if coming == [] {
      assert start + coming == start;
      StartRepresents(start, aggregate);
    } else {
      var rest, last := coming[..|coming| - 1], coming[|coming| - 1];
      assert start + coming == (start + rest) + [last];
      StreamFolds(start, rest, aggregate);
      var before := Merge(Some(start), rest, aggregate);
      if before.Some? {
        RepresentsStep(before.value, start + rest, last, aggregate);
        if aggregate {
          ConsistentSnoc(start + rest, last);
        }
      } else {
        InconsistentSnoc(start + rest, last);
        assert MergeOne(before, last, aggregate) == None by {
          NothingMerges(last, aggregate);
        }
      }
    }
  }

  lemma NothingMerges(c: Completion, aggregate: bool)
    ensures MergeOne(None, c, aggregate) == None
  {
  }

  // ----------------------------------------------------------------- associativity

  predicate Holds(outs: Option<seq<Completion>>, index: int) {
    outs.Some? ==> Position(outs.value, index) < |outs.value|
  }

  lemma PositionKept(outs: seq<Completion>, i: nat, c: Completion, index: int)
    requires i < |outs| && c.index == outs[i].index
    ensures Position(outs[i := c], index) == Position(outs, index)
  {
    PositionIs(outs[i := c], index, Position(outs, index));
  }

  lemma PositionSnoc(outs: seq<Completion>, c: Completion, index: int)
    ensures Position(outs + [c], index)
         == if Position(outs, index) == |outs| && c.index != index then |outs| + 1 else Position(outs, index)
  {
    PositionIs(outs + [c], index,
               if Position(outs, index) == |outs| && c.index != index then |outs| + 1 else Position(outs, index));
  }

  lemma StillHolds(outs: Option<seq<Completion>>, c: Completion, index: int, aggregate: bool)
    requires Holds(outs, index) || c.index == index
    ensures Holds(MergeOne(outs, c, aggregate), index)
  {
    var r := MergeOne(outs, c, aggregate);
    if r.Some? {
      var i := Position(outs.value, c.index);
      if i == |outs.value| {
        PositionSnoc(outs.value, c, index);
      } else {
        PositionKept(outs.value, i, r.value[i], index);
      }
    }
  }

  lemma Commute(outs: Option<seq<Completion>>, x: Completion, y: Completion, aggregate: bool)
    requires x.index != y.index && Holds(outs, x.index)
    ensures MergeOne(MergeOne(outs, y, aggregate), x, aggregate) == MergeOne(MergeOne(outs, x, aggregate), y, aggregate)
  {
    if outs.Some? {
      var o := outs.value;
      var i, j := Position(o, x.index), Position(o, y.index);
      var withX := Combine(o[i], x, aggregate);
      if withX.Some? {
        PositionKept(o, i, withX.value, y.index);
      }
      if j == |o| {
        PositionSnoc(o, y, x.index);
        assert withX.Some? ==> (o + [y])[i := withX.value] == o[i := withX.value] + [y];
      } else {
        var withY := Combine(o[j], y, aggregate);
        if withY.Some? {
          PositionKept(o, j, withY.value, x.index);
          assert withX.Some? ==> o[i := withX.value][j := withY.value] == o[j := withY.value][i := withX.value];
        }
      }
    }
  }

  lemma {:induction false} CommuteAll(outs: Option<seq<Completion>>, x: Completion, ys: seq<Completion>, aggregate: bool)
    requires Holds(outs, x.index) && forall i :: 0 <= i < |ys| ==> ys[i].index != x.index
    ensures MergeOne(Merge(outs, ys, aggregate), x, aggregate) == Merge(MergeOne(outs, x, aggregate), ys, aggregate)
    ensures Holds(Merge(outs, ys, aggregate), x.index)
  {
    hide MergeOne, Holds;
    if ys != [] {
      var rest, y := ys[..|ys| - 1], ys[|ys| - 1];
      CommuteAll(outs, x, rest, aggregate);
      Commute(Merge(outs, rest, aggregate), x, y, aggregate);
      StillHolds(Merge(outs, rest, aggregate), y, x.index, aggregate);
    }
  }

  lemma CombineAssociates(e: Completion, p: Completion, x: Completion, aggregate: bool)
    requires e.index == p.index == x.index && Combine(p, x, aggregate).Some?
    ensures (if Combine(e, p, aggregate).None? then None else Combine(Combine(e, p, aggregate).value, x, aggregate))
            == Combine(e, Combine(p, x, aggregate).value, aggregate)
  {
    assert e.text + p.text + x.text == e.text + (p.text + x.text);
    assert e.tokenIds + p.tokenIds + x.tokenIds == e.tokenIds + (p.tokenIds + x.tokenIds);
    if e.logprobs.Some? && p.logprobs.Some? && x.logprobs.Some? {
      var le, lp, lx := e.logprobs.value, p.logprobs.value, x.logprobs.value;
      assert le + lp + lx == le + (lp + lx);
      assert lp == [] ==> lp + lx == lx;
    }
  }

  lemma MergeTwice(outs: Option<seq<Completion>>, p: Completion, x: Completion, aggregate: bool)
    requires p.index == x.index && Combine(p, x, aggregate).Some?
    ensures MergeOne(MergeOne(outs, p, aggregate), x, aggregate)
            == MergeOne(outs, Combine(p, x, aggregate).value, aggregate)
  {
    if outs.Some? {
      var o := outs.value;
      var i := Position(o, p.index);
      var both := Combine(p, x, aggregate).value;
      if i == |o| {
        PositionSnoc(o, p, x.index);
        assert (o + [p])[i := both] == o + [both];
      } else {
        CombineAssociates(o[i], p, x, aggregate);
        var once := Combine(o[i], p, aggregate);
        if once.Some? {
          PositionKept(o, i, once.value, x.index);
          var twice := Combine(once.value, x, aggregate);
          assert twice.Some? ==> o[i := once.value][i := twice.value] == o[i := twice.value];
        }
      }
    }
  }

  lemma {:induction false} MergeConcat(outs: Option<seq<Completion>>, s: seq<Completion>, t: seq<Completion>, aggregate: bool)
    ensures Merge(outs, s + t, aggregate) == Merge(Merge(outs, s, aggregate), t, aggregate)
  {
    if t == [] {
      assert s + t == s;
    } else {
      assert (s + t)[..|s + t| - 1] == s + t[..|t| - 1];
      MergeConcat(outs, s, t[..|t| - 1], aggregate);
    }
  }

  lemma MergeOneDistinct(outs: seq<Completion>, x: Completion, aggregate: bool)
    requires DistinctIndices(outs)
    ensures var r := MergeOne(Some(outs), x, aggregate); r.Some? ==> DistinctIndices(r.value)
  {
  }

  lemma {:induction false} MergeDistinct(outs: seq<Completion>, next: seq<Completion>, aggregate: bool)
    requires DistinctIndices(outs)
    ensures var r := Merge(Some(outs), next, aggregate); r.Some? ==> DistinctIndices(r.value)
  {
    hide MergeOne, DistinctIndices;
    if next != [] {
      var rest, last := next[..|next| - 1], next[|next| - 1];
      MergeDistinct(outs, rest, aggregate);
      var before := Merge(Some(outs), rest, aggregate);
      NothingMerges(last, aggregate);
      if before.Some? {
        MergeOneDistinct(before.value, last, aggregate);
      }
    }
  }

  /** Merging outputs that already took in x is merging them and then x. */
  lemma MergeTakesIn(outs: Option<seq<Completion>>, next: seq<Completion>, x: Completion, aggregate: bool)
    requires DistinctIndices(next) && MergeOne(Some(next), x, aggregate).Some?
    ensures Merge(outs, MergeOne(Some(next), x, aggregate).value, aggregate)
            == MergeOne(Merge(outs, next, aggregate), x, aggregate)
  {
    var p := Position(next, x.index);
    if p == |next| {
      assert (next + [x])[..|next|] == next;
    } else {
      var both := Combine(next[p], x, aggregate).value;
      var front, back := next[..p], next[p + 1..];
      assert next == front + [next[p]] + back;
      assert next[p := both] == front + [both] + back;
      MergeInPlace(outs, front, next[p], back, x, aggregate);
    }
  }

  lemma MergeInPlace(outs: Option<seq<Completion>>, front: seq<Completion>, p: Completion, back: seq<Completion>,
                     x: Completion, aggregate: bool)
    requires p.index == x.index && Combine(p, x, aggregate).Some?
    requires forall i :: 0 <= i < |back| ==> back[i].index != x.index
    ensures Merge(outs, front + [Combine(p, x, aggregate).value] + back, aggregate)
            == MergeOne(Merge(outs, front + [p] + back, aggregate), x, aggregate)
  {
    hide MergeOne, Combine, Holds;
    var both := Combine(p, x, aggregate).value;
    var atFront := Merge(outs, front, aggregate);
    MergeConcat(outs, front + [p], back, aggregate);
    MergeConcat(outs, front + [both], back, aggregate);
    assert (front + [p])[..|front|] == front && (front + [both])[..|front|] == front;
    StillHolds(atFront, p, x.index, aggregate);
    CommuteAll(MergeOne(atFront, p, aggregate), x, back, aggregate);
    MergeTwice(atFront, p, x, aggregate);
  }

  /** Merging is associative wherever the later outputs merge among themselves. */
  lemma {:induction false} MergingAssociates(a: Option<seq<Completion>>, b: seq<Completion>, c: seq<Completion>, aggregate: bool)
    requires DistinctIndices(b) && Merge(Some(b), c, aggregate).Some?
    ensures Merge(a, Merge(Some(b), c, aggregate).value, aggregate) == Merge(Merge(a, b, aggregate), c, aggregate)
  {
    hide MergeOne, DistinctIndices;
    if c != [] {
      var rest, last := c[..|c| - 1], c[|c| - 1];
      NothingMerges(last, aggregate);
      MergingAssociates(a, b, rest, aggregate);
      MergeDistinct(b, rest, aggregate);
      MergeTakesIn(a, Merge(Some(b), rest, aggregate).value, last, aggregate);
    }
  }

  // ------------------------------------------------------------ a list of outputs

  function Flatten(nexts: seq<seq<Completion>>): seq<Completion> {
    if nexts == [] then [] else Flatten(nexts[..|nexts| - 1]) + nexts[|nexts| - 1]
  }

  /** One add after the other. */
  function AddAll(outs: Option<seq<Completion>>, nexts: seq<seq<Completion>>, aggregate: bool): Option<seq<Completion>> {
    if nexts == [] then outs
    else Merge(AddAll(outs, nexts[..|nexts| - 1], aggregate), nexts[|nexts| - 1], aggregate)
  }

  lemma {:induction false} AddAllIsMerge(outs: Option<seq<Completion>>, nexts: seq<seq<Completion>>, aggregate: bool)
    ensures AddAll(outs, nexts, aggregate) == Merge(outs, Flatten(nexts), aggregate)
  {
    if nexts != [] {
      AddAllIsMerge(outs, nexts[..|nexts| - 1], aggregate);
      MergeConcat(outs, Flatten(nexts[..|nexts| - 1]), nexts[|nexts| - 1], aggregate);
    }
  }

  /** What StreamFolds says, for outputs added one after the other. */
  lemma AddingOutputsFolds(start: seq<Completion>, nexts: seq<seq<Completion>>, aggregate: bool)
    requires DistinctIndices(start)
    ensures AddAll(Some(start), nexts, aggregate).Some? <==> !aggregate || AllConsistent(start + Flatten(nexts))
    ensures AddAll(Some(start), nexts, aggregate).Some? ==>
              Represents(AddAll(Some(start), nexts, aggregate).value, start + Flatten(nexts), aggregate)
  {
    hide Represents, AllConsistent;
    AddAllIsMerge(Some(start), nexts, aggregate);
    StreamFolds(start, Flatten(nexts), aggregate);
  }
}
