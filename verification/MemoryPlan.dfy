/**
 Memory planning of generated wrapper code: trailing lines nobody needs are
 dropped, then every memory line is planned with the state on top of a stack that
 follows the subgraph brackets.
 */
module MemoryPlan {
  datatype Line =
    | Memory(name: string)
    | EnterSubgraph
    | ExitSubgraph
    | Code(text: string)
    | Planned(name: string, state: nat)

  predicate Pointless(line: Line, outNames: set<string>) {
    line.Memory? && line.name !in outNames
  }

  /** The lines that remain: only pointless ones are dropped from the end, and the
      last one kept is not pointless. */
  function Trimmed(lines: seq<Line>, outNames: set<string>): (r: seq<Line>)
    ensures r <= lines
    ensures forall i :: |r| <= i < |lines| ==> lines[i].Memory? && lines[i].name !in outNames
    ensures r != [] && r[|r| - 1].Memory? ==> r[|r| - 1].name in outNames
  {
    if lines != [] && Pointless(lines[|lines| - 1], outNames)
    then Trimmed(lines[..|lines| - 1], outNames)
    else lines
  }

  /** Open subgraphs before line i, the outermost body included. It sinks to 0 when
      more are closed than opened. */
  function Depth(lines: seq<Line>, i: nat): int
    requires i <= |lines|
  {
    if i == 0 then 1
    else Depth(lines, i - 1) +
         (if lines[i - 1].EnterSubgraph? then 1 else if lines[i - 1].ExitSubgraph? then -1 else 0)
  }

  ghost predicate WellBracketed(lines: seq<Line>) {
    && (forall i :: 0 <= i <= |lines| ==> Depth(lines, i) >= 1)
    && Depth(lines, |lines|) == 1
  }

  ghost predicate StaysAbove(lines: seq<Line>, i: nat, j: nat, height: int)
    requires j <= |lines|
  {
    forall k :: i <= k <= j ==> Depth(lines, k) >= height
  }

  /** Lines i <= j lie in the same subgraph body: same depth, never left in between. */
  ghost predicate SameBody(lines: seq<Line>, i: nat, j: nat)
    requires i <= j <= |lines|
  {
    && Depth(lines, i) == Depth(lines, j)
    && StaysAbove(lines, i, j, Depth(lines, i))
  }

  /** When planning gets through: nothing is planned or closed outside every body,
      and exactly the outermost body is open at the end. */
  ghost predicate PlanSucceeds(lines: seq<Line>) {
    && (forall i :: 0 <= i < |lines| && (lines[i].Memory? || lines[i].ExitSubgraph?) ==> Depth(lines, i) >= 1)
    && Depth(lines, |lines|) == 1
  }

  lemma {:induction false} DepthOfPrefix(lines: seq<Line>, n: nat, i: nat)
    requires i <= n <= |lines|
    ensures Depth(lines[..n], i) == Depth(lines, i)
  {
    if i > 0 {
      DepthOfPrefix(lines, n, i - 1);
    }
  }

  lemma {:induction false} DepthWithoutBrackets(lines: seq<Line>, i: nat, j: nat)
    requires i <= j <= |lines|
    requires forall k :: i <= k < j ==> !lines[k].EnterSubgraph? && !lines[k].ExitSubgraph?
    ensures Depth(lines, i) == Depth(lines, j)
  {
    if i < j {
      DepthWithoutBrackets(lines, i, j - 1);
    }
  }

  /** Trimming drops no bracket, and well-bracketed lines always plan. */
  lemma TrimmedStaysWellBracketed(lines: seq<Line>, outNames: set<string>)
    requires WellBracketed(lines)
    ensures WellBracketed(Trimmed(lines, outNames)) && PlanSucceeds(Trimmed(lines, outNames))
  {
    var t := Trimmed(lines, outNames);
    assert t == lines[..|t|];
    forall i | 0 <= i <= |t| ensures Depth(t, i) == Depth(lines, i) {
      DepthOfPrefix(lines, |t|, i);
    }
    DepthWithoutBrackets(lines, |t|, |lines|);
  }

  /** Planning also accepts some lists that are not well bracketed: the closing line
      empties the stack and the opening one fills it again. */
  lemma PlanAcceptsCloseThenOpen()
    ensures PlanSucceeds([ExitSubgraph, EnterSubgraph]) && !WellBracketed([ExitSubgraph, EnterSubgraph])
  {
    var lines := [ExitSubgraph, EnterSubgraph];
    assert Depth(lines, 0) == 1;
    assert Depth(lines, 1) == 0;
    assert Depth(lines, 2) == 1;
  }

  class WrapperCodegen {
    var lines: seq<Line>

    constructor (lines: seq<Line>)
      ensures this.lines == lines
    {
      this.lines := lines;
    }

    /** ok is false where the source raises: an empty stack is read or popped, or
        some state is left at the end. Planned lines share a state exactly when they
        lie in the same subgraph body. */
    method MemoryPlanReuse(outNames: set<string>) returns (ok: bool)
      modifies this
      ensures ok <==> PlanSucceeds(Trimmed(old(lines), outNames))
      ensures ok ==> PlannedAs(Trimmed(old(lines), outNames), lines)
    {
      while lines != [] && Pointless(lines[|lines| - 1], outNames)
        invariant lines <= old(lines)
        invariant Trimmed(lines, outNames) == Trimmed(old(lines), outNames)
        decreases |lines|
      {
        lines := lines[..|lines| - 1];
      }
      ok := PlanLines();
    }

    /** The planning pass over the lines that remain. */
    method PlanLines() returns (ok: bool)
      modifies this
      ensures ok <==> PlanSucceeds(old(lines))
      ensures ok ==> PlannedAs(old(lines), lines)
    {
      hide PlannedAs, TopsFollow, SameBody, LinesInv;
      ghost var t := lines;
      StackAtStart(t);
      var planningStates := [0];
      var nextState := 1;
      var pastPlanningStates: seq<nat> := [];
      ghost var tops: seq<int> := [];
      for i := 0 to |lines|
        invariant StackInv(t, i, planningStates, nextState, tops)
        invariant LinesInv(t, i, tops, lines) && |lines| == |t|
      {
        LineAt(t, i, tops, lines);
        var line := lines[i];
        ghost var before, stateBefore, linesBefore := planningStates, nextState, lines;
        if line.Memory? {
          if planningStates == [] {
            StuckFails(t, i);
            return false;
          }
          lines := lines[i := Planned(line.name, planningStates[|planningStates| - 1])];
        } else if line.EnterSubgraph? {
          planningStates := planningStates + [nextState];
          nextState := nextState + 1;
        } else if line.ExitSubgraph? {
          if planningStates == [] {
            StuckFails(t, i);
            return false;
          }
          pastPlanningStates := pastPlanningStates + [planningStates[|planningStates| - 1]];
          planningStates := planningStates[..|planningStates| - 1];
        }
        LinesStep(t, i, tops, linesBefore, before, stateBefore);
        StackStep(t, i, before, stateBefore, tops, planningStates, nextState);
        tops := tops + [Top(before)];
      }
      PlannedByBody(t, planningStates, nextState, tops, lines);
      SucceedsAtDepthOne(t, tops, lines);
      if planningStates == [] {
        return false;
      }
      pastPlanningStates := pastPlanningStates + [planningStates[|planningStates| - 1]];
      planningStates := planningStates[..|planningStates| - 1];
      return |planningStates| == 0;
    }
  }

  /** planned is t with a state on every memory line; two of them share their state
      exactly when they lie in the same subgraph body. */
  ghost predicate PlannedAs(t: seq<Line>, planned: seq<Line>) {
    && |planned| == |t|
    && (forall i :: 0 <= i < |t| ==>
          if t[i].Memory? then planned[i].Planned? && planned[i].name == t[i].name else planned[i] == t[i])
    && (forall i, j :: 0 <= i <= j < |t| && t[i].Memory? && t[j].Memory? ==>
          (planned[i].state == planned[j].state <==> SameBody(t, i, j)))
  }

  /** Line k was planned with the state now at height p exactly when it lies in the
      body open at that height. */
  ghost predicate TopsFollow(lines: seq<Line>, i: nat, stack: seq<nat>, tops: seq<int>)
    requires i <= |lines| && |tops| == i
  {
    forall k, p :: 0 <= k < i && 0 <= p < |stack| ==>
      (tops[k] == stack[p] <==>
        Depth(lines, k) == p + 1 && StaysAbove(lines, k, i, p + 1))
  }

  ghost function Top(stack: seq<nat>): int {
    if stack == [] then -1 else stack[|stack| - 1]
  }

  /** The stack before line i; tops[k] is the state that was on top at line k. */
  ghost predicate StackInv(lines: seq<Line>, i: nat, stack: seq<nat>, next: nat, tops: seq<int>) {
    && i <= |lines| && |tops| == i && |stack| == Depth(lines, i)
    && (forall p :: 0 <= p < |stack| ==> stack[p] < next)
    && (forall p, q :: 0 <= p < q < |stack| ==> stack[p] != stack[q])
    && (forall k :: 0 <= k < i ==> tops[k] < next)
    && TopsFollow(lines, i, stack, tops)
    && (forall k, j :: 0 <= k <= j < i && Depth(lines, j) >= 1 ==> (tops[k] == tops[j] <==> SameBody(lines, k, j)))
  }

  lemma TopIsBody(lines: seq<Line>, i: nat, stack: seq<nat>, next: nat, tops: seq<int>)
    requires i < |lines| && StackInv(lines, i, stack, next, tops)
    ensures Depth(lines, i) >= 1 ==> forall k :: 0 <= k < i ==> (tops[k] == Top(stack) <==> SameBody(lines, k, i))
  {
  }

  /** The stack after line i. */
  ghost predicate StackMoves(line: Line, stack: seq<nat>, next: nat, stack': seq<nat>, next': nat) {
    if line.EnterSubgraph? then stack' == stack + [next] && next' == next + 1
    else if line.ExitSubgraph? then stack != [] && stack' == stack[..|stack| - 1] && next' == next
    else stack' == stack && next' == next
  }

  lemma TopsStep(lines: seq<Line>, i: nat, stack: seq<nat>, next: nat, tops: seq<int>, stack': seq<nat>, next': nat)
    requires i < |lines| && StackInv(lines, i, stack, next, tops)
    requires StackMoves(lines[i], stack, next, stack', next')
    ensures TopsFollow(lines, i + 1, stack', tops + [Top(stack)])
  {
    var tops' := tops + [Top(stack)];
    forall k, p | 0 <= k < i + 1 && 0 <= p < |stack'|
      ensures tops'[k] == stack'[p] <==> Depth(lines, k) == p + 1 && StaysAbove(lines, k, i + 1, p + 1)
    {
      if p < |stack| {
        assert stack'[p] == stack[p];
        assert Depth(lines, i + 1) >= p + 1;
        if k == i {
          assert stack[|stack| - 1] == stack[p] <==> p == |stack| - 1;
        } else {
          assert StaysAbove(lines, k, i + 1, p + 1) <==> StaysAbove(lines, k, i, p + 1);
        }
      } else {
        assert Depth(lines, i) < p + 1;
      }
    }
  }

  lemma StackStep(lines: seq<Line>, i: nat, stack: seq<nat>, next: nat, tops: seq<int>, stack': seq<nat>, next': nat)
    requires i < |lines| && StackInv(lines, i, stack, next, tops)
    requires StackMoves(lines[i], stack, next, stack', next')
    ensures StackInv(lines, i + 1, stack', next', tops + [Top(stack)])
  {
    TopsStep(lines, i, stack, next, tops, stack', next');
    var tops' := tops + [Top(stack)];
    forall k, j | 0 <= k <= j < i + 1 && Depth(lines, j) >= 1
      ensures tops'[k] == tops'[j] <==> SameBody(lines, k, j)
    {
      if j == i && k < i {
        TopIsBody(lines, i, stack, next, tops);
      }
    }
  }

  lemma StuckFails(lines: seq<Line>, i: nat)
    requires i < |lines| && (lines[i].Memory? || lines[i].ExitSubgraph?) && Depth(lines, i) < 1
    ensures !PlanSucceeds(lines)
  {
  }

  /** Line k is planned with its state, or left as it is. */
  ghost predicate PlannedAt(t: seq<Line>, k: nat, tops: seq<int>, lines: seq<Line>)
    requires k < |t| && k < |tops| && k < |lines|
  {
    if t[k].Memory? then tops[k] >= 0 && lines[k] == Planned(t[k].name, tops[k]) else lines[k] == t[k]
  }

  ghost predicate NeverStuck(t: seq<Line>, i: nat) {
    forall k :: 0 <= k < i && k < |t| && (t[k].Memory? || t[k].ExitSubgraph?) ==> Depth(t, k) >= 1
  }

  /** The first i lines are planned, each with the state that was on top. */
  ghost predicate LinesInv(t: seq<Line>, i: nat, tops: seq<int>, lines: seq<Line>) {
    && |lines| == |t| && |tops| == i <= |t|
    && NeverStuck(t, i)
    && (forall k :: i <= k < |t| ==> lines[k] == t[k])
    && (forall k :: 0 <= k < i ==> PlannedAt(t, k, tops, lines))
  }

  lemma StackAtStart(t: seq<Line>)
    ensures StackInv(t, 0, [0], 1, []) && LinesInv(t, 0, [], t)
  {
  }

  lemma LineAt(t: seq<Line>, i: nat, tops: seq<int>, lines: seq<Line>)
    requires i < |t| && LinesInv(t, i, tops, lines)
    ensures lines[i] == t[i]
  {
  }

  /** With every line planned, only the depth at the end is left to decide. */
  lemma SucceedsAtDepthOne(t: seq<Line>, tops: seq<int>, lines: seq<Line>)
    requires LinesInv(t, |t|, tops, lines)
    ensures PlanSucceeds(t) <==> Depth(t, |t|) == 1
  {
  }

  lemma LinesStep(t: seq<Line>, i: nat, tops: seq<int>, lines: seq<Line>, stack: seq<nat>, next: nat)
    requires i < |t| && StackInv(t, i, stack, next, tops) && LinesInv(t, i, tops, lines)
    requires t[i].Memory? || t[i].ExitSubgraph? ==> stack != []
    ensures LinesInv(t, i + 1, tops + [Top(stack)],
                     if t[i].Memory? then lines[i := Planned(t[i].name, stack[|stack| - 1])] else lines)
  {
    NeverStuckNext(t, i, stack, next, tops);
    hide StackInv, NeverStuck, PlannedAt;
    var tops' := tops + [Top(stack)];
    var lines' := if t[i].Memory? then lines[i := Planned(t[i].name, stack[|stack| - 1])] else lines;
    PlannedNow(t, i, stack, tops', lines');
    forall k | 0 <= k < i ensures PlannedAt(t, k, tops', lines') {
      PlannedStays(t, k, tops, tops', lines, lines');
    }
  }

  lemma NeverStuckNext(t: seq<Line>, i: nat, stack: seq<nat>, next: nat, tops: seq<int>)
    requires i < |t| && StackInv(t, i, stack, next, tops) && NeverStuck(t, i)
    requires t[i].Memory? || t[i].ExitSubgraph? ==> stack != []
    ensures NeverStuck(t, i + 1)
  {
    assert |stack| == Depth(t, i);
    hide StackInv, Depth;
  }

  lemma PlannedStays(t: seq<Line>, k: nat, tops: seq<int>, tops': seq<int>, lines: seq<Line>, lines': seq<Line>)
    requires k < |tops| <= |tops'| && k < |lines| == |lines'| && k < |t| && PlannedAt(t, k, tops, lines)
    requires tops'[k] == tops[k] && lines'[k] == lines[k]
    ensures PlannedAt(t, k, tops', lines')
  {
  }

  lemma PlannedNow(t: seq<Line>, i: nat, stack: seq<nat>, tops: seq<int>, lines: seq<Line>)
    requires i < |t| && i < |tops| && i < |lines| && tops[i] == Top(stack)
    requires if t[i].Memory? then stack != [] && lines[i] == Planned(t[i].name, stack[|stack| - 1]) else lines[i] == t[i]
    ensures PlannedAt(t, i, tops, lines)
  {
  }

  lemma PlannedByBody(t: seq<Line>, stack: seq<nat>, next: nat, tops: seq<int>, lines: seq<Line>)
    requires StackInv(t, |t|, stack, next, tops) && LinesInv(t, |t|, tops, lines)
    ensures PlannedAs(t, lines)
  {
    hide TopsFollow, SameBody, Depth;
    forall i | 0 <= i < |t|
      ensures if t[i].Memory? then lines[i].Planned? && lines[i].name == t[i].name else lines[i] == t[i]
    {
      assert PlannedAt(t, i, tops, lines);
    }
    forall i, j | 0 <= i <= j < |t| && t[i].Memory? && t[j].Memory?
      ensures lines[i].Planned? && lines[j].Planned? && (lines[i].state == lines[j].state <==> SameBody(t, i, j))
    {
      SharedByBody(t, stack, next, tops, lines, i, j);
    }
  }

  lemma SharedByBody(t: seq<Line>, stack: seq<nat>, next: nat, tops: seq<int>, lines: seq<Line>, i: nat, j: nat)
    requires StackInv(t, |t|, stack, next, tops) && LinesInv(t, |t|, tops, lines)
    requires i <= j < |t| && t[i].Memory? && t[j].Memory?
    ensures lines[i].Planned? && lines[j].Planned? && (lines[i].state == lines[j].state <==> SameBody(t, i, j))
  {
    hide TopsFollow, SameBody;
    assert Depth(t, j) >= 1;
    assert PlannedAt(t, i, tops, lines) && PlannedAt(t, j, tops, lines);
  }
}
