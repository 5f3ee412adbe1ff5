/**
 Graph partition signatures: the backward pass that decides, for every partition
 of a scheduled graph, which buffers it receives, which it returns and which it
 frees.  This file holds the graph, the pass itself and its specification; the
 meaning of a graph and the proof that partitioning keeps it are in
 GraphPartitionProof.dfy.
 */
module GraphPartition {
  import opened Wrappers

  type Name = string

  /** What the pass reads of a scheduler node: the buffers it produces, those it
      reads or writes, and those whose last use it is. */
  datatype SchedulerNode = SchedulerNode(
    id: int,
    outputs: set<Name>,
    readNames: set<Name>,
    writeNames: set<Name>,
    lastUsage: set<Name>)

  datatype Buffer = Buffer(noneLayout: bool, mutationOutput: bool)

  datatype GraphData = GraphData(
    inputs: set<Name>,
    constants: set<Name>,
    outputs: set<Name>,
    buffers: map<Name, Buffer>,
    realName: map<Name, Name>,
    nodes: seq<SchedulerNode>)

  /** A mutation name is recorded with the buffer it finally mutates, so looking
      up a real name a second time changes nothing. */
  type Graph = g: GraphData | forall n :: n in g.realName ==> g.realName[n] !in g.realName
    witness GraphData({}, {}, {}, map[], map[], [])

  function Real(g: Graph, name: Name): Name {
    if name in g.realName then g.realName[name] else name
  }

  function Reals(g: Graph, names: set<Name>): set<Name> {
    set n | n in names :: Real(g, n)
  }

  /** A buffer without layout is not allocated. A mutation output without layout
      counts as allocated when the buffer it mutates is. */
  predicate IsNoneLayout(g: Graph, name: Name)
    decreases if name in g.realName then 1 else 0
  {
    name in g.buffers && g.buffers[name].noneLayout &&
    (if g.buffers[name].mutationOutput && name in g.realName && g.realName[name] != ""
     then IsNoneLayout(g, g.realName[name])
     else true)
  }

  function Outputs(nodes: seq<SchedulerNode>): set<Name> {
    set n, x | n in nodes && x in n.outputs :: x
  }

  function Accesses(n: SchedulerNode): set<Name> {
    n.readNames + n.writeNames
  }

  function ReadsWrites(nodes: seq<SchedulerNode>): set<Name> {
    set n, x | n in nodes && x in Accesses(n) :: x
  }

  function Freed(nodes: seq<SchedulerNode>): set<Name> {
    set n, x | n in nodes && x in n.lastUsage :: x
  }

  /** The names that have a node: graph inputs and node outputs, not constants. */
  function NameToNode(g: Graph): set<Name> {
    g.inputs + Outputs(g.nodes)
  }

  datatype Signature = Signature(
    inputs: set<Name>,
    outputs: set<Name>,
    inputDeallocation: map<Name, bool>,
    skipCudagraph: bool,
    constants: set<Name>)

  /** Names a partition takes from outside: what it reads or writes and does not
      produce, by real name, and what it frees and did not produce. */
  function InputNames(g: Graph, p: seq<SchedulerNode>): set<Name> {
    Reals(g, (set x | x in ReadsWrites(p) && !IsNoneLayout(g, x)) - Outputs(p)) +
    (set x | x in Freed(p) - Outputs(p) && x in NameToNode(g))
  }

  function InputNodes(g: Graph, p: seq<SchedulerNode>): set<Name> {
    set x | x in InputNames(g, p) && x in NameToNode(g)
  }

  /** Names a partition gives back: produced and wanted later, or received and not freed. */
  function ReturnedNames(g: Graph, p: seq<SchedulerNode>, unmet: set<Name>): set<Name> {
    Reals(g, Outputs(p) * unmet + (InputNodes(g, p) - Freed(p)))
  }

  function OutputNodes(g: Graph, p: seq<SchedulerNode>, unmet: set<Name>): set<Name> {
    set x | x in ReturnedNames(g, p, unmet) && !IsNoneLayout(g, x)
  }

  function SignatureOf(g: Graph, p: seq<SchedulerNode>, skip: bool, unmet: set<Name>): Signature {
    Signature(
      InputNodes(g, p),
      OutputNodes(g, p, unmet),
      map x | x in InputNodes(g, p) :: x in Freed(p),
      skip,
      InputNames(g, p) * g.constants)
  }

  /** The names still wanted by the given partitions and by the graph outputs. */
  function UnmetBefore(g: Graph, parts: seq<seq<SchedulerNode>>): set<Name> {
    if parts == [] then g.outputs
    else
      var unmet := UnmetBefore(g, parts[1..]);
      InputNames(g, parts[0]) + (unmet - ReturnedNames(g, parts[0], unmet))
  }

  function Signatures(g: Graph, parts: seq<seq<SchedulerNode>>, skips: seq<bool>): (s: seq<Signature>)
    requires |parts| == |skips|
    ensures |s| == |parts|
    ensures forall i :: 0 <= i < |s| ==> s[i].skipCudagraph == skips[i]
  {
    if parts == [] then []
    else [SignatureOf(g, parts[0], skips[0], UnmetBefore(g, parts[1..]))] + Signatures(g, parts[1..], skips[1..])
  }

  /** Every returned buffer has a node, so no lookup fails. */
  ghost predicate LookupsSucceed(g: Graph, parts: seq<seq<SchedulerNode>>) {
    parts == [] ||
    (OutputNodes(g, parts[0], UnmetBefore(g, parts[1..])) <= NameToNode(g) && LookupsSucceed(g, parts[1..]))
  }

  /** Only the given names are returned by the partitions. */
  ghost predicate ReturnOnly(signatures: seq<Signature>, names: set<Name>) {
    forall i :: 0 <= i < |signatures| ==> signatures[i].outputs <= names
  }

  lemma ReturnOnlyCons(s: Signature, rest: seq<Signature>, names: set<Name>)
    ensures ReturnOnly([s] + rest, names) <==> s.outputs <= names && ReturnOnly(rest, names)
  {
    var all := [s] + rest;
    assert all[0] == s && forall i :: 0 <= i < |rest| ==> all[i + 1] == rest[i];
  }

  lemma {:induction false} LookupsSucceedExactly(g: Graph, parts: seq<seq<SchedulerNode>>, skips: seq<bool>)
    requires |parts| == |skips|
    ensures LookupsSucceed(g, parts) <==> ReturnOnly(Signatures(g, parts, skips), g.inputs + Outputs(g.nodes))
  {
    hide OutputNodes, InputNodes, InputNames, ReturnedNames, UnmetBefore;
    if parts != [] {
      var first := SignatureOf(g, parts[0], skips[0], UnmetBefore(g, parts[1..]));
      LookupsSucceedExactly(g, parts[1..], skips[1..]);
      ReturnOnlyCons(first, Signatures(g, parts[1..], skips[1..]), g.inputs + Outputs(g.nodes));
      hide ReturnOnly;
    }
  }

  lemma OutputsSnoc(p: seq<SchedulerNode>, m: nat)
    requires m < |p|
    ensures Outputs(p[..m + 1]) == Outputs(p[..m]) + p[m].outputs
    ensures ReadsWrites(p[..m + 1]) == ReadsWrites(p[..m]) + Accesses(p[m])
    ensures Freed(p[..m + 1]) == Freed(p[..m]) + p[m].lastUsage
  {
    assert p[..m + 1] == p[..m] + [p[m]];
  }

  lemma ReturnedInTwoSteps(g: Graph, p: seq<SchedulerNode>, unmet: set<Name>, returned: set<Name>, extra: set<Name>)
    requires returned == Outputs(p) * unmet
    requires extra == InputNodes(g, p) - Freed(p)
    ensures Reals(g, returned + extra) == ReturnedNames(g, p, unmet)
  {
  }

  /** One iteration of the backward pass: the signature of a partition, given the
      names wanted after it. */
  method PartitionSignature(g: Graph, partition: seq<SchedulerNode>, skip: bool, unmet: set<Name>)
    returns (r: Option<Signature>, unmetBefore: set<Name>)
    ensures r.Some? <==> OutputNodes(g, partition, unmet) <= NameToNode(g)
    ensures r.Some? ==> r.value == SignatureOf(g, partition, skip, unmet)
    ensures r.Some? ==> unmetBefore == InputNames(g, partition) + (unmet - ReturnedNames(g, partition, unmet))
  {
    unmetBefore := unmet;
    var outputNames: set<Name> := {};
    var readWrites: set<Name> := {};
    var toFree: set<Name> := {};
    for m := 0 to |partition|
      invariant outputNames == Outputs(partition[..m])
      invariant readWrites == ReadsWrites(partition[..m])
      invariant toFree == Freed(partition[..m])
    {
      OutputsSnoc(partition, m);
      outputNames := outputNames + partition[m].outputs;
      readWrites := readWrites + Accesses(partition[m]);
      toFree := toFree + partition[m].lastUsage;
    }
    assert partition[..|partition|] == partition;
    var returned := outputNames * unmet;

    var inputNames := (set x | x in readWrites && !IsNoneLayout(g, x)) - outputNames;
    inputNames := set n | n in inputNames :: Real(g, n);
    var nameToNode := NameToNode(g);
    var extraInputs := set x | x in toFree - outputNames && x in nameToNode;
    inputNames := inputNames + extraInputs;
    assert inputNames == InputNames(g, partition);

    var inputNodes := set x | x in inputNames && x in nameToNode;
    var deallocation := map x | x in inputNames && x in nameToNode :: x in toFree;
    var extraOutputs := set x | x in inputNames && x in nameToNode && x !in toFree;
    assert extraOutputs == InputNodes(g, partition) - Freed(partition);
    ReturnedInTwoSteps(g, partition, unmet, returned, extraOutputs);
    returned := returned + extraOutputs;
    returned := set n | n in returned :: Real(g, n);
    assert returned == ReturnedNames(g, partition, unmet);

    var outputNodes := set x | x in returned && !IsNoneLayout(g, x);
    if !(outputNodes <= nameToNode) {
      return None, unmetBefore;
    }
    var signature := Signature(inputNodes, outputNodes, deallocation, skip, inputNames * g.constants);
    return Some(signature), inputNames + (unmet - returned);
  }

  /** The last k elements. */
  function Last<T>(xs: seq<T>, k: nat): (r: seq<T>)
    requires k <= |xs|
    ensures |r| == k
  {
    xs[|xs| - k..]
  }

  function Shorter<S, T>(xs: seq<S>, ys: seq<T>): nat {
    if |xs| < |ys| then |xs| else |ys|
  }

  function Reverse<T>(xs: seq<T>): (ys: seq<T>)
    ensures |ys| == |xs|
    ensures forall i :: 0 <= i < |xs| ==> ys[i] == xs[|xs| - 1 - i]
  {
    seq(|xs|, i requires 0 <= i < |xs| => xs[|xs| - 1 - i])
  }

  lemma ReverseSnoc<T>(xs: seq<T>, x: T)
    ensures Reverse(xs + [x]) == [x] + Reverse(xs)
  {
  }

  /** The whole pass, last partition first. Partitions and flags are paired from the
      end; a surplus on either side is ignored. It gives None where a name lookup
      would raise. */
  method GetGraphPartitionSignature(g: Graph, partitions: seq<seq<SchedulerNode>>, skipCudagraphs: seq<bool>)
    returns (r: Option<seq<Signature>>)
    ensures
      var k := if |partitions| < |skipCudagraphs| then |partitions| else |skipCudagraphs|;
      var parts, skips := partitions[|partitions| - k..], skipCudagraphs[|skipCudagraphs| - k..];
      && (r.Some? <==> ReturnOnly(Signatures(g, parts, skips), g.inputs + Outputs(g.nodes)))
      && (r.Some? ==> r.value == Signatures(g, parts, skips))
      && (r.Some? ==> forall i :: 0 <= i < k ==> r.value[i].skipCudagraph == skipCudagraphs[|skipCudagraphs| - k + i])
  {
    hide *;
    var signatures: seq<Signature> := [];
    var unmet := g.outputs;
    var count := Shorter(partitions, skipCudagraphs);
    ShorterIs(partitions, skipCudagraphs);
    PassBegins(g, partitions, skipCudagraphs);
    PassEnds(g, partitions, skipCudagraphs, count);
    for k := 0 to count
      invariant unmet == UnmetBefore(g, Last(partitions, k))
      invariant LookupsSucceed(g, Last(partitions, k))
      invariant Reverse(signatures) == Signatures(g, Last(partitions, k), Last(skipCudagraphs, k))
    {
      var p, skip := partitions[|partitions| - 1 - k], skipCudagraphs[|skipCudagraphs| - 1 - k];
      ConsStep(g, partitions, skipCudagraphs, k);
      var s, before := PartitionSignature(g, p, skip, unmet);
      if s == None {
        LookupsFailEarlier(g, partitions, k + 1, count);
        return None;
      }
      ReverseSnoc(signatures, s.value);
      signatures := signatures + [s.value];
      unmet := before;
    }
    return Some(Reverse(signatures));
  }

  lemma ShorterIs<S, T>(xs: seq<S>, ys: seq<T>)
    ensures Shorter(xs, ys) == if |xs| < |ys| then |xs| else |ys|
  {
  }

  lemma PassBegins(g: Graph, partitions: seq<seq<SchedulerNode>>, skips: seq<bool>)
    ensures |Last(partitions, 0)| == |Last(skips, 0)| == 0
    ensures UnmetBefore(g, Last(partitions, 0)) == g.outputs && LookupsSucceed(g, Last(partitions, 0))
    ensures Signatures(g, Last(partitions, 0), Last(skips, 0)) == [] == Reverse([])
  {
  }

  lemma PassEnds(g: Graph, partitions: seq<seq<SchedulerNode>>, skips: seq<bool>, k: nat)
    requires k <= |partitions| && k <= |skips|
    ensures Last(partitions, k) == partitions[|partitions| - k..] && Last(skips, k) == skips[|skips| - k..]
    ensures LookupsSucceed(g, Last(partitions, k)) <==>
            ReturnOnly(Signatures(g, partitions[|partitions| - k..], skips[|skips| - k..]), g.inputs + Outputs(g.nodes))
  {
    LookupsSucceedExactly(g, Last(partitions, k), Last(skips, k));
    hide LookupsSucceed, ReturnOnly, Signatures, Outputs;
  }

  lemma ConsStep(g: Graph, partitions: seq<seq<SchedulerNode>>, skips: seq<bool>, k: nat)
    requires k < |partitions| && k < |skips|
    ensures
      var p, skip := partitions[|partitions| - 1 - k], skips[|skips| - 1 - k];
      var rest, restSkips := Last(partitions, k), Last(skips, k);
      var all, allSkips := Last(partitions, k + 1), Last(skips, k + 1);
      var unmet := UnmetBefore(g, rest);
      && Signatures(g, all, allSkips) == [SignatureOf(g, p, skip, unmet)] + Signatures(g, rest, restSkips)
      && UnmetBefore(g, all) == InputNames(g, p) + (unmet - ReturnedNames(g, p, unmet))
      && (LookupsSucceed(g, all) <==> OutputNodes(g, p, unmet) <= NameToNode(g) && LookupsSucceed(g, rest))
  {
    assert Last(partitions, k + 1)[1..] == Last(partitions, k);
    assert Last(skips, k + 1)[1..] == Last(skips, k);
  }

  lemma {:induction false} LookupsFailEarlier(g: Graph, parts: seq<seq<SchedulerNode>>, k: nat, n: nat)
    requires k <= n <= |parts|
    requires !LookupsSucceed(g, Last(parts, k))
    ensures !LookupsSucceed(g, Last(parts, n))
    decreases n - k
  {
    if k < n {
      assert Last(parts, k + 1)[1..] == Last(parts, k);
      LookupsFailEarlier(g, parts, k + 1, n);
    }
  }
}
