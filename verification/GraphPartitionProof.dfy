/**
 What a scheduled graph computes, what the partitioned graph computes when every
 partition sees only its declared inputs and gives back only its declared outputs,
 and the proof that both yield the same graph outputs.
 */
module GraphPartitionProof {
  import opened Wrappers
  import opened GraphPartition

  // ---------------------------------------------------------------- meaning

  /** Buffers live under their real names; a mutation writes the buffer it mutates. */
  predicate Allocated(g: Graph, x: Name) {
    !IsNoneLayout(g, Real(g, x))
  }

  /** The storage a node reads: everything it accesses and does not itself produce. */
  function Uses(g: Graph, n: SchedulerNode): set<Name> {
    set x | x in Accesses(n) - n.outputs && Allocated(g, x) :: Real(g, x)
  }

  /** The storage a node writes. */
  function Stores(g: Graph, n: SchedulerNode): set<Name> {
    set x | x in n.outputs && Allocated(g, x) :: Real(g, x)
  }

  /** An arbitrary deterministic kernel: the value a node leaves in one of its
      storages, from the values of the storages it uses. */
  type Kernel<!V> = (SchedulerNode, map<Name, V>, Name) -> V

  type Store<V> = map<Name, V>

  function Restrict<V>(s: Store<V>, keys: set<Name>): Store<V> {
    map x | x in keys && x in s :: s[x]
  }

  function Writes<V>(g: Graph, k: Kernel<V>, n: SchedulerNode, env: Store<V>): Store<V> {
    map r | r in Stores(g, n) :: k(n, Restrict(env, Uses(g, n)), r)
  }

  /** The whole graph: one store, every node in order, nothing freed. */
  function RunGraph<V>(g: Graph, k: Kernel<V>, c: Store<V>, s: Store<V>, nodes: seq<SchedulerNode>): Store<V> {
    if nodes == [] then s
    else
      var s1 := RunGraph(g, k, c, s, nodes[..|nodes| - 1]);
      s1 + Writes(g, k, nodes[|nodes| - 1], c + s1)
  }

  /** The body of a partition function: None when a node needs a buffer that is
      not there; a buffer is dropped after the node that uses it last. */
  function RunBody<V>(g: Graph, k: Kernel<V>, c: Store<V>, s: Store<V>, nodes: seq<SchedulerNode>): Option<Store<V>> {
    if nodes == [] then Some(s)
    else
      match RunBody(g, k, c, s, nodes[..|nodes| - 1])
      case None => None
      case Some(s1) =>
        var n := nodes[|nodes| - 1];
        if Uses(g, n) <= (c + s1).Keys
        then Some((s1 + Writes(g, k, n, c + s1)) - n.lastUsage)
        else None
  }

  function Deallocated(sig: Signature): set<Name> {
    set x | x in sig.inputDeallocation && sig.inputDeallocation[x]
  }

  /** A call of a partition function. The arguments are copies, so that the caller
      sees only what is returned. */
  function RunPartition<V>(g: Graph, k: Kernel<V>, c: Store<V>, s: Store<V>, p: seq<SchedulerNode>, sig: Signature): Option<Store<V>> {
    if !(sig.inputs <= s.Keys) then None
    else
      match RunBody(g, k, c, Restrict(s, sig.inputs), p)
      case None => None
      case Some(local) =>
        if sig.outputs <= local.Keys
        then Some((s - Deallocated(sig)) + Restrict(local, sig.outputs))
        else None
  }

  function RunPartitions<V>(g: Graph, k: Kernel<V>, c: Store<V>, s: Store<V>, parts: seq<seq<SchedulerNode>>, sigs: seq<Signature>): Option<Store<V>>
    requires |parts| == |sigs|
    decreases |parts|
  {
    if parts == [] then Some(s)
    else
      match RunPartition(g, k, c, s, parts[0], sigs[0])
      case None => None
      case Some(s1) => RunPartitions(g, k, c, s1, parts[1..], sigs[1..])
  }

  function Flatten(parts: seq<seq<SchedulerNode>>): seq<SchedulerNode> {
    if parts == [] then [] else parts[0] + Flatten(parts[1..])
  }

  // ------------------------------------------------------- well-formed graphs

  /** The storages wanted by the given nodes or by the graph outputs. */
  ghost function Needs(g: Graph, nodes: seq<SchedulerNode>): set<Name> {
    Reals(g, g.outputs) + Freed(nodes) + (set n, x | n in nodes && x in Uses(g, n) :: x)
  }

  /** What the scheduler guarantees of a node, given the names defined before it and
      the nodes after it. */
  ghost predicate NodeOk(g: Graph, defined: set<Name>, n: SchedulerNode, rest: seq<SchedulerNode>) {
    // each name is produced once
    && n.outputs !! defined
    // allocated buffers are produced before they are accessed
    && (forall x :: x in Accesses(n) - n.outputs && Allocated(g, x) ==> x in defined)
    // a node that mutates a buffer also accesses it, and constants are not mutated
    && (forall x :: x in n.outputs && Allocated(g, x) && Real(g, x) != x ==>
          Real(g, x) in Uses(g, n) && Real(g, x) !in g.constants)
    // last uses are last uses
    && n.lastUsage !! Needs(g, rest)
    // and are recorded by real name
    && (forall x :: x in n.lastUsage && x in NameToNode(g) ==> x !in g.realName && x in defined + n.outputs)
  }

  ghost predicate NodesOk(g: Graph, defined: set<Name>, nodes: seq<SchedulerNode>)
    decreases |nodes|
  {
    if nodes == [] then forall o :: o in g.outputs && Allocated(g, o) ==> o in defined
    else NodeOk(g, defined, nodes[0], nodes[1..]) && NodesOk(g, defined + nodes[0].outputs, nodes[1..])
  }

  ghost predicate WellFormed(g: Graph) {
    && g.inputs !! g.constants
    && g.realName.Keys !! g.inputs + g.constants
    && Outputs(g.nodes) !! g.constants
    && NodesOk(g, g.inputs + g.constants, g.nodes)
  }

  /** The storages written by the given nodes. */
  function Written(g: Graph, nodes: seq<SchedulerNode>): set<Name> {
    set x | x in Outputs(nodes) && Allocated(g, x) :: Real(g, x)
  }

  /** Every buffer a partition asks for is allocated, and every storage that one of its
      nodes uses is asked for, a constant, or written by an earlier node of it. */
  predicate Supplied(g: Graph, p: seq<SchedulerNode>) {
    && (forall x :: x in InputNodes(g, p) ==> !IsNoneLayout(g, x))
    && (forall m :: 0 <= m < |p| ==> Uses(g, p[m]) <= InputNodes(g, p) + g.constants + Written(g, p[..m]))
  }

  // ------------------------------------------------------------- small lemmas

  lemma OutputsConcat(a: seq<SchedulerNode>, b: seq<SchedulerNode>)
    ensures Outputs(a + b) == Outputs(a) + Outputs(b)
    ensures Freed(a + b) == Freed(a) + Freed(b)
  {
  }

  lemma NeedsConcat(g: Graph, a: seq<SchedulerNode>, b: seq<SchedulerNode>)
    ensures Needs(g, b) <= Needs(g, a + b)
    ensures Freed(a) <= Needs(g, a + b)
    ensures forall n :: n in a ==> Uses(g, n) <= Needs(g, a + b)
  {
    assert forall n :: n in b ==> n in a + b;
    assert forall n :: n in a ==> n in a + b;
  }

  lemma {:induction false} NodesOkSuffix(g: Graph, defined: set<Name>, a: seq<SchedulerNode>, b: seq<SchedulerNode>)
    requires NodesOk(g, defined, a + b)
    ensures NodesOk(g, defined + Outputs(a), b)
    decreases |a|
  {
    if a == [] {
      assert a + b == b;
      assert defined + Outputs(a) == defined;
    } else {
      assert (a + b)[1..] == a[1..] + b;
      NodesOkSuffix(g, defined + a[0].outputs, a[1..], b);
      OutputsConcat([a[0]], a[1..]);
      assert a == [a[0]] + a[1..];
      assert defined + Outputs(a) == defined + a[0].outputs + Outputs(a[1..]);
    }
  }

  /** The guarantee for node m of a partition. */
  lemma NodeOkAt(g: Graph, defined: set<Name>, p: seq<SchedulerNode>, rest: seq<SchedulerNode>, m: nat)
    requires NodesOk(g, defined, p + rest) && m < |p|
    ensures NodeOk(g, defined + Outputs(p[..m]), p[m], p[m + 1..] + rest)
  {
    assert p + rest == p[..m] + ([p[m]] + (p[m + 1..] + rest));
    NodesOkSuffix(g, defined, p[..m], [p[m]] + (p[m + 1..] + rest));
    assert ([p[m]] + (p[m + 1..] + rest))[1..] == p[m + 1..] + rest;
  }

  lemma {:induction false} OutputsAreNew(g: Graph, defined: set<Name>, p: seq<SchedulerNode>, rest: seq<SchedulerNode>)
    requires NodesOk(g, defined, p + rest)
    ensures Outputs(p) !! defined
  {
    forall n, x | n in p && x in n.outputs ensures x !in defined {
      var m :| 0 <= m < |p| && p[m] == n;
      NodeOkAt(g, defined, p, rest, m);
    }
  }

  /** A name freed inside a partition is wanted by nothing after that partition. */
  lemma FreedNotNeeded(g: Graph, defined: set<Name>, p: seq<SchedulerNode>, rest: seq<SchedulerNode>)
    requires NodesOk(g, defined, p + rest)
    ensures Freed(p) !! Needs(g, rest)
    ensures forall x :: x in Freed(p) && x in NameToNode(g) ==> x !in g.realName && x in defined + Outputs(p)
  {
    forall n, x | n in p && x in n.lastUsage
      ensures x !in Needs(g, rest)
      ensures x in NameToNode(g) ==> x !in g.realName && x in defined + Outputs(p)
    {
      var m :| 0 <= m < |p| && p[m] == n;
      NodeOkAt(g, defined, p, rest, m);
      NeedsConcat(g, p[m + 1..], rest);
      OutputsConcat(p[..m], p[m..]);
      assert p == p[..m] + p[m..];
    }
  }

  /** Nor by a later node of the same partition. */
  lemma FreedNotUsed(g: Graph, defined: set<Name>, p: seq<SchedulerNode>, rest: seq<SchedulerNode>, m: nat)
    requires NodesOk(g, defined, p + rest) && m < |p|
    ensures Freed(p[..m]) !! Uses(g, p[m])
  {
    assert p[..m] + (p[m..] + rest) == p + rest;
    FreedNotNeeded(g, defined, p[..m], p[m..] + rest);
    assert p[m] in p[m..];
    NeedsConcat(g, p[m..], rest);
  }

  lemma InputIsNeeded(g: Graph, defined: set<Name>, p: seq<SchedulerNode>, rest: seq<SchedulerNode>, x: Name)
    requires NodesOk(g, defined, p + rest)
    requires x in InputNames(g, p)
    ensures Real(g, x) == x
    ensures !IsNoneLayout(g, x) ==> x in Needs(g, p + rest)
  {
    NeedsConcat(g, p, rest);
    InputIsAccessed(g, p, x);
    if x in Freed(p) && x in NameToNode(g) {
      FreedNotNeeded(g, defined, p, rest);
    }
  }

  lemma {:induction false} UnmetIsNeeded(g: Graph, defined: set<Name>, parts: seq<seq<SchedulerNode>>, x: Name)
    requires NodesOk(g, defined, Flatten(parts))
    requires x in UnmetBefore(g, parts) && Allocated(g, x)
    ensures Real(g, x) in Needs(g, Flatten(parts))
    decreases |parts|
  {
    if parts != [] {
      var p, rest := parts[0], Flatten(parts[1..]);
      if x in InputNames(g, p) {
        InputIsNeeded(g, defined, p, rest, x);
      } else {
        NodesOkSuffix(g, defined, p, rest);
        UnmetIsNeeded(g, defined + Outputs(p), parts[1..], x);
        NeedsConcat(g, p, rest);
      }
    }
  }

  lemma InputIsAccessed(g: Graph, p: seq<SchedulerNode>, x: Name)
    requires x in InputNames(g, p)
    ensures (x in Freed(p) && x in NameToNode(g)) ||
            (Real(g, x) == x && (!IsNoneLayout(g, x) ==> exists n :: n in p && x in Uses(g, n)))
  {
    if !(x in Freed(p) && x in NameToNode(g)) {
      var y :| y in ReadsWrites(p) - Outputs(p) && !IsNoneLayout(g, y) && x == Real(g, y);
      if !IsNoneLayout(g, x) {
        var n :| n in p && y in Accesses(n);
        assert y !in n.outputs;
        assert Allocated(g, y);
        assert x in Uses(g, n);
      }
    }
  }

  // -------------------------------------------- what is defined before a partition

  ghost predicate Globals(g: Graph) {
    && g.inputs !! g.constants
    && g.realName.Keys !! g.inputs + g.constants
    && Outputs(g.nodes) !! g.constants
  }

  /** d is a set of names defined at some point of the graph: with a mutation name
      it holds the buffer mutated, which is no constant. */
  ghost predicate Defines(g: Graph, d: set<Name>) {
    && g.constants <= d <= NameToNode(g) + g.constants
    && (forall x :: x in d && Allocated(g, x) ==> Real(g, x) in d && (x !in g.constants ==> Real(g, x) !in g.constants))
  }

  lemma {:induction false} DefinesMore(g: Graph, d: set<Name>, p: seq<SchedulerNode>, rest: seq<SchedulerNode>, m: nat)
    requires Globals(g) && Defines(g, d) && NodesOk(g, d, p + rest) && m <= |p|
    requires Outputs(p) <= Outputs(g.nodes)
    ensures Defines(g, d + Outputs(p[..m]))
  {
    hide *;
    if m == 0 {
      NothingUpTo(p);
      assert d + Outputs(p[..m]) == d;
    } else {
      DefinesMore(g, d, p, rest, m - 1);
      NodeOkAt(g, d, p, rest, m - 1);
      OutputsUpTo(p, m);
      assert d + Outputs(p[..m]) == d + Outputs(p[..m - 1]) + p[m - 1].outputs;
      DefinesOneMore(g, d + Outputs(p[..m - 1]), p[m - 1], p[m - 1 + 1..] + rest);
    }
  }

  lemma NothingUpTo(p: seq<SchedulerNode>)
    ensures Outputs(p[..0]) == {}
  {
  }

  lemma OutputsUpTo(p: seq<SchedulerNode>, m: nat)
    requires 1 <= m <= |p|
    ensures Outputs(p[..m]) == Outputs(p[..m - 1]) + p[m - 1].outputs
    ensures p[m - 1].outputs <= Outputs(p)
  {
    OutputsSnoc(p, m - 1);
    OutputsConcat(p[..m], p[m..]);
    assert p == p[..m] + p[m..];
  }

  lemma DefinesOneMore(g: Graph, d: set<Name>, n: SchedulerNode, rest: seq<SchedulerNode>)
    requires Globals(g) && Defines(g, d) && NodeOk(g, d, n, rest) && n.outputs <= Outputs(g.nodes)
    ensures Defines(g, d + n.outputs)
  {
    UsesAreDefined(g, d, n, rest);
    forall x | x in n.outputs && Allocated(g, x) && Real(g, x) != x
      ensures Real(g, x) in d && Real(g, x) !in g.constants
    {
      assert Real(g, x) in Uses(g, n);
    }
  }

  lemma UsesAreDefined(g: Graph, d: set<Name>, n: SchedulerNode, rest: seq<SchedulerNode>)
    requires Defines(g, d) && NodeOk(g, d, n, rest)
    ensures Uses(g, n) <= d
  {
  }

  /** Allocated partition inputs are defined before the partition and not produced in it. */
  lemma InputsAreDefined(g: Graph, d: set<Name>, p: seq<SchedulerNode>, rest: seq<SchedulerNode>, x: Name)
    requires Defines(g, d) && NodesOk(g, d, p + rest)
    requires x in InputNames(g, p) && !IsNoneLayout(g, x)
    ensures x in d && x !in Outputs(p)
  {
    OutputsAreNew(g, d, p, rest);
    if x in Freed(p) - Outputs(p) && x in NameToNode(g) {
      FreedNotNeeded(g, d, p, rest);
    } else {
      var y :| y in ReadsWrites(p) - Outputs(p) && !IsNoneLayout(g, y) && x == Real(g, y);
      AccessedIsDefined(g, d, p, rest, y);
    }
  }

  lemma AccessedIsDefined(g: Graph, d: set<Name>, p: seq<SchedulerNode>, rest: seq<SchedulerNode>, y: Name)
    requires Defines(g, d) && NodesOk(g, d, p + rest)
    requires y in ReadsWrites(p) - Outputs(p) && Allocated(g, y)
    ensures y in d
  {
    var n :| n in p && y in Accesses(n);
    var m :| 0 <= m < |p| && p[m] == n;
    NodeOkAt(g, d, p, rest, m);
    OutputsConcat(p[..m], p[m..]);
    assert p == p[..m] + p[m..];
  }

  /** What a node of a supplied partition mutates comes from outside or was written before. */
  lemma MutatedIsSupplied(g: Graph, d: set<Name>, p: seq<SchedulerNode>, rest: seq<SchedulerNode>, m: nat, o: Name)
    requires Supplied(g, p) && NodesOk(g, d, p + rest) && m < |p|
    requires o in p[m].outputs && Allocated(g, o) && Real(g, o) != o
    ensures Real(g, o) in InputNodes(g, p) + Written(g, p[..m])
  {
    NodeOkAt(g, d, p, rest, m);
    hide InputNodes, Written, NodesOk, Real, Allocated;
    assert Real(g, o) in Uses(g, p[m]) && Real(g, o) !in g.constants;
  }

  /** A buffer written inside a supplied partition is produced there or is one of its inputs. */
  lemma {:induction false} WrittenIsInput(g: Graph, d: set<Name>, p: seq<SchedulerNode>, rest: seq<SchedulerNode>, m: nat, o: Name)
    requires Supplied(g, p) && NodesOk(g, d, p + rest) && m <= |p|
    requires o in Outputs(p[..m]) && Allocated(g, o)
    ensures Real(g, o) in Outputs(p) + InputNodes(g, p)
  {
    hide *;
    var i := ProducerOf(p, m, o);
    if Real(g, o) != o {
      MutatedIsSupplied(g, d, p, rest, i, o);
      if Real(g, o) !in InputNodes(g, p) {
        var o' := WriterOf(g, p[..i], Real(g, o));
        WrittenIsInput(g, d, p, rest, i, o');
      }
    }
  }

  lemma ProducerOf(p: seq<SchedulerNode>, m: nat, o: Name) returns (i: nat)
    requires m <= |p| && o in Outputs(p[..m])
    ensures i < m && o in p[i].outputs && o in Outputs(p)
  {
    var n :| n in p[..m] && o in n.outputs;
    i :| 0 <= i < m && p[i] == n;
    assert n in p;
  }

  lemma WriterOf(g: Graph, nodes: seq<SchedulerNode>, x: Name) returns (o: Name)
    requires x in Written(g, nodes)
    ensures o in Outputs(nodes) && Allocated(g, o) && Real(g, o) == x
  {
    o :| o in Outputs(nodes) && Allocated(g, o) && Real(g, o) == x;
  }

  // --------------------------------------------------- inside a partition function

  ghost predicate Agrees<V(!new)>(a: Store<V>, b: Store<V>) {
    forall x :: x in a ==> x in b && a[x] == b[x]
  }

  /** Halfway through a partition: everything received or written and not yet freed
      is there, with the value it has in the whole graph. */
  ghost predicate BodyInv<V(!new)>(g: Graph, p: seq<SchedulerNode>, m: nat, local: Store<V>, whole: Store<V>)
    requires m <= |p|
  {
    && Agrees(local, whole)
    && local.Keys !! g.constants && whole.Keys !! g.constants
    && (forall x :: x in InputNodes(g, p) && x !in Freed(p[..m]) ==> x in local)
    && (forall o :: o in Outputs(p[..m]) && Allocated(g, o) && Real(g, o) !in Freed(p[..m]) ==> Real(g, o) in local)
  }

  lemma UsesArePresent<V(!new)>(g: Graph, d: set<Name>, p: seq<SchedulerNode>, rest: seq<SchedulerNode>, m: nat,
                                local: Store<V>, whole: Store<V>)
    requires Supplied(g, p) && NodesOk(g, d, p + rest) && m < |p|
    requires BodyInv(g, p, m, local, whole)
    ensures Uses(g, p[m]) <= local.Keys + g.constants
  {
    FreedNotUsed(g, d, p, rest, m);
  }

  lemma SameWrites<V(!new)>(g: Graph, k: Kernel<V>, c: Store<V>, n: SchedulerNode, local: Store<V>, whole: Store<V>)
    requires Agrees(local, whole) && Uses(g, n) <= local.Keys + c.Keys
    requires local.Keys !! c.Keys && whole.Keys !! c.Keys
    ensures Writes(g, k, n, c + local) == Writes(g, k, n, c + whole)
  {
    assert Restrict(c + local, Uses(g, n)) == Restrict(c + whole, Uses(g, n));
  }

  lemma StoresNoConstant(g: Graph, d: set<Name>, n: SchedulerNode, rest: seq<SchedulerNode>)
    requires Globals(g) && NodeOk(g, d, n, rest) && n.outputs <= Outputs(g.nodes)
    ensures Stores(g, n) !! g.constants
  {
  }

  lemma BodyInvKept<V(!new)>(g: Graph, p: seq<SchedulerNode>, m: nat, local: Store<V>, whole: Store<V>, w: Store<V>)
    requires m < |p| && BodyInv(g, p, m, local, whole)
    requires w.Keys == Stores(g, p[m]) && w.Keys !! g.constants
    ensures BodyInv(g, p, m + 1, (local + w) - p[m].lastUsage, whole + w)
  {
    var n := p[m];
    OutputsSnoc(p, m);
    forall o | o in Outputs(p[..m + 1]) && Allocated(g, o) && Real(g, o) !in Freed(p[..m + 1])
      ensures Real(g, o) in (local + w) - n.lastUsage
    {
      if o in n.outputs {
        assert Real(g, o) in Stores(g, n);
      }
    }
  }

  lemma BodyStep<V(!new)>(g: Graph, k: Kernel<V>, c: Store<V>, d: set<Name>, p: seq<SchedulerNode>, rest: seq<SchedulerNode>,
                          m: nat, local: Store<V>, whole: Store<V>)
    requires Globals(g) && Supplied(g, p) && NodesOk(g, d, p + rest) && m < |p|
    requires Outputs(p) <= Outputs(g.nodes) && c.Keys == g.constants
    requires BodyInv(g, p, m, local, whole)
    ensures Uses(g, p[m]) <= (c + local).Keys
    ensures BodyInv(g, p, m + 1, (local + Writes(g, k, p[m], c + local)) - p[m].lastUsage,
                    whole + Writes(g, k, p[m], c + whole))
  {
    var n := p[m];
    UsesArePresent(g, d, p, rest, m, local, whole);
    SameWrites(g, k, c, n, local, whole);
    NodeOkAt(g, d, p, rest, m);
    assert n in p && n.outputs <= Outputs(p);
    StoresNoConstant(g, d + Outputs(p[..m]), n, p[m + 1..] + rest);
    BodyInvKept(g, p, m, local, whole, Writes(g, k, n, c + local));
  }

  lemma {:induction false} BodyRuns<V(!new)>(g: Graph, k: Kernel<V>, c: Store<V>, d: set<Name>, p: seq<SchedulerNode>, rest: seq<SchedulerNode>,
                           m: nat, local: Store<V>, whole: Store<V>)
    requires Globals(g) && Supplied(g, p) && NodesOk(g, d, p + rest) && m <= |p|
    requires Outputs(p) <= Outputs(g.nodes) && c.Keys == g.constants
    requires BodyInv(g, p, 0, local, whole)
    ensures var r := RunBody(g, k, c, local, p[..m]);
            r.Some? && BodyInv(g, p, m, r.value, RunGraph(g, k, c, whole, p[..m]))
  {
    hide Globals, Supplied, NodesOk, BodyInv, Uses, Writes, Outputs;
    if m > 0 {
      BodyRuns(g, k, c, d, p, rest, m - 1, local, whole);
      assert p[..m][|p[..m]| - 1] == p[m - 1];
      assert p[..m][..|p[..m]| - 1] == p[..m - 1];
      var l := RunBody(g, k, c, local, p[..m - 1]).value;
      BodyStep(g, k, c, d, p, rest, m - 1, l, RunGraph(g, k, c, whole, p[..m - 1]));
    }
  }

  // ------------------------------------------------------------ between partitions

  /** Before the remaining partitions run: the caller holds every wanted buffer that
      is already defined, with its value in the whole graph, and none that was freed. */
  ghost predicate CallerInv<V(!new)>(g: Graph, parts: seq<seq<SchedulerNode>>, d: set<Name>, gone: set<Name>,
                                     s: Store<V>, whole: Store<V>)
  {
    && Agrees(s, whole) && whole.Keys !! g.constants
    && (forall x :: x in s ==> x in d && x in NameToNode(g) && x !in g.realName && !IsNoneLayout(g, x))
    && (forall x :: x in UnmetBefore(g, parts) && x in d && x in NameToNode(g) && Allocated(g, x) ==> Real(g, x) in s)
    && s.Keys !! gone && gone !! Needs(g, Flatten(parts))
  }

  /** The caller can pass what a partition asks for exactly when all of it is allocated. */
  lemma InputsHeld<V(!new)>(g: Graph, d: set<Name>, gone: set<Name>, parts: seq<seq<SchedulerNode>>, s: Store<V>, whole: Store<V>)
    requires Defines(g, d) && parts != [] && NodesOk(g, d, Flatten(parts))
    requires CallerInv(g, parts, d, gone, s, whole)
    ensures InputNodes(g, parts[0]) <= s.Keys <==> forall x :: x in InputNodes(g, parts[0]) ==> !IsNoneLayout(g, x)
  {
    var p, rest := parts[0], Flatten(parts[1..]);
    forall x | x in InputNodes(g, p) && !IsNoneLayout(g, x) ensures x in s {
      InputsAreDefined(g, d, p, rest, x);
      InputIsNeeded(g, d, p, rest, x);
    }
  }

  /** A node that needs more than its partition asks for or writes stops the call. */
  lemma {:induction false} BodyKeys<V(!new)>(g: Graph, k: Kernel<V>, c: Store<V>, args: Store<V>, p: seq<SchedulerNode>, m: nat)
    requires m <= |p| && c.Keys == g.constants
    ensures var r := RunBody(g, k, c, args, p[..m]);
            r.Some? ==> r.value.Keys <= args.Keys + Written(g, p[..m])
    ensures RunBody(g, k, c, args, p[..m]).Some? ==>
              forall i :: 0 <= i < m ==> Uses(g, p[i]) <= args.Keys + g.constants + Written(g, p[..i])
  {
    hide Written, Stores, Uses;
    if m > 0 {
      BodyKeys(g, k, c, args, p, m - 1);
      assert p[..m][..|p[..m]| - 1] == p[..m - 1];
      WrittenNext(g, p, m);
    }
  }

  lemma WrittenNext(g: Graph, p: seq<SchedulerNode>, m: nat)
    requires 1 <= m <= |p|
    ensures Written(g, p[..m]) == Written(g, p[..m - 1]) + Stores(g, p[m - 1])
  {
    OutputsSnoc(p, m - 1);
  }

  /** What a partition returns was not freed in it. */
  lemma OutputsAreLive<V(!new)>(g: Graph, d: set<Name>, parts: seq<seq<SchedulerNode>>, local: Store<V>, whole: Store<V>)
    requires parts != [] && NodesOk(g, d, Flatten(parts))
    requires BodyInv(g, parts[0], |parts[0]|, local, whole)
    ensures OutputNodes(g, parts[0], UnmetBefore(g, parts[1..])) <= local.Keys
  {
    var p, rest := parts[0], Flatten(parts[1..]);
    var unmet := UnmetBefore(g, parts[1..]);
    assert p[..|p|] == p;
    FreedNotNeeded(g, d, p, rest);
    NodesOkSuffix(g, d, p, rest);
    forall x | x in OutputNodes(g, p, unmet) ensures x in local {
      var y :| y in Outputs(p) * unmet + (InputNodes(g, p) - Freed(p)) && x == Real(g, y);
      if y in Outputs(p) * unmet {
        UnmetIsNeeded(g, d + Outputs(p), parts[1..], y);
      } else {
        InputIsNeeded(g, d, p, rest, y);
      }
    }
  }

  lemma ReturnedAreNeeded(g: Graph, d: set<Name>, parts: seq<seq<SchedulerNode>>)
    requires Globals(g) && Defines(g, d) && parts != [] && NodesOk(g, d, Flatten(parts))
    requires Outputs(parts[0]) <= Outputs(g.nodes)
    ensures
      var p := parts[0];
      var returned := OutputNodes(g, p, UnmetBefore(g, parts[1..]));
      && returned <= Needs(g, Flatten(parts)) - Freed(p)
      && returned <= d + Outputs(p)
      && returned <= NameToNode(g)
      && returned !! g.realName.Keys
  {
    var p, rest := parts[0], Flatten(parts[1..]);
    var unmet := UnmetBefore(g, parts[1..]);
    FreedNotNeeded(g, d, p, rest);
    NodesOkSuffix(g, d, p, rest);
    NeedsConcat(g, p, rest);
    assert p[..|p|] == p;
    DefinesMore(g, d, p, rest, |p|);
    forall x | x in OutputNodes(g, p, unmet)
      ensures x in Needs(g, Flatten(parts)) - Freed(p) && x in d + Outputs(p) && x in NameToNode(g)
    {
      var y :| y in Outputs(p) * unmet + (InputNodes(g, p) - Freed(p)) && x == Real(g, y);
      if y in Outputs(p) * unmet {
        UnmetIsNeeded(g, d + Outputs(p), parts[1..], y);
      } else {
        InputIsNeeded(g, d, p, rest, y);
        InputsAreDefined(g, d, p, rest, y);
      }
    }
  }

  lemma {:induction false} RunGraphUntouched<V(!new)>(g: Graph, k: Kernel<V>, c: Store<V>, s: Store<V>, nodes: seq<SchedulerNode>, x: Name)
    requires forall o :: o in Outputs(nodes) && Allocated(g, o) ==> Real(g, o) != x
    ensures x in s ==> x in RunGraph(g, k, c, s, nodes) && RunGraph(g, k, c, s, nodes)[x] == s[x]
    decreases |nodes|
  {
    if nodes != [] {
      var m := |nodes| - 1;
      OutputsSnoc(nodes, m);
      assert nodes[..m + 1] == nodes;
      RunGraphUntouched(g, k, c, s, nodes[..m], x);
    }
  }

  /** A buffer the caller keeps but does not get back was not written. */
  lemma KeptIsUntouched<V(!new)>(g: Graph, d: set<Name>, parts: seq<seq<SchedulerNode>>, x: Name, k: Kernel<V>, c: Store<V>, whole: Store<V>)
    requires parts != [] && NodesOk(g, d, Flatten(parts)) && Supplied(g, parts[0])
    requires x in d && x in NameToNode(g) && x !in g.realName && !IsNoneLayout(g, x) && x in whole
    requires x !in OutputNodes(g, parts[0], UnmetBefore(g, parts[1..]))
    requires !(x in InputNodes(g, parts[0]) && x in Freed(parts[0]))
    ensures x in RunGraph(g, k, c, whole, parts[0]) && RunGraph(g, k, c, whole, parts[0])[x] == whole[x]
  {
    var p, rest := parts[0], Flatten(parts[1..]);
    OutputsAreNew(g, d, p, rest);
    assert p[..|p|] == p;
    var unmet := UnmetBefore(g, parts[1..]);
    assert x in InputNodes(g, p) - Freed(p) ==> Real(g, x) in ReturnedNames(g, p, unmet);
    forall o | o in Outputs(p) && Allocated(g, o) ensures Real(g, o) != x {
      WrittenIsInput(g, d, p, rest, |p|, o);
    }
    RunGraphUntouched(g, k, c, whole, p, x);
  }

  /** What is still wanted after a partition is held by the caller. */
  lemma WantedIsHeld<V(!new)>(g: Graph, d: set<Name>, gone: set<Name>, parts: seq<seq<SchedulerNode>>, s: Store<V>, whole: Store<V>, x: Name)
    requires Globals(g) && Defines(g, d) && parts != [] && NodesOk(g, d, Flatten(parts))
    requires CallerInv(g, parts, d, gone, s, whole)
    requires x in UnmetBefore(g, parts[1..]) && x in d + Outputs(parts[0]) && x in NameToNode(g) && Allocated(g, x)
    ensures Real(g, x) in OutputNodes(g, parts[0], UnmetBefore(g, parts[1..])) ||
            (Real(g, x) in s && Real(g, x) !in Freed(parts[0]))
  {
    var p, rest := parts[0], Flatten(parts[1..]);
    FreedNotNeeded(g, d, p, rest);
    NodesOkSuffix(g, d, p, rest);
    UnmetIsNeeded(g, d + Outputs(p), parts[1..], x);
    if x in Outputs(p) {
      assert Real(g, x) in ReturnedNames(g, p, UnmetBefore(g, parts[1..]));
    }
  }

  /** The caller's store after a partition call. */
  function AfterCall<V>(s: Store<V>, local: Store<V>, sig: Signature): Store<V> {
    (s - Deallocated(sig)) + Restrict(local, sig.outputs)
  }

  lemma AfterCallDefined<V(!new)>(g: Graph, d: set<Name>, gone: set<Name>, parts: seq<seq<SchedulerNode>>, s: Store<V>,
                                  whole: Store<V>, local: Store<V>, sig: Signature, x: Name)
    requires Globals(g) && Defines(g, d) && parts != [] && NodesOk(g, d, Flatten(parts))
    requires Outputs(parts[0]) <= Outputs(g.nodes)
    requires CallerInv(g, parts, d, gone, s, whole)
    requires sig == SignatureOf(g, parts[0], sig.skipCudagraph, UnmetBefore(g, parts[1..]))
    requires x in AfterCall(s, local, sig)
    ensures x in d + Outputs(parts[0]) && x in NameToNode(g) && x !in g.realName && !IsNoneLayout(g, x)
  {
    hide Defines, NodesOk, Globals;
    ReturnedAreNeeded(g, d, parts);
  }

  lemma FreedStaysUnneeded<V(!new)>(g: Graph, d: set<Name>, gone: set<Name>, parts: seq<seq<SchedulerNode>>, s: Store<V>, whole: Store<V>)
    requires Globals(g) && Defines(g, d) && parts != [] && NodesOk(g, d, Flatten(parts))
    requires CallerInv(g, parts, d, gone, s, whole)
    ensures gone + Freed(parts[0]) !! Needs(g, Flatten(parts[1..]))
  {
    var p, rest := parts[0], Flatten(parts[1..]);
    FreedNotNeeded(g, d, p, rest);
    NeedsConcat(g, p, rest);
    OutputsAreNew(g, d, p, rest);
  }

  lemma FreedNotKept<V(!new)>(g: Graph, d: set<Name>, gone: set<Name>, parts: seq<seq<SchedulerNode>>, s: Store<V>, whole: Store<V>,
                              local: Store<V>, sig: Signature, x: Name)
    requires Globals(g) && Defines(g, d) && parts != [] && NodesOk(g, d, Flatten(parts))
    requires Outputs(parts[0]) <= Outputs(g.nodes)
    requires CallerInv(g, parts, d, gone, s, whole)
    requires sig == SignatureOf(g, parts[0], sig.skipCudagraph, UnmetBefore(g, parts[1..]))
    requires x in AfterCall(s, local, sig)
    ensures x !in gone + Freed(parts[0])
  {
    var p, rest := parts[0], Flatten(parts[1..]);
    ReturnedAreNeeded(g, d, parts);
    OutputsAreNew(g, d, p, rest);
    hide Defines, NodesOk;
    assert x in Freed(p) && x in s ==> x in InputNames(g, p);
  }

  lemma AfterCallKeys<V(!new)>(g: Graph, d: set<Name>, gone: set<Name>, parts: seq<seq<SchedulerNode>>, s: Store<V>, whole: Store<V>,
                               local: Store<V>, sig: Signature)
    requires Globals(g) && Defines(g, d) && parts != [] && NodesOk(g, d, Flatten(parts))
    requires Outputs(parts[0]) <= Outputs(g.nodes)
    requires CallerInv(g, parts, d, gone, s, whole)
    requires sig == SignatureOf(g, parts[0], sig.skipCudagraph, UnmetBefore(g, parts[1..]))
    ensures
      var after := AfterCall(s, local, sig);
      && (forall x :: x in after ==> x in d + Outputs(parts[0]) && x in NameToNode(g) && x !in g.realName && !IsNoneLayout(g, x))
      && after.Keys !! gone + Freed(parts[0])
      && gone + Freed(parts[0]) !! Needs(g, Flatten(parts[1..]))
  {
    hide *;
    FreedStaysUnneeded(g, d, gone, parts, s, whole);
    forall x | x in AfterCall(s, local, sig)
      ensures x in d + Outputs(parts[0]) && x in NameToNode(g) && x !in g.realName && !IsNoneLayout(g, x)
      ensures x !in gone + Freed(parts[0])
    {
      AfterCallDefined(g, d, gone, parts, s, whole, local, sig, x);
      FreedNotKept(g, d, gone, parts, s, whole, local, sig, x);
    }
  }

  lemma AfterCallAgrees<V(!new)>(g: Graph, k: Kernel<V>, c: Store<V>, d: set<Name>, gone: set<Name>, parts: seq<seq<SchedulerNode>>,
                                 s: Store<V>, whole: Store<V>, local: Store<V>, sig: Signature)
    requires parts != [] && NodesOk(g, d, Flatten(parts)) && Supplied(g, parts[0])
    requires CallerInv(g, parts, d, gone, s, whole)
    requires sig == SignatureOf(g, parts[0], sig.skipCudagraph, UnmetBefore(g, parts[1..]))
    requires Agrees(local, RunGraph(g, k, c, whole, parts[0])) && sig.outputs <= local.Keys
    ensures Agrees(AfterCall(s, local, sig), RunGraph(g, k, c, whole, parts[0]))
  {
    var p := parts[0];
    var after := AfterCall(s, local, sig);
    forall x | x in after && x !in sig.outputs
      ensures x in RunGraph(g, k, c, whole, p) && after[x] == RunGraph(g, k, c, whole, p)[x]
    {
      assert x in s && x !in Deallocated(sig);
      KeptIsUntouched(g, d, parts, x, k, c, whole);
    }
  }

  lemma AfterCallWanted<V(!new)>(g: Graph, d: set<Name>, gone: set<Name>, parts: seq<seq<SchedulerNode>>, s: Store<V>, whole: Store<V>,
                                 local: Store<V>, sig: Signature)
    requires Globals(g) && Defines(g, d) && parts != [] && NodesOk(g, d, Flatten(parts))
    requires CallerInv(g, parts, d, gone, s, whole)
    requires sig == SignatureOf(g, parts[0], sig.skipCudagraph, UnmetBefore(g, parts[1..]))
    requires sig.outputs <= local.Keys
    ensures forall x :: x in UnmetBefore(g, parts[1..]) && x in d + Outputs(parts[0]) && x in NameToNode(g) && Allocated(g, x)
              ==> Real(g, x) in AfterCall(s, local, sig)
  {
    forall x | x in UnmetBefore(g, parts[1..]) && x in d + Outputs(parts[0]) && x in NameToNode(g) && Allocated(g, x)
      ensures Real(g, x) in AfterCall(s, local, sig)
    {
      WantedIsHeld(g, d, gone, parts, s, whole, x);
      assert Deallocated(sig) <= Freed(parts[0]);
    }
  }

  lemma BodyStarts<V(!new)>(g: Graph, p: seq<SchedulerNode>, s: Store<V>, whole: Store<V>)
    requires Agrees(s, whole) && whole.Keys !! g.constants && InputNodes(g, p) <= s.Keys
    ensures BodyInv(g, p, 0, Restrict(s, InputNodes(g, p)), whole)
  {
  }

  /** The call of a supplied partition: it succeeds and the caller is again in step with
      the whole graph. */
  lemma PartitionStep<V(!new)>(g: Graph, k: Kernel<V>, c: Store<V>, d: set<Name>, gone: set<Name>, parts: seq<seq<SchedulerNode>>,
                               skip: bool, s: Store<V>, whole: Store<V>)
    requires Globals(g) && Defines(g, d) && parts != [] && NodesOk(g, d, Flatten(parts))
    requires Outputs(parts[0]) <= Outputs(g.nodes) && c.Keys == g.constants
    requires CallerInv(g, parts, d, gone, s, whole)
    requires Supplied(g, parts[0])
    ensures
      var p := parts[0];
      var r := RunPartition(g, k, c, s, p, SignatureOf(g, p, skip, UnmetBefore(g, parts[1..])));
      r.Some? && CallerInv(g, parts[1..], d + Outputs(p), gone + Freed(p), r.value, RunGraph(g, k, c, whole, p))
  {
    var p, rest := parts[0], Flatten(parts[1..]);
    var sig := SignatureOf(g, p, skip, UnmetBefore(g, parts[1..]));
    InputsHeld(g, d, gone, parts, s, whole);
    BodyStarts(g, p, s, whole);
    assert p[..|p|] == p;
    var args := Restrict(s, sig.inputs);
    BodyRuns(g, k, c, d, p, rest, |p|, args, whole);
    var local := RunBody(g, k, c, args, p).value;
    OutputsAreLive(g, d, parts, local, RunGraph(g, k, c, whole, p));
    assert RunPartition(g, k, c, s, p, sig) == Some(AfterCall(s, local, sig));
    AfterCallKeys(g, d, gone, parts, s, whole, local, sig);
    AfterCallAgrees(g, k, c, d, gone, parts, s, whole, local, sig);
    AfterCallWanted(g, d, gone, parts, s, whole, local, sig);
  }

  lemma {:induction false} RunGraphConcat<V(!new)>(g: Graph, k: Kernel<V>, c: Store<V>, s: Store<V>, a: seq<SchedulerNode>, b: seq<SchedulerNode>)
    ensures RunGraph(g, k, c, s, a + b) == RunGraph(g, k, c, RunGraph(g, k, c, s, a), b)
    decreases |b|
  {
    if b == [] {
      assert a + b == a;
    } else {
      var m := |b| - 1;
      assert (a + b)[..|a + b| - 1] == a + b[..m];
      RunGraphConcat(g, k, c, s, a, b[..m]);
    }
  }

  // ------------------------------------------------------------------ main results

  /** The remaining partitions run through exactly when they are supplied, and then leave
      the caller in step with the whole graph. */
  ghost predicate KeepsStep<V(!new)>(g: Graph, k: Kernel<V>, c: Store<V>, d: set<Name>, gone: set<Name>,
                                     parts: seq<seq<SchedulerNode>>, skips: seq<bool>, s: Store<V>, whole: Store<V>)
    requires |parts| == |skips|
  {
    var r := RunPartitions(g, k, c, s, parts, Signatures(g, parts, skips));
    var nodes := Flatten(parts);
    && (r.Some? <==> forall p :: p in parts ==> Supplied(g, p))
    && (r.Some? ==> CallerInv(g, [], d + Outputs(nodes), gone + Freed(nodes), r.value, RunGraph(g, k, c, whole, nodes)))
  }

  lemma KeepsStepCons<V(!new)>(g: Graph, k: Kernel<V>, c: Store<V>, d: set<Name>, gone: set<Name>,
                               parts: seq<seq<SchedulerNode>>, skips: seq<bool>, s: Store<V>, whole: Store<V>, s1: Store<V>)
    requires parts != [] && |parts| == |skips| && Supplied(g, parts[0])
    requires RunPartition(g, k, c, s, parts[0], SignatureOf(g, parts[0], skips[0], UnmetBefore(g, parts[1..]))) == Some(s1)
    requires KeepsStep(g, k, c, d + Outputs(parts[0]), gone + Freed(parts[0]), parts[1..], skips[1..], s1,
                       RunGraph(g, k, c, whole, parts[0]))
    ensures KeepsStep(g, k, c, d, gone, parts, skips, s, whole)
  {
    var p, rest := parts[0], Flatten(parts[1..]);
    RunFirst(g, k, c, parts, skips, s, s1);
    OutputsConcat(p, rest);
    RunGraphConcat(g, k, c, whole, p, rest);
    assert Flatten(parts) == p + rest;
    assert forall q :: q in parts <==> q == p || q in parts[1..];
    hide Supplied, CallerInv, RunPartition, RunPartitions, RunGraph, Outputs, Freed, Flatten, Signatures, SignatureOf, UnmetBefore;
    assert d + Outputs(p) + Outputs(rest) == d + Outputs(p + rest);
    assert gone + Freed(p) + Freed(rest) == gone + Freed(p + rest);
  }

  lemma RunFirst<V>(g: Graph, k: Kernel<V>, c: Store<V>, parts: seq<seq<SchedulerNode>>, skips: seq<bool>, s: Store<V>, s1: Store<V>)
    requires parts != [] && |parts| == |skips|
    requires RunPartition(g, k, c, s, parts[0], SignatureOf(g, parts[0], skips[0], UnmetBefore(g, parts[1..]))) == Some(s1)
    ensures RunPartitions(g, k, c, s, parts, Signatures(g, parts, skips))
            == RunPartitions(g, k, c, s1, parts[1..], Signatures(g, parts[1..], skips[1..]))
  {
    hide RunPartition, SignatureOf, UnmetBefore;
    assert Signatures(g, parts, skips)[1..] == Signatures(g, parts[1..], skips[1..]);
  }

  lemma KeepsStepFails<V(!new)>(g: Graph, k: Kernel<V>, c: Store<V>, d: set<Name>, gone: set<Name>,
                                parts: seq<seq<SchedulerNode>>, skips: seq<bool>, s: Store<V>, whole: Store<V>)
    requires parts != [] && |parts| == |skips| && !Supplied(g, parts[0])
    requires RunPartition(g, k, c, s, parts[0], SignatureOf(g, parts[0], skips[0], UnmetBefore(g, parts[1..]))) == None
    ensures KeepsStep(g, k, c, d, gone, parts, skips, s, whole)
  {
    hide Supplied, SignatureOf, UnmetBefore, RunPartition;
    assert parts[0] in parts;
    assert Signatures(g, parts, skips)[0] == SignatureOf(g, parts[0], skips[0], UnmetBefore(g, parts[1..]));
  }

  /** The call of a partition that is not supplied fails. */
  lemma UnsuppliedFails<V(!new)>(g: Graph, k: Kernel<V>, c: Store<V>, d: set<Name>, gone: set<Name>,
                                 parts: seq<seq<SchedulerNode>>, skip: bool, s: Store<V>, whole: Store<V>)
    requires Defines(g, d) && parts != [] && NodesOk(g, d, Flatten(parts)) && c.Keys == g.constants
    requires CallerInv(g, parts, d, gone, s, whole)
    requires !Supplied(g, parts[0])
    ensures RunPartition(g, k, c, s, parts[0], SignatureOf(g, parts[0], skip, UnmetBefore(g, parts[1..]))) == None
  {
    var p := parts[0];
    InputsHeld(g, d, gone, parts, s, whole);
    hide CallerInv, NodesOk, Defines, InputNodes, UnmetBefore;
    if InputNodes(g, p) <= s.Keys {
      var args := Restrict(s, InputNodes(g, p));
      assert args.Keys == InputNodes(g, p);
      BodyKeys(g, k, c, args, p, |p|);
      assert p[..|p|] == p;
    }
  }

  lemma {:induction false} AllPartitions<V(!new)>(g: Graph, k: Kernel<V>, c: Store<V>, d: set<Name>, gone: set<Name>,
                                                  parts: seq<seq<SchedulerNode>>, skips: seq<bool>, s: Store<V>, whole: Store<V>)
    requires Globals(g) && Defines(g, d) && NodesOk(g, d, Flatten(parts)) && |parts| == |skips|
    requires Outputs(Flatten(parts)) <= Outputs(g.nodes) && c.Keys == g.constants
    requires CallerInv(g, parts, d, gone, s, whole)
    ensures KeepsStep(g, k, c, d, gone, parts, skips, s, whole)
    decreases |parts|
  {
    if parts == [] {
      assert d + Outputs([]) == d && gone + Freed([]) == gone;
    } else {
      var p, rest := parts[0], Flatten(parts[1..]);
      OutputsConcat(p, rest);
      if Supplied(g, p) {
        PartitionStep(g, k, c, d, gone, parts, skips[0], s, whole);
        var s1 := RunPartition(g, k, c, s, p, SignatureOf(g, p, skips[0], UnmetBefore(g, parts[1..]))).value;
        NodesOkSuffix(g, d, p, rest);
        assert p[..|p|] == p;
        DefinesMore(g, d, p, rest, |p|);
        AllPartitions(g, k, c, d + Outputs(p), gone + Freed(p), parts[1..], skips[1..], s1, RunGraph(g, k, c, whole, p));
        KeepsStepCons(g, k, c, d, gone, parts, skips, s, whole, s1);
      } else {
        UnsuppliedFails(g, k, c, d, gone, parts, skips[0], s, whole);
        KeepsStepFails(g, k, c, d, gone, parts, skips, s, whole);
      }
    }
  }

  /** Every division of a well-formed graph into consecutive partitions keeps its
      meaning: for every kernel and every input, the partitioned graph runs through
      exactly when every partition is supplied, it then leaves every graph output with
      the value the whole graph gives it, and nothing that was freed is still held. */
  lemma PartitioningKeepsMeaning<V(!new)>(g: Graph, k: Kernel<V>, c: Store<V>, args: Store<V>,
                                          parts: seq<seq<SchedulerNode>>, skips: seq<bool>)
    requires WellFormed(g) && Flatten(parts) == g.nodes && |parts| == |skips|
    requires c.Keys == g.constants
    requires args.Keys == set x | x in g.inputs && !IsNoneLayout(g, x)
    ensures
      var r := RunPartitions(g, k, c, args, parts, Signatures(g, parts, skips));
      var whole := RunGraph(g, k, c, args, g.nodes);
      && (r.Some? <==> forall p :: p in parts ==> Supplied(g, p))
      && (r.Some? ==> forall o :: o in g.outputs && Allocated(g, o) ==>
            && Real(g, o) in c + r.value && Real(g, o) in c + whole
            && (c + r.value)[Real(g, o)] == (c + whole)[Real(g, o)])
      && (r.Some? ==> r.value.Keys !! Freed(g.nodes))
  {
    var d := g.inputs + g.constants;
    InStepAtStart(g, parts, args);
    hide CallerInv, RunPartitions, RunGraph, NodesOk, Supplied;
    AllPartitions(g, k, c, d, {}, parts, skips, args, args);
    var r := RunPartitions(g, k, c, args, parts, Signatures(g, parts, skips));
    if r.Some? {
      assert {} + Freed(g.nodes) == Freed(g.nodes);
      InStepAtEnd(g, c, r.value, RunGraph(g, k, c, args, g.nodes));
    }
  }

  lemma InStepAtStart<V(!new)>(g: Graph, parts: seq<seq<SchedulerNode>>, args: Store<V>)
    requires WellFormed(g) && args.Keys == set x | x in g.inputs && !IsNoneLayout(g, x)
    ensures Globals(g) && Defines(g, g.inputs + g.constants)
    ensures CallerInv(g, parts, g.inputs + g.constants, {}, args, args)
  {
    hide NodesOk, UnmetBefore;
  }

  lemma InStepAtEnd<V(!new)>(g: Graph, c: Store<V>, held: Store<V>, whole: Store<V>)
    requires WellFormed(g) && c.Keys == g.constants
    requires CallerInv(g, [], g.inputs + g.constants + Outputs(g.nodes), Freed(g.nodes), held, whole)
    ensures forall o :: o in g.outputs && Allocated(g, o) ==>
              && Real(g, o) in c + held && Real(g, o) in c + whole
              && (c + held)[Real(g, o)] == (c + whole)[Real(g, o)]
    ensures held.Keys !! Freed(g.nodes)
  {
    var d := g.inputs + g.constants;
    assert UnmetBefore(g, []) == g.outputs;
    assert g.nodes == g.nodes + [] == g.nodes[..|g.nodes|];
    NodesOkSuffix(g, d, g.nodes, []);
    assert Defines(g, d);
    DefinesMore(g, d, g.nodes, [], |g.nodes|);
  }

  /** In a well-formed graph the pass never looks up a name without a node. */
  lemma {:induction false} LookupsNeverFail(g: Graph, d: set<Name>, parts: seq<seq<SchedulerNode>>)
    requires Globals(g) && Defines(g, d) && NodesOk(g, d, Flatten(parts))
    requires Outputs(Flatten(parts)) <= Outputs(g.nodes)
    ensures LookupsSucceed(g, parts)
    decreases |parts|
  {
    if parts != [] {
      var p, rest := parts[0], Flatten(parts[1..]);
      OutputsConcat(p, rest);
      ReturnedAreNeeded(g, d, parts);
      NodesOkSuffix(g, d, p, rest);
      assert p[..|p|] == p;
      DefinesMore(g, d, p, rest, |p|);
      LookupsNeverFail(g, d + Outputs(p), parts[1..]);
    }
  }

  /** Once written, a buffer stays in the store of the whole graph. */
  lemma {:induction false} WholeGraphKeeps<V(!new)>(g: Graph, k: Kernel<V>, c: Store<V>, args: Store<V>, m: nat, x: Name)
    requires m <= |g.nodes| && args.Keys == set x | x in g.inputs && !IsNoneLayout(g, x)
    requires g.realName.Keys !! g.inputs
    requires x in g.inputs + Outputs(g.nodes[..m]) && Allocated(g, x)
    ensures Real(g, x) in RunGraph(g, k, c, args, g.nodes[..m])
  {
    if m > 0 {
      assert g.nodes[..m][..|g.nodes[..m]| - 1] == g.nodes[..m - 1];
      OutputsSnoc(g.nodes, m - 1);
      if x in g.inputs + Outputs(g.nodes[..m - 1]) {
        WholeGraphKeeps(g, k, c, args, m - 1, x);
      } else {
        assert Real(g, x) in Stores(g, g.nodes[m - 1]);
      }
    }
  }

  /** The whole graph, run as one, finds every buffer its nodes use. */
  lemma WholeGraphNeverMisses<V(!new)>(g: Graph, k: Kernel<V>, c: Store<V>, args: Store<V>, m: nat)
    requires WellFormed(g) && m < |g.nodes| && c.Keys == g.constants
    requires args.Keys == set x | x in g.inputs && !IsNoneLayout(g, x)
    ensures Uses(g, g.nodes[m]) <= (c + RunGraph(g, k, c, args, g.nodes[..m])).Keys
  {
    var d := g.inputs + g.constants;
    assert g.nodes == g.nodes + [];
    NodeOkAt(g, d, g.nodes, [], m);
    hide RunGraph, NodesOk;
    forall y | y in Accesses(g.nodes[m]) - g.nodes[m].outputs && Allocated(g, y)
      ensures Real(g, y) in c + RunGraph(g, k, c, args, g.nodes[..m])
    {
      if y !in g.constants {
        WholeGraphKeeps(g, k, c, args, m, y);
      }
    }
  }

  // ------------------------------------- what is returned, and how long it survives

  /** A buffer defined before the given partitions and wanted by one of them or by
      the graph outputs stays on the list of unmet names. */
  lemma {:induction false} StaysUnmet(g: Graph, d: set<Name>, parts: seq<seq<SchedulerNode>>, x: Name)
    requires Globals(g) && Defines(g, d) && NodesOk(g, d, Flatten(parts))
    requires Outputs(Flatten(parts)) <= Outputs(g.nodes) && forall p :: p in parts ==> Supplied(g, p)
    requires x in d && Allocated(g, x)
    requires x in g.outputs || exists p :: p in parts && x in InputNames(g, p)
    ensures x in UnmetBefore(g, parts)
    decreases |parts|
  {
    if parts != [] && x !in InputNames(g, parts[0]) {
      var p, rest := parts[0], Flatten(parts[1..]);
      OutputsConcat(p, rest);
      NodesOkSuffix(g, d, p, rest);
      assert p[..|p|] == p;
      DefinesMore(g, d, p, rest, |p|);
      StaysUnmet(g, d + Outputs(p), parts[1..], x);
      OutputsAreNew(g, d, p, rest);
      var unmet := UnmetBefore(g, parts[1..]);
      forall y | y in Outputs(p) * unmet + (InputNodes(g, p) - Freed(p)) ensures Real(g, y) != x {
        if y in InputNodes(g, p) {
          InputIsNeeded(g, d, p, rest, y);
        } else if Real(g, y) == x {
          assert Real(g, x) == x;
          assert p in parts;
          WrittenIsInput(g, d, p, rest, |p|, y);
        }
      }
    }
  }

  lemma {:induction false} FlattenConcat(a: seq<seq<SchedulerNode>>, b: seq<seq<SchedulerNode>>)
    ensures Flatten(a + b) == Flatten(a) + Flatten(b)
  {
    if a == [] {
      assert a + b == b;
    } else {
      assert (a + b)[1..] == a[1..] + b;
      FlattenConcat(a[1..], b);
    }
  }

  /** What holds of the whole graph holds from partition j on. */
  lemma From(g: Graph, parts: seq<seq<SchedulerNode>>, j: nat)
    requires WellFormed(g) && Flatten(parts) == g.nodes && j <= |parts|
    ensures
      var d := g.inputs + g.constants + Outputs(Flatten(parts[..j]));
      Defines(g, d) && NodesOk(g, d, Flatten(parts[j..])) && Outputs(Flatten(parts[j..])) <= Outputs(g.nodes)
  {
    var front, back := Flatten(parts[..j]), Flatten(parts[j..]);
    FlattenConcat(parts[..j], parts[j..]);
    assert parts == parts[..j] + parts[j..];
    OutputsConcat(front, back);
    NodesOkSuffix(g, g.inputs + g.constants, front, back);
    assert front[..|front|] == front;
    DefinesMore(g, g.inputs + g.constants, front, back, |front|);
  }

  /** Wherever the partitions from j on are supplied: if j writes a buffer and a later
      partition k receives it, j returns it and no partition from j up to k frees it; if
      it is a graph output, j returns it. */
  lemma WrittenReachesItsReaders(g: Graph, parts: seq<seq<SchedulerNode>>, j: nat, o: Name)
    requires WellFormed(g) && Flatten(parts) == g.nodes && j < |parts|
    requires forall l :: j <= l < |parts| ==> Supplied(g, parts[l])
    requires o in Outputs(parts[j]) && Allocated(g, o)
    ensures
      var returned := OutputNodes(g, parts[j], UnmetBefore(g, parts[j + 1..]));
      && (o in g.outputs ==> Real(g, o) in returned)
      && (forall k :: j < k < |parts| && Real(g, o) in InputNodes(g, parts[k]) ==>
            && Real(g, o) in returned
            && forall l :: j <= l < k ==> Real(g, o) !in Freed(parts[l]))
  {
    var p, x := parts[j], Real(g, o);
    var d := g.inputs + g.constants + Outputs(Flatten(parts[..j]));
    var unmet := UnmetBefore(g, parts[j + 1..]);
    var rest := Flatten(parts[j + 1..]);
    From(g, parts, j);
    assert parts[j..][1..] == parts[j + 1..] && parts[j..][0] == p;
    assert Flatten(parts[j..]) == p + rest;
    OutputsConcat(p, rest);
    NodesOkSuffix(g, d, p, rest);
    assert p[..|p|] == p;
    DefinesMore(g, d, p, rest, |p|);
    if o in g.outputs {
      StaysUnmet(g, d + Outputs(p), parts[j + 1..], o);
      assert Real(g, o) in ReturnedNames(g, p, unmet);
    }
    forall k | j < k < |parts| && x in InputNodes(g, parts[k])
      ensures x in OutputNodes(g, p, unmet) && forall l :: j <= l < k ==> x !in Freed(parts[l])
    {
      assert parts[k] in parts[j + 1..];
      StaysUnmet(g, d + Outputs(p), parts[j + 1..], x);
      forall l | j <= l < k ensures x !in Freed(parts[l]) {
        InputSurvives(g, parts, l, k, x);
      }
      ReturnedIfUnmet(g, d, p, rest, unmet, o);
    }
  }

  lemma ReturnedIfUnmet(g: Graph, d: set<Name>, p: seq<SchedulerNode>, rest: seq<SchedulerNode>, unmet: set<Name>, o: Name)
    requires Globals(g) && Defines(g, d) && NodesOk(g, d, p + rest) && Supplied(g, p)
    requires Outputs(p) <= Outputs(g.nodes)
    requires o in Outputs(p) && Allocated(g, o) && Real(g, o) in unmet && Real(g, o) !in Freed(p)
    ensures Real(g, o) in OutputNodes(g, p, unmet)
  {
    var x := Real(g, o);
    assert p[..|p|] == p;
    DefinesMore(g, d, p, rest, |p|);
    WrittenIsInput(g, d, p, rest, |p|, o);
    if x !in Outputs(p) {
      assert x in InputNodes(g, p) - Freed(p);
    }
    assert Real(g, x) in ReturnedNames(g, p, unmet);
  }

  lemma NeededBy(g: Graph, parts: seq<seq<SchedulerNode>>, k: nat, x: Name)
    requires WellFormed(g) && Flatten(parts) == g.nodes && k < |parts|
    requires x in InputNames(g, parts[k]) && !IsNoneLayout(g, x)
    ensures x in Needs(g, Flatten(parts[k..]))
  {
    From(g, parts, k);
    assert parts[k..][0] == parts[k];
    InputIsNeeded(g, g.inputs + g.constants + Outputs(Flatten(parts[..k])), parts[k], Flatten(parts[k..][1..]), x);
  }

  lemma NeedsEarlier(g: Graph, parts: seq<seq<SchedulerNode>>, l: nat, k: nat)
    requires l <= k <= |parts|
    ensures Needs(g, Flatten(parts[k..])) <= Needs(g, Flatten(parts[l..]))
  {
    assert parts[l..] == parts[l..k] + parts[k..];
    FlattenConcat(parts[l..k], parts[k..]);
    NeedsConcat(g, Flatten(parts[l..k]), Flatten(parts[k..]));
  }

  lemma FreedThenUnwanted(g: Graph, parts: seq<seq<SchedulerNode>>, l: nat)
    requires WellFormed(g) && Flatten(parts) == g.nodes && l < |parts|
    ensures Freed(parts[l]) !! Needs(g, Flatten(parts[l + 1..]))
  {
    From(g, parts, l);
    assert parts[l..][0] == parts[l] && parts[l..][1..] == parts[l + 1..];
    FreedNotNeeded(g, g.inputs + g.constants + Outputs(Flatten(parts[..l])), parts[l], Flatten(parts[l + 1..]));
  }

  lemma InputSurvives(g: Graph, parts: seq<seq<SchedulerNode>>, l: nat, k: nat, x: Name)
    requires WellFormed(g) && Flatten(parts) == g.nodes && l < k < |parts|
    requires x in InputNames(g, parts[k]) && !IsNoneLayout(g, x)
    ensures x !in Freed(parts[l])
  {
    hide *;
    assert x in Needs(g, Flatten(parts[l + 1..])) by {
      NeededBy(g, parts, k, x);
      NeedsEarlier(g, parts, l + 1, k);
    }
    assert x !in Freed(parts[l]) by {
      FreedThenUnwanted(g, parts, l);
    }
  }

  // --------------------------------------------------- what the signatures promise

  lemma {:induction false} SignatureAt(g: Graph, parts: seq<seq<SchedulerNode>>, skips: seq<bool>, j: nat)
    requires |parts| == |skips| && j < |parts|
    ensures Signatures(g, parts, skips)[j] == SignatureOf(g, parts[j], skips[j], UnmetBefore(g, parts[j + 1..]))
  {
    hide SignatureOf, UnmetBefore;
    if j > 0 {
      SignatureAt(g, parts[1..], skips[1..], j - 1);
      assert parts[1..][j..] == parts[j + 1..];
    }
  }

  /** A name that a signature marks as deallocated was received, is not returned, is no
      graph output and, if it is allocated, is received by no later partition. */
  lemma DeallocatedIsDone(g: Graph, parts: seq<seq<SchedulerNode>>, skips: seq<bool>, j: nat, x: Name)
    requires WellFormed(g) && Flatten(parts) == g.nodes && |parts| == |skips| && j < |parts|
    requires var sig := Signatures(g, parts, skips)[j]; x in sig.inputDeallocation && sig.inputDeallocation[x]
    ensures var sigs := Signatures(g, parts, skips);
            && x in sigs[j].inputs && x !in sigs[j].outputs
            && x !in g.outputs && x !in Reals(g, g.outputs)
            && (!IsNoneLayout(g, x) ==> forall k :: j < k < |parts| ==> x !in sigs[k].inputs)
  {
    SignatureAt(g, parts, skips, j);
    assert x in Freed(parts[j]) && x in InputNodes(g, parts[j]);
    FreedThenUnwanted(g, parts, j);
    assert x !in Reals(g, g.outputs);
    FreedIsReal(g, parts, j, x);
    NotReturned(g, parts, j, x);
    hide *;
    if !IsNoneLayout(g, x) {
      forall k | j < k < |parts| ensures x !in Signatures(g, parts, skips)[k].inputs {
        NotReceivedLater(g, parts, skips, j, k, x);
      }
    }
  }

  lemma FreedIsReal(g: Graph, parts: seq<seq<SchedulerNode>>, j: nat, x: Name)
    requires WellFormed(g) && Flatten(parts) == g.nodes && j < |parts|
    requires x in Freed(parts[j]) && x in InputNodes(g, parts[j])
    ensures Real(g, x) == x
    ensures x !in Reals(g, g.outputs) ==> x !in g.outputs
  {
    From(g, parts, j);
    assert parts[j..][0] == parts[j];
    InputIsNeeded(g, g.inputs + g.constants + Outputs(Flatten(parts[..j])), parts[j], Flatten(parts[j..][1..]), x);
  }

  lemma NotReturned(g: Graph, parts: seq<seq<SchedulerNode>>, j: nat, x: Name)
    requires WellFormed(g) && Flatten(parts) == g.nodes && j < |parts| && x in Freed(parts[j])
    ensures x !in OutputNodes(g, parts[j], UnmetBefore(g, parts[j + 1..]))
  {
    From(g, parts, j);
    var rest := parts[j..];
    assert rest[0] == parts[j] && rest[1..] == parts[j + 1..];
    OutputsConcat(rest[0], Flatten(rest[1..]));
    ReturnedAreNeeded(g, g.inputs + g.constants + Outputs(Flatten(parts[..j])), rest);
  }

  lemma NotReceivedLater(g: Graph, parts: seq<seq<SchedulerNode>>, skips: seq<bool>, j: nat, k: nat, x: Name)
    requires WellFormed(g) && Flatten(parts) == g.nodes && |parts| == |skips| && j < k < |parts|
    requires x in Freed(parts[j]) && !IsNoneLayout(g, x)
    ensures x !in Signatures(g, parts, skips)[k].inputs
  {
    SignatureAt(g, parts, skips, k);
    if x in InputNodes(g, parts[k]) {
      InputSurvives(g, parts, j, k, x);
    }
  }

  /** What is received and not marked is returned, if it is allocated; the marks are on
      exactly what is received. */
  lemma ReceivedIsReturnedOrDeallocated(g: Graph, parts: seq<seq<SchedulerNode>>, skips: seq<bool>, j: nat)
    requires WellFormed(g) && Flatten(parts) == g.nodes && |parts| == |skips| && j < |parts|
    ensures var sig := Signatures(g, parts, skips)[j];
            && sig.inputDeallocation.Keys == sig.inputs
            && forall x :: x in sig.inputs && !IsNoneLayout(g, x) ==> (x in sig.outputs <==> !sig.inputDeallocation[x])
  {
    SignatureAt(g, parts, skips, j);
    var p, unmet := parts[j], UnmetBefore(g, parts[j + 1..]);
    forall x | x in InputNodes(g, p) && !IsNoneLayout(g, x) ensures x in OutputNodes(g, p, unmet) <==> x !in Freed(p) {
      if x in Freed(p) {
        NotReturned(g, parts, j, x);
      } else {
        InputIsReal(g, parts, j, x);
        assert Real(g, x) in ReturnedNames(g, p, unmet);
      }
    }
  }

  lemma InputIsReal(g: Graph, parts: seq<seq<SchedulerNode>>, j: nat, x: Name)
    requires WellFormed(g) && Flatten(parts) == g.nodes && j < |parts| && x in InputNodes(g, parts[j])
    ensures Real(g, x) == x
  {
    From(g, parts, j);
    assert parts[j..][0] == parts[j];
    InputIsNeeded(g, g.inputs + g.constants + Outputs(Flatten(parts[..j])), parts[j], Flatten(parts[j..][1..]), x);
  }

  lemma {:induction false} UnmetIsWanted(g: Graph, parts: seq<seq<SchedulerNode>>, x: Name)
    requires x in UnmetBefore(g, parts)
    ensures x in g.outputs || exists k :: 0 <= k < |parts| && x in InputNames(g, parts[k])
  {
    if parts != [] && x !in InputNames(g, parts[0]) {
      UnmetIsWanted(g, parts[1..], x);
      if x !in g.outputs {
        var k :| 0 <= k < |parts[1..]| && x in InputNames(g, parts[1..][k]);
        assert parts[k + 1] == parts[1..][k];
      }
    }
  }

  /** x is the name itself, or the buffer that it finally mutates. */
  ghost predicate StandsFor(g: Graph, name: Name, x: Name) {
    if name in g.realName then x == g.realName[name] else x == name
  }

  /** Some node of p accesses the storage x under a name with a layout that p does not produce. */
  ghost predicate AccessedFromOutside(g: Graph, p: seq<SchedulerNode>, x: Name) {
    exists n, y :: n in p && y in n.readNames + n.writeNames && y !in Outputs(p) && !IsNoneLayout(g, y) && StandsFor(g, y, x)
  }

  /** Nothing superfluous is received: a received name has a node and is accessed from
      outside, or freed and not produced, in the partition. The constants are those
      accessed from outside. */
  lemma NothingSuperfluousReceived(g: Graph, parts: seq<seq<SchedulerNode>>, skips: seq<bool>, j: nat)
    requires WellFormed(g) && |parts| == |skips| && j < |parts|
    ensures
      var sig, p := Signatures(g, parts, skips)[j], parts[j];
      && (forall x :: x in sig.inputs <==>
            x in g.inputs + Outputs(g.nodes) && (AccessedFromOutside(g, p, x) || (x in Freed(p) && x !in Outputs(p))))
      && (forall x :: x in sig.constants <==> x in g.constants && AccessedFromOutside(g, p, x))
  {
    var p := parts[j];
    SignatureAt(g, parts, skips, j);
    forall x ensures x in InputNames(g, p) <==>
      AccessedFromOutside(g, p, x) || (x in Freed(p) && x !in Outputs(p) && x in NameToNode(g))
    {
      InputNamesAre(g, p, x);
    }
    assert NameToNode(g) == g.inputs + Outputs(g.nodes);
    assert g.constants !! NameToNode(g);
    hide InputNames, AccessedFromOutside, NameToNode, Freed, Outputs, UnmetBefore, ReturnedNames, Signatures;
  }

  /** Nothing superfluous is returned: a returned name is received and kept, or the
      storage of a name produced here and wanted later. */
  lemma NothingSuperfluousReturned(g: Graph, parts: seq<seq<SchedulerNode>>, skips: seq<bool>, j: nat, x: Name)
    requires WellFormed(g) && Flatten(parts) == g.nodes && |parts| == |skips| && j < |parts|
    requires x in Signatures(g, parts, skips)[j].outputs
    ensures
      var sig, p := Signatures(g, parts, skips)[j], parts[j];
      || (x in sig.inputDeallocation && !sig.inputDeallocation[x])
      || exists o :: o in Outputs(p) && StandsFor(g, o, x) &&
           (o in g.outputs || exists k :: j < k < |parts| && o in InputNames(g, parts[k]))
  {
    SignatureAt(g, parts, skips, j);
    if !(x in InputNodes(g, parts[j]) && x !in Freed(parts[j])) {
      ReturnedIsWanted(g, parts, j, x);
    }
  }

  lemma InputNamesAre(g: Graph, p: seq<SchedulerNode>, x: Name)
    ensures x in InputNames(g, p) <==>
            AccessedFromOutside(g, p, x) || (x in Freed(p) && x !in Outputs(p) && x in NameToNode(g))
  {
    if AccessedFromOutside(g, p, x) {
      var n, y :| n in p && y in n.readNames + n.writeNames && y !in Outputs(p) && !IsNoneLayout(g, y) && StandsFor(g, y, x);
      assert y in Accesses(n);
      assert y in (set z | z in ReadsWrites(p) && !IsNoneLayout(g, z)) - Outputs(p) && Real(g, y) == x;
    }
    if x in InputNames(g, p) && !(x in Freed(p) && x !in Outputs(p) && x in NameToNode(g)) {
      var y :| y in ReadsWrites(p) - Outputs(p) && !IsNoneLayout(g, y) && x == Real(g, y);
      var n :| n in p && y in Accesses(n);
      assert y in n.readNames + n.writeNames && StandsFor(g, y, x);
    }
  }

  lemma ReturnedIsWanted(g: Graph, parts: seq<seq<SchedulerNode>>, j: nat, x: Name)
    requires WellFormed(g) && Flatten(parts) == g.nodes && j < |parts|
    requires x in OutputNodes(g, parts[j], UnmetBefore(g, parts[j + 1..]))
    requires !(x in InputNodes(g, parts[j]) && x !in Freed(parts[j]))
    ensures exists o :: o in Outputs(parts[j]) && StandsFor(g, o, x) &&
              (o in g.outputs || exists k :: j < k < |parts| && o in InputNames(g, parts[k]))
  {
    var p, unmet := parts[j], UnmetBefore(g, parts[j + 1..]);
    var o :| o in Outputs(p) * unmet + (InputNodes(g, p) - Freed(p)) && x == Real(g, o);
    if o in InputNodes(g, p) {
      InputIsReal(g, parts, j, o);
    }
    assert o in Outputs(p) && o in unmet;
    UnmetIsWanted(g, parts[j + 1..], o);
    if o !in g.outputs {
      var k :| 0 <= k < |parts[j + 1..]| && o in InputNames(g, parts[j + 1..][k]);
      assert parts[j + 1 + k] == parts[j + 1..][k];
    }
  }

  /** The layout test without its recursion: a name counts as unallocated exactly when it
      is a buffer without layout and, where it is a mutation output of a named buffer,
      that buffer has none either. */
  lemma NoneLayoutMeans(g: Graph, x: Name)
    ensures IsNoneLayout(g, x) <==>
              && x in g.buffers && g.buffers[x].noneLayout
              && (g.buffers[x].mutationOutput && x in g.realName && g.realName[x] != "" ==>
                    g.realName[x] in g.buffers && g.buffers[g.realName[x]].noneLayout)
  {
    if x in g.realName {
      assert g.realName[x] !in g.realName;
    }
  }

  // ----------------------------------------------------------- two failing graphs

  const MakesToken := SchedulerNode(0, {"b"}, {}, {"b"}, {})
  const DropsToken := SchedulerNode(1, {"o"}, {"b"}, {"o"}, {"b"})

  /** Node 0 leaves an unallocated buffer whose last use is in node 1. */
  function TokenGraph(): Graph {
    GraphData({}, {}, {"o"}, map["b" := Buffer(true, false)], map[], [MakesToken, DropsToken])
  }

  lemma TokenNodesOk()
    ensures NodeOk(TokenGraph(), {}, MakesToken, [DropsToken])
    ensures NodeOk(TokenGraph(), {"b"}, DropsToken, [])
  {
    var g := TokenGraph();
    assert IsNoneLayout(g, "b") && !Allocated(g, "b");
    assert Freed([]) == {};
    assert Needs(g, []) == {"o"} by {
      assert Real(g, "o") == "o";
      assert Reals(g, {"o"}) == {"o"};
    }
    assert "b" in Outputs(g.nodes) by { assert MakesToken in g.nodes; }
  }

  lemma TokenGraphOk()
    ensures WellFormed(TokenGraph())
  {
    var g := TokenGraph();
    var d0: set<Name> := {};
    TokenNodesOk();
    assert g.inputs + g.constants == d0;
    assert d0 + MakesToken.outputs == {"b"};
    assert [MakesToken, DropsToken][1..] == [DropsToken];
    assert [DropsToken][1..] == [];
    assert NodesOk(g, {"b"} + DropsToken.outputs, []);
    assert NodesOk(g, {"b"}, [DropsToken]);
    assert NodesOk(g, d0, g.nodes);
  }

  lemma DropsTokenIsNotSupplied()
    ensures !Supplied(TokenGraph(), [DropsToken])
  {
    var g, p := TokenGraph(), [DropsToken];
    assert "b" in NameToNode(g) by { assert MakesToken in g.nodes; }
    assert "b" in Freed(p) - Outputs(p) by { assert DropsToken in p; }
    assert "b" in InputNodes(g, p) && IsNoneLayout(g, "b");
  }

  /** Cut between the two nodes, the second partition asks for the unallocated buffer
      as an input, which nobody can supply. */
  lemma FreeingUnallocatedBreaksTheCall()
    ensures WellFormed(TokenGraph()) && Flatten([[MakesToken], [DropsToken]]) == TokenGraph().nodes
    ensures RunPartitions(TokenGraph(), (n, env, r) => 0, map[], map[], [[MakesToken], [DropsToken]],
                          Signatures(TokenGraph(), [[MakesToken], [DropsToken]], [false, false])) == None
  {
    var g, parts := TokenGraph(), [[MakesToken], [DropsToken]];
    TokenGraphOk();
    FlattenTwo(MakesToken, DropsToken);
    DropsTokenIsNotSupplied();
    assert [DropsToken] in parts;
    assert g.inputs == {} && g.constants == {};
    hide Supplied, RunPartitions, Signatures, WellFormed;
    PartitioningKeepsMeaning<int>(g, (n, env, r) => 0, map[], map[], parts, [false, false]);
  }

  const Mutates := SchedulerNode(0, {"m"}, {"x"}, {"m"}, {})
  const ReadsMutated := SchedulerNode(1, {"o"}, {"m"}, {"o"}, {})

  /** Node 0 mutates the graph input x under the name m, which has no layout although
      x has one; node 1 reads x as m. */
  function DisagreeingGraph(): Graph {
    GraphData({"x"}, {}, {"o"}, map["m" := Buffer(true, false)], map["m" := "x"], [Mutates, ReadsMutated])
  }

  lemma DisagreeingNodesOk()
    ensures var g := DisagreeingGraph(); NodesOk(g, g.inputs + g.constants, g.nodes)
  {
    var g := DisagreeingGraph();
    assert g.inputs + g.constants == {"x"};
    assert Real(g, "x") == "x" && Real(g, "m") == "x" && Real(g, "o") == "o";
    assert Freed([ReadsMutated]) == {} && Freed([]) == {};
    assert "x" in Uses(g, Mutates) by { assert "x" in Accesses(Mutates) - Mutates.outputs; }
    assert NodeOk(g, {"x"}, Mutates, [ReadsMutated]);
    assert NodeOk(g, {"x", "m"}, ReadsMutated, []);
    assert {"x"} + Mutates.outputs == {"x", "m"};
    assert g.nodes[1..] == [ReadsMutated] && [ReadsMutated][1..] == [];
    assert NodesOk(g, {"x", "m"} + ReadsMutated.outputs, []);
    assert NodesOk(g, {"x", "m"}, [ReadsMutated]);
  }

  /** Cut between the two nodes, the partition that reads x under its other name does
      not get it and the run stops; in one partition the same graph runs through. All
      other assumptions of the main result hold. */
  lemma DisagreeingLayoutsBreakOneCut(k: Kernel<int>)
    ensures
      var g, apart, whole := DisagreeingGraph(), [[Mutates], [ReadsMutated]], [[Mutates, ReadsMutated]];
      && WellFormed(g) && !LayoutsAgree(g) && Flatten(apart) == Flatten(whole) == g.nodes
      && RunPartitions(g, k, map[], map["x" := 0], apart, Signatures(g, apart, [false, false])) == None
      && RunPartitions(g, k, map[], map["x" := 0], whole, Signatures(g, whole, [false])).Some?
  {
    DisagreeingIsWellFormed();
    ApartFails(k);
    WholeRuns(k);
  }

  lemma DisagreeingIsWellFormed()
    ensures WellFormed(DisagreeingGraph()) && !LayoutsAgree(DisagreeingGraph())
    ensures Flatten([[Mutates], [ReadsMutated]]) == Flatten([[Mutates, ReadsMutated]]) == DisagreeingGraph().nodes
    ensures DisagreeingGraph().constants == {}
    ensures map["x" := 0].Keys == set x | x in DisagreeingGraph().inputs && !IsNoneLayout(DisagreeingGraph(), x)
  {
    var g := DisagreeingGraph();
    DisagreeingNodesOk();
    FlattenTwo(Mutates, ReadsMutated);
    assert g.realName["m"] == "x" && IsNoneLayout(g, "m") && !IsNoneLayout(g, "x");
  }

  lemma ApartFails(k: Kernel<int>)
    ensures var g, apart := DisagreeingGraph(), [[Mutates], [ReadsMutated]];
            RunPartitions(g, k, map[], map["x" := 0], apart, Signatures(g, apart, [false, false])) == None
  {
    DisagreeingIsWellFormed();
    ReaderIsNotSupplied();
    hide *;
    assert [ReadsMutated] in [[Mutates], [ReadsMutated]];
    PartitioningKeepsMeaning<int>(DisagreeingGraph(), k, map[], map["x" := 0], [[Mutates], [ReadsMutated]], [false, false]);
  }

  lemma WholeRuns(k: Kernel<int>)
    ensures var g, whole := DisagreeingGraph(), [[Mutates, ReadsMutated]];
            RunPartitions(g, k, map[], map["x" := 0], whole, Signatures(g, whole, [false])).Some?
  {
    DisagreeingIsWellFormed();
    WholeIsSupplied();
    hide *;
    assert forall p :: p in [[Mutates, ReadsMutated]] ==> p == [Mutates, ReadsMutated];
    PartitioningKeepsMeaning<int>(DisagreeingGraph(), k, map[], map["x" := 0], [[Mutates, ReadsMutated]], [false]);
  }

  lemma FlattenTwo(a: SchedulerNode, b: SchedulerNode)
    ensures Flatten([[a], [b]]) == Flatten([[a, b]]) == [a, b]
  {
    assert [[a], [b]][1..] == [[b]] && [[b]][1..] == [] && [[a, b]][1..] == [];
    assert Flatten([[b]]) == [b] + Flatten([]);
  }

  lemma ReaderIsNotSupplied()
    ensures !Supplied(DisagreeingGraph(), [ReadsMutated])
  {
    var g, p := DisagreeingGraph(), [ReadsMutated];
    assert Freed(p) == {} && Outputs(p) == {"o"};
    assert forall y :: y in ReadsWrites(p) <==> y in Accesses(ReadsMutated);
    assert InputNames(g, p) == {} by { assert IsNoneLayout(g, "m"); }
    assert "x" in Uses(g, p[0]) by { assert "m" in Accesses(ReadsMutated) && Real(g, "m") == "x"; }
    assert p[..0] == [];
  }

  lemma WholeIsSupplied()
    ensures Supplied(DisagreeingGraph(), [Mutates, ReadsMutated])
  {
    var g, p := DisagreeingGraph(), [Mutates, ReadsMutated];
    assert Freed(p) == {};
    assert Mutates in p && ReadsMutated in p;
    assert Outputs(p) == {"m", "o"};
    assert forall y :: y in ReadsWrites(p) ==> y == "x" || y == "m" || y == "o";
    assert "x" in ReadsWrites(p) by { assert "x" in Accesses(Mutates); }
    assert InputNodes(g, p) == {"x"} by { assert Real(g, "x") == "x" && !IsNoneLayout(g, "x"); }
    assert Uses(g, p[0]) <= {"x"} && Uses(g, p[1]) <= {"x"};
  }

  // ------------------------------------------------------------- agreeing layouts

  /** A mutation name has a layout exactly when the buffer it mutates has. */
  ghost predicate LayoutsAgree(g: Graph) {
    forall x :: x in g.realName ==> (IsNoneLayout(g, x) <==> IsNoneLayout(g, g.realName[x]))
  }

  /** No partition frees an unallocated buffer that an earlier partition produced. */
  ghost predicate FreesAllocated(g: Graph, p: seq<SchedulerNode>) {
    forall x :: x in Freed(p) - Outputs(p) && x in NameToNode(g) ==> !IsNoneLayout(g, x)
  }

  /** Where layouts agree, the freed buffers alone decide whether a partition is supplied. */
  lemma AgreeingLayoutsSupply(g: Graph, parts: seq<seq<SchedulerNode>>, j: nat)
    requires WellFormed(g) && LayoutsAgree(g) && Flatten(parts) == g.nodes && j < |parts|
    ensures Supplied(g, parts[j]) <==> FreesAllocated(g, parts[j])
  {
    var p, rest := parts[j], Flatten(parts[j + 1..]);
    var d := g.inputs + g.constants + Outputs(Flatten(parts[..j]));
    From(g, parts, j);
    assert parts[j..][0] == p && parts[j..][1..] == parts[j + 1..];
    assert Flatten(parts[j..]) == p + rest;
    AgreeingInputs(g, p);
    hide InputNodes, FreesAllocated, LayoutsAgree, Uses, Written, Defines, NodesOk, WellFormed, Flatten;
    forall m | 0 <= m < |p| ensures Uses(g, p[m]) <= InputNodes(g, p) + g.constants + Written(g, p[..m]) {
      UsesAreSupplied(g, d, p, rest, m);
    }
  }

  lemma AgreeingInputs(g: Graph, p: seq<SchedulerNode>)
    requires LayoutsAgree(g)
    ensures FreesAllocated(g, p) <==> forall x :: x in InputNodes(g, p) ==> !IsNoneLayout(g, x)
  {
    if FreesAllocated(g, p) {
      forall x | x in InputNodes(g, p) ensures !IsNoneLayout(g, x) {
        if x !in Freed(p) - Outputs(p) {
          var y :| y in ReadsWrites(p) - Outputs(p) && !IsNoneLayout(g, y) && x == Real(g, y);
        }
      }
    } else {
      var x :| x in Freed(p) - Outputs(p) && x in NameToNode(g) && IsNoneLayout(g, x);
      assert x in InputNodes(g, p);
    }
  }

  lemma UsesAreSupplied(g: Graph, d: set<Name>, p: seq<SchedulerNode>, rest: seq<SchedulerNode>, m: nat)
    requires LayoutsAgree(g) && Defines(g, d) && NodesOk(g, d, p + rest) && m < |p|
    ensures Uses(g, p[m]) <= InputNodes(g, p) + g.constants + Written(g, p[..m])
  {
    var n := p[m];
    NodeOkAt(g, d, p, rest, m);
    OutputsAreNew(g, d, p, rest);
    forall y | y in Accesses(n) - n.outputs && Allocated(g, y)
      ensures Real(g, y) in InputNodes(g, p) + g.constants + Written(g, p[..m])
    {
      if y !in Outputs(p[..m]) {
        assert y in d;
        assert y in ReadsWrites(p) && y !in Outputs(p);
        assert !IsNoneLayout(g, y);
      }
    }
  }
}
