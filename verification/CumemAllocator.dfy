/**
 The chunked device allocator (ROCm build): allocate, sleep, wake and free over a
 driver whose calls may fail, with the sticky global error code of the C++ module and
 the table of allocations kept by its Python side.
 */
module CumemAllocator {
  import opened Wrappers
  import opened DeviceMemory
  import opened CumemChunks
  import opened CumemState

  /** What the table keeps of an allocation: its size, the cells that hold its chunk
      handles, and the chunk sizes. */
  datatype AllocationData = AllocationData(size: nat, cells: seq<nat>, chunkSizes: seq<nat>)

  /** How a create-and-map call ended. */
  datatype Outcome =
    | Complete
    | RolledBack
    | NoAccess
    | Leaked(handle: nat)

  /** A client request. */
  datatype Op =
    | Allocate(size: nat)
    | PutToSleep(p: nat)
    | Rouse(p: nat)
    | GiveBack(p: nat, size: nat)

  ghost predicate CellsHold(cells: map<nat, nat>, at: seq<nat>, hs: seq<nat>, n: nat)
    requires n <= |at| && n <= |hs|
  {
    forall j :: 0 <= j < n ==> at[j] in cells && cells[at[j]] == hs[j]
  }

  ghost predicate ChangedOnlyAt(before: map<nat, nat>, after: map<nat, nat>, at: seq<nat>) {
    && (forall c :: c in before && c !in at ==> c in after && after[c] == before[c])
    && (forall c :: c in before ==> c in after)
    && (forall c :: c in after ==> c in before || c in at)
  }

  /** The first i handles are created, kept in their cells and new to the device. */
  ghost predicate Created(before: map<nat, nat>, live: map<nat, nat>, cells: map<nat, nat>, at: seq<nat>, cs: seq<nat>, hs: seq<nat>, i: nat)
    requires i <= |at| && i <= |cs|
  {
    && |hs| == i && Distinct(hs) && CellsHold(cells, at, hs, i)
    && LiveOf(cs, hs, i).Keys !! before.Keys
    && live == before + LiveOf(cs, hs, i)
  }

  lemma CreatedStep(before: map<nat, nat>, live: map<nat, nat>, cells: map<nat, nat>, at: seq<nat>, cs: seq<nat>, hs: seq<nat>, i: nat,
                    handle: nat)
    requires i < |at| && i < |cs| && Distinct(at) && Created(before, live, cells, at, cs, hs, i)
    requires handle !in live
    ensures Created(before, live[handle := cs[i]], cells[at[i] := handle], at, cs, hs + [handle], i + 1)
  {
    LiveOfSnoc(cs, hs, i, handle);
    LiveOfKeys(cs, hs, i);
    DistinctSnoc(hs, handle);
    CellsHoldSnoc(cells, at, hs, i, handle);
  }

  lemma LiveOfSnoc(cs: seq<nat>, hs: seq<nat>, i: nat, handle: nat)
    requires i < |cs| && |hs| == i
    ensures LiveOf(cs, hs + [handle], i + 1) == LiveOf(cs, hs, i)[handle := cs[i]]
  {
    assert (hs + [handle])[..i] == hs == hs[..i];
    SameHandlesSameMaps(0, cs, hs + [handle], hs, i);
  }

  lemma DistinctSnoc(xs: seq<nat>, x: nat)
    requires Distinct(xs) && x !in xs[..|xs|]
    ensures Distinct(xs + [x])
  {
    assert xs[..|xs|] == xs;
    assert forall j :: 0 <= j < |xs| ==> xs[j] in xs;
  }

  lemma CellsHoldSnoc(cells: map<nat, nat>, at: seq<nat>, hs: seq<nat>, i: nat, handle: nat)
    requires i < |at| && |hs| == i && Distinct(at) && CellsHold(cells, at, hs, i)
    ensures CellsHold(cells[at[i] := handle], at, hs + [handle], i + 1)
  {
  }

  /** The first i chunks are mapped one after the other from p. */
  ghost predicate MappedSoFar(before: map<nat, Mapping>, mapped: map<nat, Mapping>, p: nat, cs: seq<nat>, hs: seq<nat>, i: nat)
    requires i <= |cs| && i <= |hs|
  {
    MapOf(p, cs, hs, i).Keys !! before.Keys && mapped == before + MapOf(p, cs, hs, i)
  }

  // ------------------------------------------------------- the table and the device

  /** A table entry describes the holding it stands for; while that is awake the
      cells hold its handles. */
  ghost predicate EntryOk(h: Holding, d: AllocationData, cells: map<nat, nat>) {
    && d.size == Sum(h.chunks) && d.chunkSizes == h.chunks
    && |d.cells| == |h.chunks| && Distinct(d.cells)
    && (forall c :: c in d.cells ==> c in cells)
    && h.Ok() && h.chunks != []
    && (h.awake ==> CellsHold(cells, d.cells, h.handles, |h.handles|))
  }

  lemma EntryShape(h: Holding, d: AllocationData, cells: map<nat, nat>)
    requires EntryOk(h, d, cells)
    ensures d.chunkSizes == h.chunks != [] && |d.cells| == |h.chunks| && Positive(h.chunks) && h.Ok()
    ensures h.awake ==> |h.handles| == |h.chunks|
    ensures forall c :: c in d.cells ==> c in cells
  {
  }

  ghost predicate NoneShared(a: seq<nat>, b: seq<nat>) {
    forall c :: c in a ==> c !in b
  }

  ghost predicate TableOk(held: Holdings, owned: set<nat>, table: map<nat, AllocationData>, cells: map<nat, nat>, nextCell: nat) {
    && owned <= held.Keys && owned <= table.Keys
    && (forall p :: p in owned ==> EntryOk(held[p], table[p], cells))
    && (forall p, q :: p in owned && q in owned && p != q ==> NoneShared(table[p].cells, table[q].cells))
    && (forall c :: c in cells ==> c < nextCell)
  }

  lemma CellsChangeAt(held: Holdings, owned: set<nat>, table: map<nat, AllocationData>, cells: map<nat, nat>, nextCell: nat,
                      cells': map<nat, nat>, p: nat, h': Holding)
    requires TableOk(held, owned, table, cells, nextCell) && p in owned
    requires ChangedOnlyAt(cells, cells', table[p].cells)
    requires EntryOk(h', table[p], cells')
    ensures TableOk(held[p := h'], owned, table, cells', nextCell)
  {
    forall q | q in owned && q != p ensures EntryOk(held[q], table[q], cells') {
      assert NoneShared(table[q].cells, table[p].cells);
      assert forall j :: 0 <= j < |table[q].cells| ==> table[q].cells[j] in table[q].cells;
    }
  }

  /** What an awake holding has on the device, set apart from the rest. */
  lemma AwakeIsThere(held: Holdings, leaked: set<nat>, reserved: map<nat, nat>, live: map<nat, nat>, mapped: map<nat, Mapping>,
                     p: nat, cells: map<nat, nat>, at: seq<nat>)
    requires Matches(held, leaked, reserved, live, mapped) && p in held && held[p].awake
    requires |at| == |held[p].chunks| && CellsHold(cells, at, held[p].handles, |held[p].handles|)
    ensures Created(live - held[p].Lives().Keys, live, cells, at, held[p].chunks, held[p].handles, |held[p].chunks|)
    ensures MappedSoFar(mapped - held[p].Maps(p).Keys, mapped, p, held[p].chunks, held[p].handles, |held[p].chunks|)
  {
    UnionMember(LivesOf(held), live - leaked, p);
    UnionMember(MapsOf(held), mapped, p);
    assert Within(held[p].Lives(), live);
    SplitOff(live, held[p].Lives());
    SplitOff(mapped, held[p].Maps(p));
  }

  lemma SplitOff<K, V>(m: map<K, V>, part: map<K, V>)
    requires Within(part, m)
    ensures m == (m - part.Keys) + part && part.Keys !! (m - part.Keys).Keys
  {
  }

  lemma SleepStep(held: Holdings, leaked: set<nat>, reserved: map<nat, nat>, live: map<nat, nat>, mapped: map<nat, Mapping>,
                  owned: set<nat>, table: map<nat, AllocationData>, cells: map<nat, nat>, nextCell: nat, p: nat)
    requires Matches(held, leaked, reserved, live, mapped) && TableOk(held, owned, table, cells, nextCell)
    requires p in owned && held[p].awake
    ensures EntryOk(held[p], table[p], cells)
    ensures Created(live - held[p].Lives().Keys, live, cells, table[p].cells, held[p].chunks, held[p].handles, |held[p].chunks|)
    ensures MappedSoFar(mapped - held[p].Maps(p).Keys, mapped, p, held[p].chunks, held[p].handles, |held[p].chunks|)
    ensures Matches(held[p := held[p].(awake := false)], leaked, reserved, live - held[p].Lives().Keys, mapped - held[p].Maps(p).Keys)
    ensures TableOk(held[p := held[p].(awake := false)], owned, table, cells, nextCell)
  {
    assert TableOk(held[p := held[p].(awake := false)], owned, table, cells, nextCell) by {
      CellsChangeAt(held, owned, table, cells, nextCell, cells, p, held[p].(awake := false));
    }
    AwakeIsThere(held, leaked, reserved, live, mapped, p, cells, table[p].cells);
    FallAsleep(held, leaked, reserved, live, mapped, p);
  }

  lemma WakeStep(held: Holdings, leaked: set<nat>, reserved: map<nat, nat>, live: map<nat, nat>, mapped: map<nat, Mapping>,
                 owned: set<nat>, table: map<nat, AllocationData>, cells: map<nat, nat>, nextCell: nat, p: nat,
                 live': map<nat, nat>, mapped': map<nat, Mapping>, cells': map<nat, nat>, hs: seq<nat>)
    requires Matches(held, leaked, reserved, live, mapped) && TableOk(held, owned, table, cells, nextCell)
    requires p in owned && !held[p].awake && ChangedOnlyAt(cells, cells', table[p].cells)
    requires |table[p].cells| == |held[p].chunks|
    requires Created(live, live', cells', table[p].cells, held[p].chunks, hs, |held[p].chunks|)
    requires MappedSoFar(mapped, mapped', p, held[p].chunks, hs, |held[p].chunks|)
    ensures Matches(held[p := Holding(held[p].chunks, hs, true)], leaked, reserved, live', mapped')
    ensures TableOk(held[p := Holding(held[p].chunks, hs, true)], owned, table, cells', nextCell)
  {
    assert EntryOk(held[p], table[p], cells);
    assert TableOk(held[p := Holding(held[p].chunks, hs, true)], owned, table, cells', nextCell) by {
      CellsChangeAt(held, owned, table, cells, nextCell, cells', p, Holding(held[p].chunks, hs, true));
    }
    WakeUp(held, leaked, reserved, live, mapped, p, hs);
  }

  lemma ReservedAreHeld(held: Holdings, leaked: set<nat>, reserved: map<nat, nat>, live: map<nat, nat>, mapped: map<nat, Mapping>)
    requires Matches(held, leaked, reserved, live, mapped)
    ensures reserved.Keys == held.Keys && forall p :: p in held ==> reserved[p] == Sum(held[p].chunks)
  {
  }

  lemma KeepAsleep(held: Holdings, owned: set<nat>, table: map<nat, AllocationData>, cells: map<nat, nat>, nextCell: nat,
                   cells': map<nat, nat>, p: nat)
    requires TableOk(held, owned, table, cells, nextCell) && p in owned && !held[p].awake
    requires ChangedOnlyAt(cells, cells', table[p].cells)
    ensures TableOk(held, owned, table, cells', nextCell)
  {
    assert EntryOk(held[p], table[p], cells);
    CellsChangeAt(held, owned, table, cells, nextCell, cells', p, held[p]);
    assert held[p := held[p]] == held;
  }

  lemma NewRange(held: Holdings, leaked: set<nat>, reserved: map<nat, nat>, live: map<nat, nat>, mapped: map<nat, Mapping>,
                 owned: set<nat>, table: map<nat, AllocationData>, cells: map<nat, nat>, nextCell: nat, p: nat)
    requires Matches(held, leaked, reserved, live, mapped) && TableOk(held, owned, table, cells, nextCell)
    requires p !in reserved
    ensures p !in held && p !in owned
  {
  }

  /** A new table entry, with fresh cells, for a range just reserved. */
  lemma AddEntry(held: Holdings, owned: set<nat>, table: map<nat, AllocationData>, cells: map<nat, nat>, nextCell: nat,
                 p: nat, d: AllocationData, cells': map<nat, nat>, nextCell': nat)
    requires TableOk(held, owned, table, cells, nextCell) && p !in held
    requires d.size == Sum(d.chunkSizes) && |d.cells| == |d.chunkSizes| && d.chunkSizes != [] && Positive(d.chunkSizes)
    requires Distinct(d.cells) && forall c :: c in d.cells ==> nextCell <= c < nextCell'
    requires nextCell <= nextCell'
    requires ChangedOnlyAt(cells, cells', d.cells) && forall c :: c in d.cells ==> c in cells'
    ensures TableOk(held[p := Holding(d.chunkSizes, [], false)], owned + {p}, table[p := d], cells', nextCell')
  {
    var held', table' := held[p := Holding(d.chunkSizes, [], false)], table[p := d];
    forall q | q in owned ensures EntryOk(held'[q], table'[q], cells') && NoneShared(table[q].cells, d.cells) {
      assert EntryOk(held[q], table[q], cells);
      assert forall j :: 0 <= j < |table[q].cells| ==> table[q].cells[j] in table[q].cells;
    }
  }

  /** An entry goes, and its cells are freed; what becomes of its holding is open. */
  lemma DropEntry(held: Holdings, owned: set<nat>, table: map<nat, AllocationData>, cells: map<nat, nat>, nextCell: nat,
                  p: nat, held': Holdings, table': map<nat, AllocationData>)
    requires TableOk(held, owned, table, cells, nextCell) && p in owned
    requires held' == held || held' == held - {p}
    requires table' == table || table' == table - {p}
    ensures TableOk(held', owned - {p}, table', cells - (set c | c in table[p].cells), nextCell)
  {
    var cells' := cells - (set c | c in table[p].cells);
    forall q | q in owned && q != p ensures EntryOk(held'[q], table'[q], cells') {
      assert NoneShared(table[q].cells, table[p].cells);
      assert forall j :: 0 <= j < |table[q].cells| ==> table[q].cells[j] in table[q].cells;
    }
  }

  ghost predicate NoneLive(at: seq<nat>, cells: map<nat, nat>, live: map<nat, nat>) {
    forall j :: 0 <= j < |at| ==> at[j] in cells && cells[at[j]] !in live
  }

  /** None of the chunks is mapped and none of their handles live. */
  ghost predicate NothingThere(p: nat, at: seq<nat>, cs: seq<nat>, cells: map<nat, nat>, live: map<nat, nat>, mapped: map<nat, Mapping>) {
    NoneLive(at, cells, live) && forall j :: 0 <= j < |cs| ==> ChunkGone(mapped, p, cs, j)
  }

  lemma NothingIsThere(held: Holdings, leaked: set<nat>, reserved: map<nat, nat>, live: map<nat, nat>, mapped: map<nat, Mapping>,
                       p: nat, at: seq<nat>, cells: map<nat, nat>)
    requires Matches(held, leaked, reserved, live, mapped) && p in held && !held[p].awake && NoneLive(at, cells, live)
    ensures NothingThere(p, at, held[p].chunks, cells, live, mapped)
  {
    hide Matches, ChunkGone;
    forall j | 0 <= j < |held[p].chunks| ensures ChunkGone(mapped, p, held[p].chunks, j) {
      NothingMapped(held, leaked, reserved, live, mapped, p, j);
    }
  }

  /** Chunks and handle cells of an allocation and, where the caller knows them to be
      mapped, what the device holds without them. */
  ghost predicate Releasable(p: nat, at: seq<nat>, cs: seq<nat>, known: bool, hs: seq<nat>, cells: map<nat, nat>,
                             live: map<nat, nat>, mapped: map<nat, Mapping>, liveAfter: map<nat, nat>, mappedAfter: map<nat, Mapping>)
  {
    && |at| == |cs| == |hs| && Positive(cs)
    && (forall c :: c in at ==> c in cells)
    && (known ==> Created(liveAfter, live, cells, at, cs, hs, |cs|) && MappedSoFar(mappedAfter, mapped, p, cs, hs, |cs|))
  }

  /** What unmapping an allocation that the table holds will leave. */
  lemma BeforeUnmap(held: Holdings, leaked: set<nat>, reserved: map<nat, nat>, live: map<nat, nat>, mapped: map<nat, Mapping>,
                    owned: set<nat>, table: map<nat, AllocationData>, cells: map<nat, nat>, nextCell: nat, p: nat)
    returns (hs: seq<nat>, live1: map<nat, nat>, mapped1: map<nat, Mapping>)
    requires Matches(held, leaked, reserved, live, mapped) && TableOk(held, owned, table, cells, nextCell) && p in owned
    requires held[p].awake || NoneLive(table[p].cells, cells, live)
    ensures table[p].chunkSizes != []
    ensures Releasable(p, table[p].cells, table[p].chunkSizes, held[p].awake, hs, cells, live, mapped, live1, mapped1)
    ensures !held[p].awake ==>
              && NothingThere(p, table[p].cells, table[p].chunkSizes, cells, live, mapped)
              && live1 == live && mapped1 == mapped && held[p := held[p].(awake := false)] == held
    ensures Matches(held[p := held[p].(awake := false)], leaked, reserved, live1, mapped1)
    ensures TableOk(held[p := held[p].(awake := false)], owned, table, cells, nextCell)
  {
    var h := held[p];
    assert EntryOk(h, table[p], cells);
    EntryShape(h, table[p], cells);
    hide Matches, TableOk, EntryOk, Created, MappedSoFar, NoneLive, NothingThere;
    if h.awake {
      hs, live1, mapped1 := h.handles, live - h.Lives().Keys, mapped - h.Maps(p).Keys;
      SleepStep(held, leaked, reserved, live, mapped, owned, table, cells, nextCell, p);
    } else {
      hs, live1, mapped1 := seq(|h.chunks|, _ => 0), live, mapped;
      NothingIsThere(held, leaked, reserved, live, mapped, p, table[p].cells, cells);
      assert h.(awake := false) == h;
    }
  }

  /** The size arithmetic of an allocation stays within 64 bits. */
  predicate Fits(granularity: nat, baseChunk: nat, size: nat)
    requires granularity > 0
  {
    && size < 0x8000_0000_0000_0000
    && RoundUp64(size, granularity) + RoundUp64(baseChunk, granularity) - 1 < TwoTo64
  }

  /** One range more, at p: aligned, awake and cut into the chunks of the size. */
  ghost predicate NewlyHeld(granularity: nat, baseChunk: nat, before: Holdings, after: Holdings, p: nat, size: nat)
    requires granularity > 0
  {
    && p !in before && p in after && after == before[p := after[p]] && after[p].awake
    && p % granularity == 0
    && Cuts(after[p].chunks, RoundUp64(size, granularity), granularity, RoundUp64(baseChunk, granularity))
  }

  function FreshCells(from: nat, n: nat): (r: seq<nat>)
    ensures |r| == n && Distinct(r)
    ensures forall c :: c in r ==> from <= c < from + n
  {
    seq(n, i requires 0 <= i => from + i)
  }

  class CumemAllocator {
    const gpu: Device
    const baseChunk: nat
    var errorCode: int
    var cells: map<nat, nat>
    var nextCell: nat
    var pointerToData: map<nat, AllocationData>
    ghost var held: Holdings
    ghost var leaked: set<nat>
    ghost var owned: set<nat>

    /** An allocator for a device that holds nothing yet. */
    constructor (gpu: Device, baseChunk: nat)
      requires gpu.reserved == map[] && gpu.live == map[] && gpu.mapped == map[]
      ensures this.gpu == gpu && this.baseChunk == baseChunk && errorCode == 0
      ensures held == map[] && leaked == {} && owned == {} && pointerToData == map[]
    {
      this.gpu, this.baseChunk := gpu, baseChunk;
      errorCode, cells, nextCell, pointerToData := 0, map[], 0, map[];
      held, leaked, owned := map[], {}, {};
    }

    // ------------------------------------------------------- create, map, release

    /** Releases the handles in the first count cells. When they are live, as the
        caller may know, all calls succeed and nothing else goes. */
    method ReleaseFirst(handleCells: seq<nat>, count: nat, ghost known: bool, ghost cs: seq<nat>, ghost hs: seq<nat>, ghost before: map<nat, nat>)
      returns (firstError: int)
      requires count <= |handleCells| && count <= |cs| && count <= |hs|
      requires forall j :: 0 <= j < count ==> handleCells[j] in cells
      requires known ==>
        && Distinct(hs) && CellsHold(cells, handleCells, hs, count)
        && LiveOf(cs, hs, count).Keys !! before.Keys && gpu.live == before + LiveOf(cs, hs, count)
      modifies gpu`live, gpu`faults
      ensures old(gpu.faults) <= gpu.faults && firstError == FirstFault(old(gpu.faults), gpu.faults)
      ensures firstError == 0 <==> gpu.faults == old(gpu.faults)
      ensures known ==> gpu.live == before && firstError == 0
      ensures Within(gpu.live, old(gpu.live))
      ensures (forall j :: 0 <= j < count ==> cells[handleCells[j]] !in old(gpu.live)) ==>
                gpu.live == old(gpu.live) && (count > 0 ==> firstError != 0)
    {
      firstError := 0;
      ghost var all := gpu.live;
      ghost var stale := forall j :: 0 <= j < count ==> cells[handleCells[j]] !in gpu.live;
      for j := 0 to count
        invariant old(gpu.faults) <= gpu.faults && firstError == FirstFault(old(gpu.faults), gpu.faults)
        invariant firstError == 0 <==> gpu.faults == old(gpu.faults)
        invariant known ==> gpu.live == all - LiveOf(cs, hs, j).Keys && firstError == 0
        invariant Within(gpu.live, all)
        invariant stale ==> gpu.live == all && (j > 0 ==> firstError != 0)
      {
        if known {
          LiveOfAt(cs, hs, count, j);
          assert LiveOf(cs, hs, j + 1).Keys == LiveOf(cs, hs, j).Keys + {hs[j]};
        }
        var status := gpu.MemRelease(cells[handleCells[j]]);
        if status != 0 && firstError == 0 {
          firstError := status;
        }
      }
    }

    /** Unmaps the first count chunks. When they are mapped, as the caller may know, all
        calls succeed and nothing else goes. */
    method UnmapFirst(dMem: nat, chunkSizes: seq<nat>, count: nat, ghost known: bool, ghost hs: seq<nat>, ghost before: map<nat, Mapping>)
      returns (firstError: int)
      requires count <= |chunkSizes| && count <= |hs| && Positive(chunkSizes)
      requires known ==>
        && MapOf(dMem, chunkSizes, hs, count).Keys !! before.Keys
        && gpu.mapped == before + MapOf(dMem, chunkSizes, hs, count)
      modifies gpu`mapped, gpu`faults
      ensures old(gpu.faults) <= gpu.faults && firstError == FirstFault(old(gpu.faults), gpu.faults)
      ensures firstError == 0 <==> gpu.faults == old(gpu.faults)
      ensures known ==> gpu.mapped == before && firstError == 0
      ensures Within(gpu.mapped, old(gpu.mapped))
      ensures (forall j :: 0 <= j < count ==> ChunkGone(old(gpu.mapped), dMem, chunkSizes, j)) ==>
                gpu.mapped == old(gpu.mapped) && (count > 0 ==> firstError != 0)
    {
      firstError := 0;
      ghost var all := gpu.mapped;
      ghost var stale := forall j :: 0 <= j < count ==> ChunkGone(gpu.mapped, dMem, chunkSizes, j);
      var unmappedSize := 0;
      for j := 0 to count
        invariant old(gpu.faults) <= gpu.faults && firstError == FirstFault(old(gpu.faults), gpu.faults)
        invariant firstError == 0 <==> gpu.faults == old(gpu.faults)
        invariant stale ==> gpu.mapped == all && (j > 0 ==> firstError != 0)
        invariant unmappedSize == Prefix(chunkSizes, j)
        invariant known ==> gpu.mapped == all - MapOf(dMem, chunkSizes, hs, j).Keys && firstError == 0
        invariant Within(gpu.mapped, all)
      {
        if known {
          MapOfAt(dMem, chunkSizes, hs, count, j);
          assert MapOf(dMem, chunkSizes, hs, j + 1).Keys == MapOf(dMem, chunkSizes, hs, j).Keys + {dMem + Prefix(chunkSizes, j)};
        }
        assert stale ==> ChunkGone(all, dMem, chunkSizes, j);
        var status := gpu.MemUnmap(dMem + unmappedSize, chunkSizes[j]);
        if status != 0 && firstError == 0 {
          firstError := status;
        }
        unmappedSize := unmappedSize + chunkSizes[j];
      }
    }

    /** The creation loop. After a failed creation nothing is left behind; when the
        error code was already set, the handle just created is. */
    method CreateHandles(handleCells: seq<nat>, chunkSizes: seq<nat>) returns (ghost hs: seq<nat>, leak: Option<nat>)
      requires |handleCells| == |chunkSizes| && Distinct(handleCells)
      modifies this`errorCode, this`cells, gpu`live, gpu`faults
      ensures old(gpu.faults) <= gpu.faults
      ensures errorCode == 0 <==> old(errorCode) == 0 && gpu.faults == old(gpu.faults)
      ensures old(errorCode) == 0 ==> gpu.faults == old(gpu.faults) + Fault(errorCode)
      ensures ChangedOnlyAt(old(cells), cells, handleCells)
      ensures errorCode == 0 || chunkSizes == [] ==>
        && errorCode == old(errorCode) && leak == None
        && Created(old(gpu.live), gpu.live, cells, handleCells, chunkSizes, hs, |chunkSizes|)
      ensures errorCode != 0 && chunkSizes != [] ==>
        match leak
        case None => gpu.live == old(gpu.live)
        case Some(h) => old(errorCode) != 0 && h !in old(gpu.live) && gpu.live == old(gpu.live)[h := chunkSizes[0]]
    {
      hs, leak := [], None;
      ghost var before := gpu.live;
      for i := 0 to |chunkSizes|
        invariant errorCode == old(errorCode) && (i > 0 ==> errorCode == 0) && gpu.faults == old(gpu.faults)
        invariant ChangedOnlyAt(old(cells), cells, handleCells)
        invariant Created(before, gpu.live, cells, handleCells, chunkSizes, hs, i)
      {
        var status, handle := gpu.MemCreate(chunkSizes[i]);
        if status == 0 {
          CreatedStep(before, old(gpu.live) + LiveOf(chunkSizes, hs, i), cells, handleCells, chunkSizes, hs, i, handle);
          cells := cells[handleCells[i] := handle];
        } else {
          errorCode := status;
        }
        if errorCode != 0 {
          if status == 0 {
            leak := Some(handle);
            assert LiveOf(chunkSizes, hs, 0) == map[];
          }
          var _ := ReleaseFirst(handleCells, i, true, chunkSizes, hs, if status == 0 then gpu.live else before);
          return;
        }
        hs := hs + [handle];
      }
    }

    /** The mapping loop, with all handles created; after a failed mapping everything
        is undone, the creations included. */
    method MapChunks(dMem: nat, handleCells: seq<nat>, chunkSizes: seq<nat>, ghost hs: seq<nat>, ghost liveBefore: map<nat, nat>)
      requires |handleCells| == |chunkSizes| && Positive(chunkSizes)
      requires errorCode == 0 || chunkSizes == []
      requires Created(liveBefore, gpu.live, cells, handleCells, chunkSizes, hs, |chunkSizes|)
      modifies this`errorCode, gpu`live, gpu`mapped, gpu`faults
      ensures old(gpu.faults) <= gpu.faults
      ensures errorCode == 0 <==> old(errorCode) == 0 && gpu.faults == old(gpu.faults)
      ensures old(errorCode) == 0 ==> gpu.faults == old(gpu.faults) + Fault(errorCode)
      ensures errorCode == 0 || chunkSizes == [] ==>
        && errorCode == old(errorCode) && gpu.live == old(gpu.live)
        && MappedSoFar(old(gpu.mapped), gpu.mapped, dMem, chunkSizes, hs, |chunkSizes|)
      ensures errorCode != 0 && chunkSizes != [] ==> gpu.live == liveBefore && gpu.mapped == old(gpu.mapped)
    {
      var allocatedSize := 0;
      ghost var before := gpu.mapped;
      for i := 0 to |chunkSizes|
        invariant errorCode == old(errorCode) && gpu.live == old(gpu.live) && gpu.faults == old(gpu.faults)
        invariant allocatedSize == Prefix(chunkSizes, i)
        invariant MappedSoFar(before, gpu.mapped, dMem, chunkSizes, hs, i)
      {
        var status := gpu.MemMap(dMem + allocatedSize, chunkSizes[i], cells[handleCells[i]]);
        if status != 0 {
          errorCode := status;
        }
        if errorCode != 0 {
          var _ := UnmapFirst(dMem, chunkSizes, i, true, hs, before);
          var _ := ReleaseFirst(handleCells, |chunkSizes|, true, chunkSizes, hs, liveBefore);
          return;
        }
        allocatedSize := allocatedSize + chunkSizes[i];
      }
    }

    /** Creates a handle for every chunk and maps the chunks from dMem. With a clear
        error code it succeeds exactly when no driver call fails, with access set to the
        whole range; on a failed creation or mapping it leaves device and mappings as they
        were; a failed access call leaves everything mapped. With an error code already
        set the first created handle is leaked. */
    method CreateAndMap(dMem: nat, size: nat, handleCells: seq<nat>, chunkSizes: seq<nat>)
      returns (ghost hs: seq<nat>, outcome: Outcome)
      requires |handleCells| == |chunkSizes| && Distinct(handleCells) && Positive(chunkSizes) && chunkSizes != []
      modifies this`errorCode, this`cells, gpu`live, gpu`mapped, gpu`faults, gpu`granted
      ensures old(gpu.faults) <= gpu.faults
      ensures outcome == Complete <==> old(errorCode) == 0 && gpu.faults == old(gpu.faults)
      ensures old(errorCode) == 0 ==> gpu.faults == old(gpu.faults) + Fault(errorCode)
      ensures gpu.granted == if outcome == Complete then old(gpu.granted) + [Grant(dMem, size)] else old(gpu.granted)
      ensures ChangedOnlyAt(old(cells), cells, handleCells)
      ensures errorCode == 0 <==> outcome == Complete
      ensures match outcome
        case RolledBack => gpu.live == old(gpu.live) && gpu.mapped == old(gpu.mapped)
        case Leaked(h) =>
          && old(errorCode) != 0 && gpu.mapped == old(gpu.mapped)
          && h !in old(gpu.live) && gpu.live == old(gpu.live)[h := chunkSizes[0]]
        case _ =>
          && old(errorCode) == 0
          && Created(old(gpu.live), gpu.live, cells, handleCells, chunkSizes, hs, |chunkSizes|)
          && MappedSoFar(old(gpu.mapped), gpu.mapped, dMem, chunkSizes, hs, |chunkSizes|)
    {
      var leak;
      hs, leak := CreateHandles(handleCells, chunkSizes);
      if errorCode != 0 {
        outcome := match leak case None => RolledBack case Some(h) => Leaked(h);
        return;
      }
      MapChunks(dMem, handleCells, chunkSizes, hs, old(gpu.live));
      if errorCode != 0 {
        outcome := RolledBack;
        return;
      }
      var status := gpu.MemSetAccess(dMem, size);
      if status != 0 {
        errorCode := status;
      }
      outcome := if errorCode != 0 then NoAccess else Complete;
    }

    /** Unmaps and releases the chunks of an allocation, recording the first error.
        For an allocation known to be mapped there is none; where nothing is there any
        more, nothing changes but the error code. */
    method UnmapAndRelease(dMem: nat, handleCells: seq<nat>, chunkSizes: seq<nat>, ghost known: bool, ghost hs: seq<nat>,
                           ghost liveAfter: map<nat, nat>, ghost mappedAfter: map<nat, Mapping>)
      requires Releasable(dMem, handleCells, chunkSizes, known, hs, cells, gpu.live, gpu.mapped, liveAfter, mappedAfter)
      modifies this`errorCode, gpu`live, gpu`mapped, gpu`faults
      ensures old(gpu.faults) <= gpu.faults
      ensures if gpu.faults == old(gpu.faults) then errorCode == old(errorCode)
              else errorCode == FirstFault(old(gpu.faults), gpu.faults) != 0
      ensures known ==> gpu.faults == old(gpu.faults)
      ensures known ==> gpu.live == liveAfter && gpu.mapped == mappedAfter && errorCode == old(errorCode)
      ensures Within(gpu.live, old(gpu.live)) && Within(gpu.mapped, old(gpu.mapped))
      ensures NothingThere(dMem, handleCells, chunkSizes, cells, old(gpu.live), old(gpu.mapped)) ==>
                && gpu.live == old(gpu.live) && gpu.mapped == old(gpu.mapped)
                && (chunkSizes != [] ==> errorCode != 0 && gpu.faults != old(gpu.faults))
    {
      var firstUnmap := UnmapFirst(dMem, chunkSizes, |chunkSizes|, known, hs, mappedAfter);
      var firstRelease := ReleaseFirst(handleCells, |chunkSizes|, known, chunkSizes, hs, liveAfter);
      var firstError := if firstUnmap != 0 then firstUnmap else firstRelease;
      if firstError != 0 {
        errorCode := firstError;
      }
    }

    // --------------------------------------------------------------- the life cycle

    ghost predicate Valid()
      reads this, gpu
    {
      && Matches(held, leaked, gpu.reserved, gpu.live, gpu.mapped)
      && TableOk(held, owned, pointerToData, cells, nextCell)
      && 0 < gpu.granularity <= 0x8000_0000_0000_0000
      && 0 < baseChunk && baseChunk + gpu.granularity - 1 < TwoTo64
    }

    /** The driver has given out none of the handles again that p had when it last slept. */
    ghost predicate Stale(p: nat)
      reads this, gpu
    {
      p in pointerToData && NoneLive(pointerToData[p].cells, cells, gpu.live)
    }

    /** Unmaps and releases an allocation: an awake one, which the device has as the books
        say, or one that sleeps already, where every call fails and nothing changes. */
    method UnmapHeld(p: nat, data: AllocationData, ghost table: map<nat, AllocationData>)
      requires Matches(held, leaked, gpu.reserved, gpu.live, gpu.mapped)
      requires TableOk(held, owned, table, cells, nextCell)
      requires p in owned && p in held && p in table && table[p] == data
      requires held[p].awake || NoneLive(data.cells, cells, gpu.live)
      modifies this`errorCode, this`held, gpu`live, gpu`mapped, gpu`faults
      ensures old(gpu.faults) <= gpu.faults && (gpu.faults == old(gpu.faults) <==> old(held)[p].awake)
      ensures held == old(held)[p := old(held)[p].(awake := false)]
      ensures if old(held)[p].awake then errorCode == old(errorCode)
              else errorCode != 0 && gpu.live == old(gpu.live) && gpu.mapped == old(gpu.mapped)
      ensures Matches(held, leaked, gpu.reserved, gpu.live, gpu.mapped)
      ensures TableOk(held, owned, table, cells, nextCell)
    {
      hide *;
      ghost var h := held[p];
      ghost var hs, live1, mapped1 := BeforeUnmap(held, leaked, gpu.reserved, gpu.live, gpu.mapped, owned, table, cells, nextCell, p);
      UnmapAndRelease(p, data.cells, data.chunkSizes, h.awake, hs, live1, mapped1);
      held := held[p := h.(awake := false)];
    }

    /** python_unmap_and_release: the memory goes, the range and the chunk layout stay.
        On an awake allocation it raises only when an error was already pending. On one
        that sleeps already it always raises and changes nothing, unless the driver has
        given out one of its old handles again. */
    method Sleep(p: nat) returns (raised: bool)
      requires Valid() && p in owned && (held[p].awake || Stale(p))
      modifies this`errorCode, this`held, gpu`live, gpu`mapped, gpu`faults
      ensures old(gpu.faults) <= gpu.faults && (gpu.faults == old(gpu.faults) <==> old(held)[p].awake)
      ensures Valid() && held == old(held)[p := old(held)[p].(awake := false)]
      ensures raised == (old(errorCode) != 0 || !old(held)[p].awake) && errorCode == 0
      ensures !old(held)[p].awake ==> gpu.live == old(gpu.live) && gpu.mapped == old(gpu.mapped)
    {
      EntryOf(p);
      hide Matches, Union;
      var data := pointerToData[p];
      UnmapHeld(p, data, pointerToData);
      raised := errorCode != 0;
      errorCode := 0;
    }

    /** python_create_and_map on a sleeping allocation: it is mapped again in the same
        range with the same chunk layout, exactly when no driver call fails and no error
        is pending, and access is set to all of it; otherwise nothing changes, or only the
        access call fails; with an error pending one new handle may be lost. */
    method Wake(p: nat) returns (raised: bool, outcome: Outcome)
      requires Valid() && p in owned && !held[p].awake
      modifies this`errorCode, this`cells, this`held, this`leaked, gpu`live, gpu`mapped, gpu`faults, gpu`granted
      ensures old(gpu.faults) <= gpu.faults
      ensures outcome == Complete <==> old(errorCode) == 0 && gpu.faults == old(gpu.faults)
      ensures gpu.granted == if outcome == Complete then old(gpu.granted) + [Grant(p, Sum(old(held)[p].chunks))] else old(gpu.granted)
      ensures Valid() && errorCode == 0 && (raised <==> outcome != Complete)
      ensures match outcome
        case RolledBack => held == old(held) && leaked == old(leaked)
        case Leaked(h) => old(errorCode) != 0 && held == old(held) && leaked == old(leaked) + {h}
        case _ =>
          && p in held && held == old(held)[p := Holding(old(held)[p].chunks, held[p].handles, true)]
          && leaked == old(leaked) && old(errorCode) == 0
    {
      hide Matches, Union;
      var data := pointerToData[p];
      ghost var h := held[p];
      ghost var live0, mapped0, cells0 := gpu.live, gpu.mapped, cells;
      assert EntryOk(h, data, cells);
      ghost var hs;
      hs, outcome := CreateAndMap(p, data.size, data.cells, data.chunkSizes);
      match outcome {
        case RolledBack =>
          KeepAsleep(held, owned, pointerToData, cells0, nextCell, cells, p);
        case Leaked(lost) =>
          KeepAsleep(held, owned, pointerToData, cells0, nextCell, cells, p);
          LeakHandle(held, leaked, gpu.reserved, live0, mapped0, lost, data.chunkSizes[0]);
          leaked := leaked + {lost};
        case _ =>
          WakeStep(held, leaked, gpu.reserved, live0, mapped0, owned, pointerToData, cells0, nextCell, p,
                   gpu.live, gpu.mapped, cells, hs);
          held := held[p := Holding(h.chunks, hs, true)];
      }
      raised := errorCode != 0;
      errorCode := 0;
    }

    /** my_malloc. It succeeds exactly when no driver call fails and no error is pending,
        with access set to the whole range. With an error pending it gives up before it
        touches the device; for size 0 no range can be reserved. A failed creation or
        mapping gives the address range back as well; a failed access call leaves range,
        handles and mappings behind, owned by nobody. Every failure leaves the error code
        at the last status that was not zero, and one after the reservation leaves the
        table entry. */
    method Malloc(size: nat) returns (r: Option<nat>, outcome: Outcome, at: Option<nat>)
      requires Valid() && Fits(gpu.granularity, baseChunk, size)
      modifies this`errorCode, this`cells, this`nextCell, this`pointerToData, this`held, this`owned
      modifies gpu`reserved, gpu`live, gpu`mapped, gpu`faults, gpu`granted
      ensures old(gpu.faults) <= gpu.faults
      ensures outcome == Complete <==> old(errorCode) == 0 && gpu.faults == old(gpu.faults)
      ensures outcome != Complete && old(errorCode) == 0 ==>
                gpu.faults != old(gpu.faults) && errorCode == gpu.faults[|gpu.faults| - 1]
      ensures outcome == Complete ==> at.Some? && gpu.granted == old(gpu.granted) + [Grant(at.value, RoundUp64(size, gpu.granularity))]
      ensures outcome != Complete ==> gpu.granted == old(gpu.granted)
      ensures Valid() && (r.Some? <==> outcome == Complete) && (errorCode == 0 <==> outcome == Complete)
      ensures old(errorCode) != 0 || size == 0 ==> outcome == RolledBack && at == None
      ensures at == None ==> outcome == RolledBack && pointerToData == old(pointerToData)
      ensures at.Some? ==>
        && at.value !in old(held) && at.value in pointerToData
        && pointerToData == old(pointerToData)[at.value := pointerToData[at.value]]
        && pointerToData[at.value].size == RoundUp64(size, gpu.granularity)
      ensures r == if outcome == Complete then at else None
      ensures match outcome
        case RolledBack =>
          && held == old(held) && owned == old(owned)
          && gpu.reserved == old(gpu.reserved) && gpu.live == old(gpu.live) && gpu.mapped == old(gpu.mapped)
        case NoAccess => at.Some? && NewlyHeld(gpu.granularity, baseChunk, old(held), held, at.value, size) && owned == old(owned)
        case Complete => at.Some? && NewlyHeld(gpu.granularity, baseChunk, old(held), held, at.value, size) && owned == old(owned) + {at.value}
        case Leaked(_) => false
    {
      hide Matches, Union;
      r, outcome, at := None, RolledBack, None;
      var status, granularity := gpu.GetAllocationGranularity();
      if status != 0 {
        errorCode := status;
      }
      if errorCode != 0 {
        return;
      }
      var alignedSize, planned := PlanChunks(size, granularity, baseChunk);
      var chunkSizes := planned.value;
      var dMem;
      status, dMem := gpu.AddressReserve(alignedSize, granularity);
      if status != 0 {
        errorCode := status;
      }
      if errorCode != 0 {
        return;
      }
      AlignedSizeExact(size, granularity);
      assert size > 0;
      hide RoundUp64, LeastMultiple;
      assert gpu.reserved - {dMem} == old(gpu.reserved);
      assert Sum(chunkSizes) == alignedSize > 0;
      at := Some(dMem);
      outcome := MapReserved(dMem, alignedSize, chunkSizes);
      r := if errorCode != 0 then None else Some(dMem);
    }

    /** The rest of an allocation, once its range is reserved: the table entry, the
        mapping, and the clean-up after a failure. */
    method MapReserved(dMem: nat, alignedSize: nat, chunkSizes: seq<nat>) returns (outcome: Outcome)
      requires errorCode == 0
      requires Matches(held, leaked, gpu.reserved - {dMem}, gpu.live, gpu.mapped)
      requires TableOk(held, owned, pointerToData, cells, nextCell)
      requires dMem in gpu.reserved && gpu.reserved[dMem] == alignedSize == Sum(chunkSizes)
      requires forall q :: q in gpu.reserved && q != dMem ==> Apart(q, gpu.reserved[q], dMem, alignedSize)
      requires chunkSizes != [] && Positive(chunkSizes)
      modifies this`errorCode, this`cells, this`nextCell, this`pointerToData, this`held, this`owned
      modifies gpu`reserved, gpu`live, gpu`mapped, gpu`faults, gpu`granted
      ensures old(gpu.faults) <= gpu.faults
      ensures outcome == Complete <==> gpu.faults == old(gpu.faults)
      ensures outcome != Complete ==> errorCode == gpu.faults[|gpu.faults| - 1]
      ensures gpu.granted == if outcome == Complete then old(gpu.granted) + [Grant(dMem, alignedSize)] else old(gpu.granted)
      ensures Matches(held, leaked, gpu.reserved, gpu.live, gpu.mapped)
      ensures TableOk(held, owned, pointerToData, cells, nextCell)
      ensures errorCode == 0 <==> outcome == Complete
      ensures dMem !in old(held) && dMem in pointerToData && pointerToData[dMem].size == alignedSize
      ensures pointerToData == old(pointerToData)[dMem := pointerToData[dMem]]
      ensures match outcome
        case RolledBack =>
          && held == old(held) && owned == old(owned)
          && gpu.reserved == old(gpu.reserved) - {dMem} && gpu.live == old(gpu.live) && gpu.mapped == old(gpu.mapped)
        case Leaked(_) => false
        case _ =>
          && dMem !in old(held) && dMem in held && held[dMem].chunks == chunkSizes && held[dMem].awake
          && held == old(held)[dMem := held[dMem]]
          && owned == (if outcome == Complete then old(owned) + {dMem} else old(owned))
    {
      hide Matches, Union, TableOk, Created, MappedSoFar, ChangedOnlyAt, Sum;
      ghost var live0, mapped0, held0, owned0 := gpu.live, gpu.mapped, held, owned;
      var newCells := Register(dMem, alignedSize, chunkSizes);
      ghost var held1, cells1 := held, cells;
      ghost var hs;
      hs, outcome := CreateAndMap(dMem, alignedSize, newCells, chunkSizes);
      if outcome == RolledBack {
        KeepAsleep(held1, owned, pointerToData, cells1, nextCell, cells, dMem);
      } else {
        WakeStep(held1, leaked, gpu.reserved, live0, mapped0, owned, pointerToData, cells1, nextCell, dMem,
                 gpu.live, gpu.mapped, cells, hs);
        held := held[dMem := Holding(chunkSizes, hs, true)];
      }
      if errorCode != 0 {
        ghost var held2 := held;
        GiveUp(dMem, alignedSize, newCells);
        if outcome == RolledBack {
          assert held1 - {dMem} == held0;
        } else {
          assert held2[dMem].awake;
        }
        assert owned == owned0;
      }
    }

    /** A table entry with fresh cells for a reserved range, nothing mapped yet. */
    method Register(dMem: nat, alignedSize: nat, chunkSizes: seq<nat>) returns (newCells: seq<nat>)
      requires Matches(held, leaked, gpu.reserved - {dMem}, gpu.live, gpu.mapped)
      requires TableOk(held, owned, pointerToData, cells, nextCell)
      requires dMem in gpu.reserved && gpu.reserved[dMem] == alignedSize == Sum(chunkSizes)
      requires forall q :: q in gpu.reserved && q != dMem ==> Apart(q, gpu.reserved[q], dMem, alignedSize)
      requires chunkSizes != [] && Positive(chunkSizes)
      modifies this`cells, this`nextCell, this`pointerToData, this`held, this`owned
      ensures dMem !in old(held) && held == old(held)[dMem := Holding(chunkSizes, [], false)]
      ensures dMem !in old(owned) && owned == old(owned) + {dMem}
      ensures pointerToData == old(pointerToData)[dMem := AllocationData(alignedSize, newCells, chunkSizes)]
      ensures |newCells| == |chunkSizes| && Distinct(newCells)
      ensures Matches(held, leaked, gpu.reserved, gpu.live, gpu.mapped)
      ensures TableOk(held, owned, pointerToData, cells, nextCell)
    {
      hide Matches, Union, TableOk;
      ghost var reserved0 := gpu.reserved - {dMem};
      NewRange(held, leaked, reserved0, gpu.live, gpu.mapped, owned, pointerToData, cells, nextCell, dMem);
      assert reserved0[dMem := Sum(chunkSizes)] == gpu.reserved;
      ghost var cells0, nextCell0, table0 := cells, nextCell, pointerToData;
      newCells := FreshCells(nextCell, |chunkSizes|);
      cells := cells + map c | c in newCells :: 0;
      nextCell := nextCell + |chunkSizes|;
      var data := AllocationData(alignedSize, newCells, chunkSizes);
      pointerToData := pointerToData[dMem := data];
      AddAsleep(held, leaked, reserved0, gpu.live, gpu.mapped, dMem, chunkSizes);
      AddEntry(held, owned, table0, cells0, nextCell0, dMem, data, cells, nextCell);
      held := held[dMem := Holding(chunkSizes, [], false)];
      owned := owned + {dMem};
    }

    /** The clean-up after a failed allocation: the range is given back if nothing is
        mapped in it, the cells are freed, the table entry stays behind. */
    method GiveUp(dMem: nat, alignedSize: nat, newCells: seq<nat>)
      requires errorCode != 0 && dMem in owned && dMem in pointerToData && pointerToData[dMem].cells == newCells
      requires dMem in held && alignedSize == Sum(held[dMem].chunks) && held[dMem].chunks != []
      requires Matches(held, leaked, gpu.reserved, gpu.live, gpu.mapped)
      requires TableOk(held, owned, pointerToData, cells, nextCell)
      modifies this`errorCode, this`cells, this`held, this`owned, gpu`reserved, gpu`faults
      ensures if old(held)[dMem].awake then gpu.faults == old(gpu.faults) + [errorCode]
              else gpu.faults == old(gpu.faults) && errorCode == old(errorCode)
      ensures errorCode != 0 && owned == old(owned) - {dMem}
      ensures held == if old(held)[dMem].awake then old(held) else old(held) - {dMem}
      ensures gpu.reserved == if old(held)[dMem].awake then old(gpu.reserved) else old(gpu.reserved) - {dMem}
      ensures Matches(held, leaked, gpu.reserved, gpu.live, gpu.mapped)
      ensures TableOk(held, owned, pointerToData, cells, nextCell)
    {
      hide Matches, Union, TableOk;
      ghost var held0, cells0 := held, cells;
      RangeIsClear(held, leaked, gpu.reserved, gpu.live, gpu.mapped, dMem);
      ReservedAreHeld(held, leaked, gpu.reserved, gpu.live, gpu.mapped);
      if !held[dMem].awake {
        RemoveAsleep(held, leaked, gpu.reserved, gpu.live, gpu.mapped, dMem);
      }
      var status := gpu.AddressFree(dMem, alignedSize);
      if status != 0 {
        errorCode := status;
      }
      if status == 0 {
        held := held - {dMem};
      }
      cells := cells - set c | c in newCells;
      DropEntry(held0, owned, pointerToData, cells0, nextCell, dMem, held, pointerToData);
      owned := owned - {dMem};
    }

    /** my_free, with the size its caller remembers. The range is given back exactly when
        that is the aligned size; otherwise it stays reserved, owned by nobody. The error
        code stays as it is exactly then, and if the allocation was awake. */
    method Free(p: nat, size: nat)
      requires Valid() && p in owned && (held[p].awake || Stale(p))
      modifies this`errorCode, this`cells, this`pointerToData, this`held, this`owned
      modifies gpu`reserved, gpu`live, gpu`mapped, gpu`faults
      ensures old(gpu.faults) <= gpu.faults
      ensures gpu.faults == old(gpu.faults) <==> size == Sum(old(held)[p].chunks) && old(held)[p].awake
      ensures size != Sum(old(held)[p].chunks) ==> gpu.faults != [] && errorCode == gpu.faults[|gpu.faults| - 1]
      ensures Valid() && owned == old(owned) - {p} && pointerToData == old(pointerToData) - {p}
      ensures held == if size == Sum(old(held)[p].chunks) then old(held) - {p}
                      else old(held)[p := old(held)[p].(awake := false)]
      ensures if size == Sum(old(held)[p].chunks) && old(held)[p].awake then errorCode == old(errorCode) else errorCode != 0
    {
      hide Matches, Union;
      var data := pointerToData[p];
      ghost var table0 := pointerToData;
      EntryOf(p);
      hide TableOk;
      pointerToData := pointerToData - {p};
      UnmapHeld(p, data, table0);
      FreeRange(p, size, data.cells, table0);
    }

    /** What the table holds of an allocation that is owned. */
    lemma EntryOf(p: nat)
      requires TableOk(held, owned, pointerToData, cells, nextCell) && p in owned
      ensures p in held && p in pointerToData
      ensures held[p].chunks != []
    {
    }

    /** The end of a free, with nothing mapped in the range: the range, if the size is
        right, and the cells. */
    method FreeRange(p: nat, size: nat, handleCells: seq<nat>, ghost table: map<nat, AllocationData>)
      requires Matches(held, leaked, gpu.reserved, gpu.live, gpu.mapped)
      requires TableOk(held, owned, table, cells, nextCell)
      requires p in owned && p in held && !held[p].awake && held[p].chunks != []
      requires p in table && table[p].cells == handleCells && pointerToData == table - {p}
      modifies this`errorCode, this`cells, this`held, this`owned, gpu`reserved, gpu`faults
      ensures gpu.faults == if size == Sum(old(held)[p].chunks) then old(gpu.faults) else old(gpu.faults) + [errorCode]
      ensures Matches(held, leaked, gpu.reserved, gpu.live, gpu.mapped)
      ensures TableOk(held, owned, pointerToData, cells, nextCell)
      ensures owned == old(owned) - {p}
      ensures if size == Sum(old(held)[p].chunks) then held == old(held) - {p} && errorCode == old(errorCode)
              else held == old(held) && errorCode != 0
    {
      hide Matches, Union, TableOk;
      RangeIsClear(held, leaked, gpu.reserved, gpu.live, gpu.mapped, p);
      ReservedAreHeld(held, leaked, gpu.reserved, gpu.live, gpu.mapped);
      RemoveAsleep(held, leaked, gpu.reserved, gpu.live, gpu.mapped, p);
      var status := gpu.AddressFree(p, size);
      if status != 0 {
        errorCode := status;
      }
      ghost var held1, cells1 := held, cells;
      cells := cells - set c | c in handleCells;
      if status == 0 {
        held := held - {p};
      }
      DropEntry(held1, owned, table, cells1, nextCell, p, held, pointerToData);
      owned := owned - {p};
    }

    // ----------------------------------------------------------------------- runs

    ghost function View(): State
      reads this, gpu
    {
      State(held, leaked, owned, errorCode != 0, gpu.reserved, gpu.live, gpu.mapped, gpu.faults, gpu.granted)
    }

    /** A client that keeps the books: the allocations it owns that are awake, and those
        that sleep. */
    ghost predicate Booked(awake: set<nat>, asleep: set<nat>)
      reads this
    {
      && owned <= held.Keys
      && awake == (set p | p in owned && held[p].awake)
      && asleep == owned - awake
    }

    /** Any sequence of allocations, sleeps, wakes and frees, each of them applied as far
        as the books allow it. */
    method Run(ops: seq<Op>, awake0: set<nat>, asleep0: set<nat>) returns (ghost results: seq<Result>, ghost trace: seq<State>)
      requires Valid() && Booked(awake0, asleep0)
      modifies this, gpu
      ensures Valid()
      ensures IsRun(gpu.granularity, baseChunk, ops, results, trace)
      ensures trace[0] == old(View()) && trace[|ops|] == View()
    {
      hide StepSpec, Matching, Booked, Valid;
      results, trace := [], [View()];
      MatchingView();
      var awake, asleep := awake0, asleep0;
      for i := 0 to |ops|
        invariant Valid() && Booked(awake, asleep)
        invariant IsRun(gpu.granularity, baseChunk, ops[..i], results, trace)
        invariant trace[0] == old(View()) && trace[i] == View()
      {
        ghost var result;
        awake, asleep, result := Step(ops[i], awake, asleep);
        MatchingView();
        RunMore(gpu.granularity, baseChunk, ops[..i], results, trace, ops[i], result, View());
        assert ops[..i + 1] == ops[..i] + [ops[i]];
        results, trace := results + [result], trace + [View()];
      }
      assert ops[..|ops|] == ops;
    }

    lemma MatchingView()
      requires Valid()
      ensures Matching(View()) && gpu.granularity > 0
    {
      hide Matches;
    }

    /** One operation of a run. */
    method Step(op: Op, awake: set<nat>, asleep: set<nat>) returns (awake': set<nat>, asleep': set<nat>, ghost result: Result)
      requires Valid() && Booked(awake, asleep)
      modifies this, gpu
      ensures Valid() && Booked(awake', asleep')
      ensures StepSpec(gpu.granularity, baseChunk, op, result, old(View()), View())
    {
      hide Matches, Union, TableOk;
      awake', asleep', result := awake, asleep, Skipped;
      match op {
        case Allocate(size) =>
          if Fits(gpu.granularity, baseChunk, size) {
            var p, outcome, at := Malloc(size);
            if p.Some? {
              awake' := awake + {p.value};
            }
            result := Done(outcome, if at.Some? then at.value else 0);
          }
        case PutToSleep(p) =>
          if p in awake {
            var _ := Sleep(p);
            awake', asleep' := awake - {p}, asleep + {p};
            result := Done(Complete, p);
          }
        case Rouse(p) =>
          if p in asleep {
            var _, outcome := Wake(p);
            if outcome == Complete || outcome == NoAccess {
              awake', asleep' := awake + {p}, asleep - {p};
            }
            result := Done(outcome, p);
          }
        case GiveBack(p, size) =>
          if p in awake {
            Free(p, size);
            awake' := awake - {p};
            result := Done(Complete, p);
          }
      }
    }
  }

  // ------------------------------------------------------------- what runs amount to

  /** What the books, the error code, the device and the record of its calls say between
      two operations. */
  datatype State = State(
    held: Holdings, leaked: set<nat>, owned: set<nat>, pending: bool,
    reserved: map<nat, nat>, live: map<nat, nat>, mapped: map<nat, Mapping>,
    faults: seq<int>, granted: seq<Grant>)

  /** An operation that the books do not allow is skipped. */
  datatype Result = Skipped | Done(outcome: Outcome, at: nat)

  ghost predicate Matching(s: State) {
    Matches(s.held, s.leaked, s.reserved, s.live, s.mapped) && s.owned <= s.held.Keys
  }

  ghost predicate Applies(granularity: nat, baseChunk: nat, op: Op, s: State)
    requires granularity > 0
  {
    match op
    case Allocate(size) => Fits(granularity, baseChunk, size)
    case PutToSleep(p) => p in s.owned && p in s.held && s.held[p].awake
    case Rouse(p) => p in s.owned && p in s.held && !s.held[p].awake
    case GiveBack(p, _) => p in s.owned && p in s.held && s.held[p].awake
  }

  /** What one operation does to the state, by how it ended. */
  ghost predicate StepSpec(granularity: nat, baseChunk: nat, op: Op, result: Result, s: State, s': State)
    requires granularity > 0
  {
    if !Applies(granularity, baseChunk, op, s) then result == Skipped && s' == s
    else
      && result.Done? && s.faults <= s'.faults
      && match op
      case Allocate(size) => AllocateSpec(granularity, baseChunk, size, result, s, s')
      case PutToSleep(p) =>
        && result == Done(Complete, p) && !s'.pending
        && s'.held == s.held[p := s.held[p].(awake := false)] && s'.leaked == s.leaked && s'.owned == s.owned
        && s'.faults == s.faults && s'.granted == s.granted
      case Rouse(p) => RouseSpec(p, result, s, s')
      case GiveBack(p, size) =>
        && result == Done(Complete, p) && s'.leaked == s.leaked && s'.owned == s.owned - {p}
        && s'.held == (if size == Sum(s.held[p].chunks) then s.held - {p} else s.held[p := s.held[p].(awake := false)])
        && s'.pending == (s.pending || size != Sum(s.held[p].chunks))
        && (s'.faults == s.faults <==> size == Sum(s.held[p].chunks)) && s'.granted == s.granted
  }

  ghost predicate AllocateSpec(granularity: nat, baseChunk: nat, size: nat, result: Result, s: State, s': State)
    requires granularity > 0 && result.Done?
  {
    && (s.pending || size == 0 ==> result.outcome == RolledBack)
    && s'.leaked == s.leaked && (s'.pending <==> result.outcome != Complete)
    && (result.outcome == Complete <==> !s.pending && s'.faults == s.faults)
    && s'.granted == s.granted + (if result.outcome == Complete then [Grant(result.at, RoundUp64(size, granularity))] else [])
    && match result.outcome
       case Complete =>
         NewlyHeld(granularity, baseChunk, s.held, s'.held, result.at, size) && s'.owned == s.owned + {result.at}
       case NoAccess =>
         NewlyHeld(granularity, baseChunk, s.held, s'.held, result.at, size) && s'.owned == s.owned
       case RolledBack => s' == s.(pending := true, faults := s'.faults)
       case Leaked(_) => false
  }

  ghost predicate RouseSpec(p: nat, result: Result, s: State, s': State)
    requires p in s.held && result.Done?
  {
    && result.at == p && !s'.pending && s'.owned == s.owned
    && (result.outcome == Complete <==> !s.pending && s'.faults == s.faults)
    && s'.granted == s.granted + (if result.outcome == Complete then [Grant(p, Sum(s.held[p].chunks))] else [])
    && match result.outcome
       case RolledBack => s'.held == s.held && s'.leaked == s.leaked
       case Leaked(h) => s.pending && s'.held == s.held && s'.leaked == s.leaked + {h}
       case _ =>
         && !s.pending && p in s'.held
         && s'.held == s.held[p := Holding(s.held[p].chunks, s'.held[p].handles, true)] && s'.leaked == s.leaked
  }

  /** The states before and after every operation of a run, and how each ended. */
  ghost predicate IsRun(granularity: nat, baseChunk: nat, ops: seq<Op>, results: seq<Result>, trace: seq<State>) {
    && granularity > 0
    && |results| == |ops| && |trace| == |ops| + 1
    && (forall i :: 0 <= i < |trace| ==> Matching(trace[i]))
    && (forall i :: 0 <= i < |ops| ==> StepSpec(granularity, baseChunk, ops[i], results[i], trace[i], trace[i + 1]))
  }

  lemma RunMore(granularity: nat, baseChunk: nat, ops: seq<Op>, results: seq<Result>, trace: seq<State>, op: Op, result: Result, s: State)
    requires IsRun(granularity, baseChunk, ops, results, trace) && Matching(s)
    requires StepSpec(granularity, baseChunk, op, result, trace[|ops|], s)
    ensures IsRun(granularity, baseChunk, ops + [op], results + [result], trace + [s])
  {
    hide StepSpec, Matching;
    var ops', results', trace' := ops + [op], results + [result], trace + [s];
    forall i | 0 <= i < |ops'| ensures StepSpec(granularity, baseChunk, ops'[i], results'[i], trace'[i], trace'[i + 1]) {
      assert trace'[i] == trace[i];
    }
  }

  /** At every point of a run mapped memory is exactly the ranges of the awake allocations. */
  lemma RunMapsAwakeRanges(granularity: nat, baseChunk: nat, ops: seq<Op>, results: seq<Result>, trace: seq<State>, i: nat, x: nat)
    requires IsRun(granularity, baseChunk, ops, results, trace) && i <= |ops|
    ensures Covers(trace[i].mapped, x) <==> exists p :: InAwakeRange(trace[i].held, p, x)
  {
    hide StepSpec, Matches, Covers, InAwakeRange;
    assert Matching(trace[i]);
    MappedIsAwakeRanges(trace[i].held, trace[i].leaked, trace[i].reserved, trace[i].live, trace[i].mapped, x);
  }

  /** The operation loses something for good: a range whose access call failed, a handle
      created with an error pending, or a range freed with another size than its own. */
  ghost predicate Loses(op: Op, result: Result, s: State) {
    && result.Done?
    && match op
       case Allocate(_) => result.outcome == NoAccess
       case PutToSleep(_) => false
       case Rouse(_) => result.outcome.Leaked?
       case GiveBack(p, size) => p in s.held && size != Sum(s.held[p].chunks)
  }

  /** Everything held is owned, and no handle is lost. */
  ghost predicate Clean(s: State) {
    s.held.Keys == s.owned && s.leaked == {}
  }

  lemma StepLoss(granularity: nat, baseChunk: nat, op: Op, result: Result, s: State, s': State)
    requires granularity > 0 && StepSpec(granularity, baseChunk, op, result, s, s')
    requires s.owned <= s.held.Keys && s'.owned <= s'.held.Keys
    ensures Clean(s') <==> Clean(s) && !Loses(op, result, s)
  {
    hide Fits, Cuts, Sum;
    match op
    case Allocate(_) =>
      if result.Done? && result.outcome != RolledBack {
        assert result.at !in s.held;
      }
    case PutToSleep(p) =>
    case Rouse(p) =>
      if result.Done? && result.outcome.Leaked? {
        assert result.outcome.handle in s'.leaked;
      }
    case GiveBack(p, size) =>
      if s.held.Keys != s.owned {
        var q :| q in s.held && q !in s.owned;
        assert q in s'.held && q !in s'.owned;
      }
      if Applies(granularity, baseChunk, op, s) {
        assert p !in s'.owned && (p in s'.held <==> size != Sum(s.held[p].chunks));
      }
  }

  lemma {:induction false} CleanUpTo(granularity: nat, baseChunk: nat, ops: seq<Op>, results: seq<Result>, trace: seq<State>, n: nat)
    requires IsRun(granularity, baseChunk, ops, results, trace) && n <= |ops| && Clean(trace[0])
    ensures Clean(trace[n]) <==> forall i :: 0 <= i < n ==> !Loses(ops[i], results[i], trace[i])
  {
    hide StepSpec, Matches, Loses, Clean;
    if n > 0 {
      CleanUpTo(granularity, baseChunk, ops, results, trace, n - 1);
      assert Matching(trace[n - 1]) && Matching(trace[n]);
      StepLoss(granularity, baseChunk, ops[n - 1], results[n - 1], trace[n - 1], trace[n]);
    }
  }

  /** The operation was skipped or is complete, it lost nothing, and no error is pending after it. */
  ghost predicate Smooth(op: Op, result: Result, s: State, s': State) {
    !s'.pending && (result.Done? ==> result.outcome == Complete) && !Loses(op, result, s)
  }

  lemma StepWithoutFault(granularity: nat, baseChunk: nat, op: Op, result: Result, s: State, s': State)
    requires granularity > 0 && StepSpec(granularity, baseChunk, op, result, s, s') && !s.pending
    ensures s'.faults == s.faults <==> Smooth(op, result, s, s')
  {
    hide Fits, Cuts, Sum;
  }

  /** From a clear error code no driver call of a run fails exactly when every operation
      that is not skipped is complete, none loses anything, and no error is ever pending. */
  lemma {:induction false} FaultlessRunCompletes(granularity: nat, baseChunk: nat, ops: seq<Op>, results: seq<Result>, trace: seq<State>, n: nat)
    requires IsRun(granularity, baseChunk, ops, results, trace) && n <= |ops| && !trace[0].pending
    ensures trace[0].faults <= trace[n].faults
    ensures trace[n].faults == trace[0].faults <==>
      forall i :: 0 <= i < n ==> Smooth(ops[i], results[i], trace[i], trace[i + 1])
  {
    hide StepSpec, Loses, Matching;
    if n > 0 {
      FaultlessRunCompletes(granularity, baseChunk, ops, results, trace, n - 1);
      StepNeverForgets(granularity, baseChunk, ops[n - 1], results[n - 1], trace[n - 1], trace[n]);
      if !trace[n - 1].pending {
        StepWithoutFault(granularity, baseChunk, ops[n - 1], results[n - 1], trace[n - 1], trace[n]);
      } else {
        assert n > 1 && !Smooth(ops[n - 2], results[n - 2], trace[n - 2], trace[n - 2 + 1]);
      }
    }
  }

  lemma StepNeverForgets(granularity: nat, baseChunk: nat, op: Op, result: Result, s: State, s': State)
    requires granularity > 0 && StepSpec(granularity, baseChunk, op, result, s, s')
    ensures s.faults <= s'.faults && s.granted <= s'.granted
  {
    hide Fits, Cuts, Sum;
  }

  /** Once everything owned is given back, the device is as it was at the start exactly
      when no operation of the run lost anything. */
  lemma DeviceRestoredExactly(granularity: nat, baseChunk: nat, ops: seq<Op>, results: seq<Result>, trace: seq<State>)
    requires IsRun(granularity, baseChunk, ops, results, trace) && Clean(trace[0]) && trace[|ops|].owned == {}
    ensures (trace[|ops|].reserved == map[] && trace[|ops|].live == map[] && trace[|ops|].mapped == map[])
       <==> forall i :: 0 <= i < |ops| ==> !Loses(ops[i], results[i], trace[i])
  {
    CleanUpTo(granularity, baseChunk, ops, results, trace, |ops|);
    hide StepSpec, Loses, Union, HoldingsOk;
    var s := trace[|ops|];
    assert Matching(s);
    if Clean(s) {
      assert s.held == map[];
      NothingHeld(s.leaked, s.reserved, s.live, s.mapped);
    }
  }
}
