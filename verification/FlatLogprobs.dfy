/**
 Logprobs of a request kept in flat lists, and their agreement with a plain list of
 dictionaries.
 */
module FlatLogprobs {
  import opened Wrappers
  import Bits

  datatype Logprob = Logprob(logprob: real, rank: Option<int>, decodedToken: Option<string>)

  datatype Entry = Entry(tokenId: int, logprob: Logprob)

  /** A dictionary as the sequence of its items; a repeated key means its last value. */
  function DictOf(items: seq<Entry>): map<int, Logprob> {
    if items == [] then map[]
    else DictOf(items[..|items| - 1])[items[|items| - 1].tokenId := items[|items| - 1].logprob]
  }

  /** Of several items with one key the last counts. */
  lemma {:induction false} LastItemCounts(items: seq<Entry>, i: nat)
    requires i < |items| && forall j :: i < j < |items| ==> items[j].tokenId != items[i].tokenId
    ensures items[i].tokenId in DictOf(items) && DictOf(items)[items[i].tokenId] == items[i].logprob
  {
    if i < |items| - 1 {
      LastItemCounts(items[..|items| - 1], i);
    }
  }

  lemma {:induction false} DictKeys(items: seq<Entry>, key: int)
    ensures key in DictOf(items) <==> exists i :: 0 <= i < |items| && items[i].tokenId == key
  {
    if items != [] {
      var front := items[..|items| - 1];
      DictKeys(front, key);
      assert forall i :: 0 <= i < |front| ==> front[i] == items[i];
    }
  }

  /** The flat lists as one value. */
  datatype Flat = Flat(
    starts: seq<int>,
    ends: seq<int>,
    tokenIds: seq<int>,
    logprobs: seq<real>,
    ranks: seq<Option<int>>,
    decodedTokens: seq<Option<string>>)
  {
    ghost predicate SameLengths() {
      && |starts| == |ends|
      && |tokenIds| == |logprobs| == |ranks| == |decodedTokens|
    }

    /** The ranges of the positions lie in the lists, one after the other. */
    ghost predicate Ok() {
      && SameLengths()
      && (forall i :: 0 <= i < |starts| ==> 0 <= starts[i] <= ends[i] <= |tokenIds|)
      && (forall i, j :: 0 <= i < j < |starts| ==> ends[i] <= starts[j])
    }

    function Row(i: nat): Entry
      requires SameLengths() && i < |tokenIds|
    {
      Entry(tokenIds[i], Logprob(logprobs[i], ranks[i], decodedTokens[i]))
    }

    ghost function Rows(lo: nat, hi: nat): (r: seq<Entry>)
      requires SameLengths() && lo <= hi <= |tokenIds|
      ensures |r| == hi - lo && forall k :: 0 <= k < hi - lo ==> r[k] == Row(lo + k)
    {
      seq(hi - lo, k requires 0 <= k < hi - lo => Row(lo + k))
    }

    /** What the container stands for: one dictionary a position. */
    ghost function View(): (v: seq<map<int, Logprob>>)
      requires Ok()
      ensures |v| == |starts|
    {
      seq(|starts|, i requires 0 <= i < |starts| => DictOf(Rows(starts[i], ends[i])))
    }
  }

  // ------------------------------------------------------------ items of one call

  /** zip: as many items as the shortest argument has. */
  function Zip(tokenIds: seq<int>, logprobs: seq<real>, ranks: seq<int>, decodedTokens: seq<Option<string>>): seq<Entry> {
    if tokenIds == [] || logprobs == [] || ranks == [] || decodedTokens == [] then []
    else [Entry(tokenIds[0], Logprob(logprobs[0], Some(ranks[0]), decodedTokens[0]))] +
         Zip(tokenIds[1..], logprobs[1..], ranks[1..], decodedTokens[1..])
  }

  lemma {:induction false} ZipItems(tokenIds: seq<int>, logprobs: seq<real>, ranks: seq<int>, decodedTokens: seq<Option<string>>)
    ensures var z := Zip(tokenIds, logprobs, ranks, decodedTokens);
            && |z| <= |tokenIds| && |z| <= |logprobs| && |z| <= |ranks| && |z| <= |decodedTokens|
            && (|z| == |tokenIds| || |z| == |logprobs| || |z| == |ranks| || |z| == |decodedTokens|)
            && forall i :: 0 <= i < |z| ==> z[i] == Entry(tokenIds[i], Logprob(logprobs[i], Some(ranks[i]), decodedTokens[i]))
  {
    if tokenIds != [] && logprobs != [] && ranks != [] && decodedTokens != [] {
      ZipItems(tokenIds[1..], logprobs[1..], ranks[1..], decodedTokens[1..]);
    }
  }

  /** The sampled token's rank, then 1 up to the number of logprobs asked for, where -1
      asks for all that are given. */
  function Ranks(rank: int, numLogprobs: int, given: nat): (r: seq<int>)
    ensures |r| == 1 + (if numLogprobs == -1 then given else if numLogprobs < 0 then 0 else numLogprobs)
    ensures r[0] == rank && forall i :: 1 <= i < |r| ==> r[i] == i
  {
    var n := if numLogprobs == -1 then given else if numLogprobs < 0 then 0 else numLogprobs;
    [rank] + seq(n, i requires 0 <= i => i + 1)
  }

  // ------------------------------------------------------------------ the container

  class FlatContainer {
    var startIndices: seq<int>
    var endIndices: seq<int>
    var tokenIds: seq<int>
    var logprobs: seq<real>
    var ranks: seq<Option<int>>
    var decodedTokens: seq<Option<string>>

    ghost function Value(): Flat
      reads this
    {
      Flat(startIndices, endIndices, tokenIds, logprobs, ranks, decodedTokens)
    }

    ghost predicate Valid()
      reads this
    {
      Value().Ok()
    }

    ghost function View(): seq<map<int, Logprob>>
      requires Valid()
      reads this
    {
      Value().View()
    }

    constructor ()
      ensures Valid() && View() == []
    {
      startIndices, endIndices, tokenIds, logprobs, ranks, decodedTokens := [], [], [], [], [], [];
    }

    constructor FromLists(f: Flat)
      ensures Value() == f
    {
      startIndices, endIndices := f.starts, f.ends;
      tokenIds, logprobs, ranks, decodedTokens := f.tokenIds, f.logprobs, f.ranks, f.decodedTokens;
    }

    /** Appends one row to the flat lists. */
    method AppendRow(e: Entry)
      modifies this`tokenIds, this`logprobs, this`ranks, this`decodedTokens
      ensures tokenIds == old(tokenIds) + [e.tokenId] && logprobs == old(logprobs) + [e.logprob.logprob]
      ensures ranks == old(ranks) + [e.logprob.rank] && decodedTokens == old(decodedTokens) + [e.logprob.decodedToken]
    {
      tokenIds := tokenIds + [e.tokenId];
      logprobs := logprobs + [e.logprob.logprob];
      ranks := ranks + [e.logprob.rank];
      decodedTokens := decodedTokens + [e.logprob.decodedToken];
    }

    /** append: one more position, empty for None. */
    method Append(position: Option<seq<Entry>>)
      requires Valid()
      modifies this
      ensures Valid() && View() == old(View()) + [if position.Some? then DictOf(position.value) else map[]]
    {
      ghost var before := Value();
      ghost var items := if position.Some? then position.value else [];
      startIndices := startIndices + [|logprobs|];
      if position.Some? {
        for i := 0 to |position.value|
          invariant startIndices == before.starts + [|before.tokenIds|] && endIndices == before.ends
          invariant Appended(before, Value(), items[..i])
        {
          assert items[..i + 1] == items[..i] + [items[i]];
          AppendRow(position.value[i]);
        }
        assert items[..|items|] == items;
      }
      endIndices := endIndices + [|logprobs|];
      OneMorePosition(before, Value(), items);
    }

    /** append_fast: one more position, without the dictionary in between. */
    method AppendFast(ids: seq<int>, lps: seq<real>, rks: seq<int>, decoded: seq<Option<string>>)
      requires Valid()
      modifies this
      ensures Valid() && View() == old(View()) + [DictOf(Zip(ids, lps, rks, decoded))]
    {
      ghost var before := Value();
      ghost var items := Zip(ids, lps, rks, decoded);
      ZipItems(ids, lps, rks, decoded);
      startIndices := startIndices + [|logprobs|];
      var i := 0;
      while i < |ids| && i < |lps| && i < |rks| && i < |decoded|
        invariant i <= |items|
        invariant startIndices == before.starts + [|before.tokenIds|] && endIndices == before.ends
        invariant Appended(before, Value(), items[..i])
      {
        assert items[..i + 1] == items[..i] + [items[i]];
        AppendRow(Entry(ids[i], Logprob(lps[i], Some(rks[i]), decoded[i])));
        i := i + 1;
      }
      assert items[..i] == items;
      endIndices := endIndices + [|logprobs|];
      OneMorePosition(before, Value(), items);
    }

    /** extend: the positions of a list, in order. */
    method Extend(positions: seq<Option<seq<Entry>>>)
      requires Valid()
      modifies this
      ensures Valid() && View() == old(View()) + Dicts(positions)
    {
      for i := 0 to |positions|
        invariant Valid() && View() == old(View()) + Dicts(positions[..i])
      {
        Append(positions[i]);
        assert positions[..i + 1] == positions[..i] + [positions[i]];
        assert Dicts(positions[..i + 1]) == Dicts(positions[..i]) + Dicts([positions[i]]);
      }
      assert positions[..|positions|] == positions;
    }

    /** extend with another container, which is read position by position. */
    method ExtendFlat(other: FlatContainer)
      requires Valid() && other.Valid() && other != this
      modifies this
      ensures Valid() && View() == old(View()) + other.View()
    {
      var n := |other.startIndices|;
      for i := 0 to n
        invariant Valid() && View() == old(View()) + other.View()[..i]
      {
        ItemAtIsView(other.Value(), i);
        var items := other.GetItem(i);
        Append(items);
      }
    }

    /** The items at an index, None for an IndexError. */
    method GetItem(index: int) returns (r: Option<seq<Entry>>)
      ensures r == ItemAt(Value(), index)
    {
      var lo, hi := PyIndex(startIndices, index), PyIndex(endIndices, index);
      if lo == None || hi == None {
        return None;
      }
      var items: seq<Entry> := [];
      var i := lo.value;
      while i < hi.value
        invariant lo.value <= i && (i <= hi.value || i == lo.value)
        invariant ReadRange(Value(), lo.value, i) == Some(items)
      {
        var t, l, rk, d := PyIndex(tokenIds, i), PyIndex(logprobs, i), PyIndex(ranks, i), PyIndex(decodedTokens, i);
        if t == None || l == None || rk == None || d == None {
          ReadRangeStops(Value(), lo.value, i + 1, hi.value);
          return None;
        }
        items := items + [Entry(t.value, Logprob(l.value, rk.value, d.value))];
        i := i + 1;
      }
      return Some(items);
    }

    /** A slice; None where it selects nothing (IndexError) or its step is 0 (ValueError). */
    method GetSlice(s: Slice) returns (r: Option<FlatContainer>)
      requires Valid()
      ensures r.Some? <==> s.Step() != 0 && s.Selected(|startIndices|) != []
      ensures r.Some? ==>
        var sel := s.Selected(|startIndices|);
        && fresh(r.value)
        && (forall k :: 0 <= k < |sel| ==> 0 <= sel[k] < |startIndices|)
        && r.value.Value() == SliceOf(Value(), sel)
        && (s.Step() > 0 ==>
              && r.value.Valid() && |r.value.View()| == |sel|
              && forall k :: 0 <= k < |sel| ==> r.value.View()[k] == View()[sel[k]])
    {
      if s.Step() == 0 {
        return None;
      }
      var sel := s.Selected(|startIndices|);
      if sel == [] {
        return None;
      }
      SelectedInside(s, |startIndices|);
      var starts, ends := Pick(startIndices, sel), Pick(endIndices, sel);
      var lo, hi := starts[0], ends[|sel| - 1];
      var c := new FlatContainer.FromLists(
        Flat(Shift(starts, lo), Shift(ends, lo), PyCut(tokenIds, lo, hi), PyCut(logprobs, lo, hi),
             PyCut(ranks, lo, hi), PyCut(decodedTokens, lo, hi)));
      if s.Step() > 0 {
        ForwardSlice(Value(), sel);
      }
      return Some(c);
    }
  }

  /** The dictionaries of a list of positions; None shows as the empty one. */
  ghost function Dicts(positions: seq<Option<seq<Entry>>>): (v: seq<map<int, Logprob>>)
    ensures |v| == |positions|
  {
    seq(|positions|, i requires 0 <= i < |positions| =>
      if positions[i].Some? then DictOf(positions[i].value) else map[])
  }

  lemma {:induction false} ReadRangeStops(f: Flat, lo: int, mid: int, hi: int)
    requires lo <= mid <= hi && ReadRange(f, lo, mid) == None
    ensures ReadRange(f, lo, hi) == None
    decreases hi - mid
  {
    if mid < hi {
      ReadRangeStops(f, lo, mid, hi - 1);
    }
  }

  // ------------------------------------------------------ agreement with plain lists

  /** The arguments of one append_logprobs_for_next_position call. */
  datatype Call = Call(
    tokenIds: seq<int>,
    logprobs: seq<real>,
    decodedTokens: seq<Option<string>>,
    rank: int,
    numLogprobs: int)

  /** What a call stands for: the dictionary of its items. */
  function CallDict(c: Call): map<int, Logprob> {
    DictOf(Zip(c.tokenIds, c.logprobs, Ranks(c.rank, c.numLogprobs, |c.logprobs|), c.decodedTokens))
  }

  /** The plain list, after create_prompt_logprobs or create_sample_logprobs and the
      given calls. */
  function ListAfter(prompt: bool, calls: seq<Call>): seq<Option<map<int, Logprob>>> {
    if calls == [] then (if prompt then [None] else [])
    else ListAfter(prompt, calls[..|calls| - 1]) + [Some(CallDict(calls[|calls| - 1]))]
  }

  /** The flat container after the same run. */
  method FlatAfter(prompt: bool, calls: seq<Call>) returns (flat: FlatContainer)
    ensures flat.Valid() && fresh(flat)
    ensures |flat.View()| == |ListAfter(prompt, calls)|
    ensures forall i :: 0 <= i < |flat.View()| ==>
      flat.View()[i] == match ListAfter(prompt, calls)[i] case Some(d) => d case None => map[]
  {
    flat := new FlatContainer();
    if prompt {
      flat.Append(None);
    }
    for k := 0 to |calls|
      invariant flat.Valid() && fresh(flat)
      invariant |flat.View()| == |ListAfter(prompt, calls[..k])|
      invariant forall i :: 0 <= i < |flat.View()| ==>
        flat.View()[i] == match ListAfter(prompt, calls[..k])[i] case Some(d) => d case None => map[]
    {
      var c := calls[k];
      assert calls[..k + 1][..k] == calls[..k];
      flat.AppendFast(c.tokenIds, c.logprobs, Ranks(c.rank, c.numLogprobs, |c.logprobs|), c.decodedTokens);
    }
    assert calls[..|calls|] == calls;
  }


  // ---------------------------------------------------------- reading and slicing

  /** Indexing that counts negative indices from the end; None for an IndexError. */
  function PyIndex<T>(xs: seq<T>, i: int): Option<T> {
    if 0 <= i < |xs| then Some(xs[i])
    else if -|xs| <= i < 0 then Some(xs[i + |xs|])
    else None
  }

  function Clamp(i: int, n: nat): (r: nat)
    ensures r <= n
  {
    var j := if i < 0 then i + n else i;
    if j < 0 then 0 else if j > n then n else j
  }

  /** xs[a:b]. */
  function PyCut<T>(xs: seq<T>, a: int, b: int): seq<T> {
    var lo, hi := Clamp(a, |xs|), Clamp(b, |xs|);
    if lo < hi then xs[lo..hi] else []
  }

  /** The items at the given range of list indices. */
  function ReadRange(f: Flat, lo: int, hi: int): Option<seq<Entry>>
    decreases if lo < hi then hi - lo else 0
  {
    if hi <= lo then Some([])
    else
      match (ReadRange(f, lo, hi - 1), PyIndex(f.tokenIds, hi - 1), PyIndex(f.logprobs, hi - 1),
             PyIndex(f.ranks, hi - 1), PyIndex(f.decodedTokens, hi - 1))
      case (Some(items), Some(t), Some(l), Some(r), Some(d)) => Some(items + [Entry(t, Logprob(l, r, d))])
      case _ => None
  }

  /** The items of the position at an index, None for an IndexError. */
  function ItemAt(f: Flat, index: int): Option<seq<Entry>> {
    match (PyIndex(f.starts, index), PyIndex(f.ends, index))
    case (Some(lo), Some(hi)) => ReadRange(f, lo, hi)
    case _ => None
  }

  lemma {:induction false} ReadRangeIsRows(f: Flat, lo: nat, hi: nat)
    requires f.SameLengths() && lo <= hi <= |f.tokenIds|
    ensures ReadRange(f, lo, hi) == Some(f.Rows(lo, hi))
    decreases hi - lo
  {
    if lo < hi {
      ReadRangeIsRows(f, lo, hi - 1);
      assert f.Rows(lo, hi) == f.Rows(lo, hi - 1) + [f.Row(hi - 1)];
    } else {
      assert f.Rows(lo, hi) == [];
    }
  }

  /** Reading a well-formed container gives its view, counting from either end. */
  lemma ItemAtIsView(f: Flat, index: int)
    requires f.Ok()
    ensures ItemAt(f, index).Some? <==> -|f.starts| <= index < |f.starts|
    ensures -|f.starts| <= index < |f.starts| ==>
      DictOf(ItemAt(f, index).value) == f.View()[if index < 0 then index + |f.starts| else index]
  {
    hide DictOf, ReadRange, Flat.View;
    if -|f.starts| <= index < |f.starts| {
      var i := if index < 0 then index + |f.starts| else index;
      ReadRangeIsRows(f, f.starts[i], f.ends[i]);
      ViewAt(f, i);
    }
  }

  datatype Slice = Slice(start: Option<int>, stop: Option<int>, step: Option<int>) {
    function Step(): int {
      if step.Some? then step.value else 1
    }

    /** The first index of the slice of a list of n elements. */
    function First(n: nat): int {
      var lowest, highest := if Step() < 0 then -1 else 0, if Step() < 0 then n - 1 else n;
      match start
      case None => if Step() < 0 then highest else lowest
      case Some(i) => Bound(i, n, lowest, highest)
    }

    /** The index before which it ends. */
    function End(n: nat): int {
      var lowest, highest := if Step() < 0 then -1 else 0, if Step() < 0 then n - 1 else n;
      match stop
      case None => if Step() < 0 then lowest else highest
      case Some(i) => Bound(i, n, lowest, highest)
    }

    static function Bound(i: int, n: nat, lowest: int, highest: int): int {
      var j := if i < 0 then i + n else i;
      if j < lowest then lowest else if j > highest then highest else j
    }

    /** The indices a slice selects. */
    function Selected(n: nat): seq<int>
      requires Step() != 0
    {
      Range(First(n), End(n), Step())
    }
  }

  function Range(lo: int, hi: int, step: int): seq<int>
    requires step != 0
    decreases if step > 0 then (if lo < hi then hi - lo else 0) else (if lo > hi then lo - hi else 0)
  {
    if (step > 0 && lo < hi) || (step < 0 && lo > hi) then [lo] + Range(lo + step, hi, step) else []
  }

  lemma RangeTail(lo: int, hi: int, step: int)
    requires (step > 0 && lo < hi) || (step < 0 && lo > hi)
    ensures var r, rest := Range(lo, hi, step), Range(lo + step, hi, step);
            |r| == 1 + |rest| && r[0] == lo && forall k :: 1 <= k < |r| ==> r[k] == rest[k - 1]
  {
  }

  lemma {:induction false} RangeUp(lo: int, hi: int, step: int)
    requires step > 0
    ensures var r := Range(lo, hi, step);
            && (forall k :: 0 <= k < |r| ==> lo <= r[k] < hi)
            && (forall i, j :: 0 <= i < j < |r| ==> r[i] < r[j])
    decreases if lo < hi then hi - lo else 0
  {
    if lo < hi {
      RangeUp(lo + step, hi, step);
      RangeTail(lo, hi, step);
    }
  }

  lemma {:induction false} RangeDown(lo: int, hi: int, step: int)
    requires step < 0
    ensures var r := Range(lo, hi, step);
            && (forall k :: 0 <= k < |r| ==> hi < r[k] <= lo)
            && (forall i, j :: 0 <= i < j < |r| ==> r[j] < r[i])
    decreases if lo > hi then lo - hi else 0
  {
    if lo > hi {
      RangeDown(lo + step, hi, step);
      RangeTail(lo, hi, step);
    }
  }

  lemma SelectedInside(s: Slice, n: nat)
    requires s.Step() != 0
    ensures var sel := s.Selected(n);
            && (forall k :: 0 <= k < |sel| ==> 0 <= sel[k] < n)
            && (forall i, j :: 0 <= i < j < |sel| ==> if s.Step() > 0 then sel[i] < sel[j] else sel[j] < sel[i])
  {
    var sel := s.Selected(n);
    assert sel == Range(s.First(n), s.End(n), s.Step());
    assert 0 <= s.First(n) <= n || s.Step() < 0;
    assert 0 <= s.End(n) <= n || s.Step() < 0;
    assert -1 <= s.First(n) < n || s.Step() > 0;
    assert -1 <= s.End(n) < n || s.Step() > 0;
    if s.Step() > 0 {
      RangeUp(s.First(n), s.End(n), s.Step());
      assert sel != [] ==> 0 <= s.First(n) && s.End(n) <= n;
    } else {
      RangeDown(s.First(n), s.End(n), s.Step());
      assert sel != [] ==> s.First(n) < n && -1 <= s.End(n);
    }
  }

  lemma ModShift(x: int, d: nat)
    requires d > 0
    ensures (x - d) % d == x % d
  {
    Less(x / d, d);
    Bits.ModuloUnique(x - d, d, x / d - 1, x % d);
  }

  lemma Less(q: int, d: int)
    ensures (q - 1) * d == q * d - d
  {
  }

  lemma SmallRemainder(x: int, d: nat)
    requires 0 <= x < d
    ensures x % d == x
  {
  }

  lemma RangeHasFirst(lo: int, hi: int, step: int, i: int)
    requires (step > 0 && lo < hi) || (step < 0 && lo > hi)
    ensures i in Range(lo, hi, step) <==> i == lo || i in Range(lo + step, hi, step)
  {
  }

  lemma {:induction false} RangeUpHas(lo: int, hi: int, step: int, i: int)
    requires step > 0
    ensures i in Range(lo, hi, step) <==> lo <= i < hi && (i - lo) % step == 0
    decreases if lo < hi then hi - lo else 0
  {
    if lo < hi {
      RangeHasFirst(lo, hi, step, i);
      RangeUpHas(lo + step, hi, step, i);
      hide Range;
      if i < lo + step {
        if i >= lo {
          SmallRemainder(i - lo, step);
        }
      } else {
        ModShift(i - lo, step);
      }
    }
  }

  lemma {:induction false} RangeDownHas(lo: int, hi: int, step: int, i: int)
    requires step < 0
    ensures i in Range(lo, hi, step) <==> hi < i <= lo && (lo - i) % -step == 0
    decreases if lo > hi then lo - hi else 0
  {
    if lo > hi {
      RangeHasFirst(lo, hi, step, i);
      RangeDownHas(lo + step, hi, step, i);
      hide Range;
      if i > lo + step {
        if i <= lo {
          SmallRemainder(lo - i, -step);
        }
      } else {
        ModShift(lo - i, -step);
      }
    }
  }

  /** What a forward slice with bounds from the front selects: the positions from the
      start, before the stop, a whole number of steps after the start. */
  lemma SelectedForward(s: Slice, n: nat, i: int)
    requires (s.step == None || s.step.value > 0)
    requires (s.start == None || s.start.value >= 0) && (s.stop == None || s.stop.value >= 0)
    ensures
      var a, step := if s.start == None then 0 else s.start.value, if s.step == None then 1 else s.step.value;
      i in s.Selected(n) <==> a <= i < n && (s.stop == None || i < s.stop.value) && (i - a) % step == 0
  {
    RangeUpHas(s.First(n), s.End(n), s.Step(), i);
  }

  /** What a backward slice with bounds from the front selects: the positions down from
      the start or the last one, behind the stop, a whole number of steps before it. */
  lemma SelectedBackward(s: Slice, n: nat, i: int)
    requires s.step.Some? && s.step.value < 0
    requires (s.start == None || s.start.value >= 0) && (s.stop == None || s.stop.value >= 0)
    ensures
      var a := if s.start == None || s.start.value >= n then n - 1 else s.start.value;
      i in s.Selected(n) <==> 0 <= i <= a && (s.stop == None || s.stop.value < i) && (a - i) % -s.step.value == 0
  {
    RangeDownHas(s.First(n), s.End(n), s.Step(), i);
  }

  /** A negative bound counts from the end. One that reaches beyond the front is 0 for a
      forward slice; for a backward one it selects nothing as the start, and is no bound
      at all as the stop. */
  lemma NegativeBounds(s: Slice, n: nat, b: int)
    requires s.Step() != 0 && b < 0
    ensures n + b >= 0 || s.Step() > 0 ==>
      var fromFront := Some(if n + b >= 0 then n + b else 0);
      && s.(start := Some(b)).Selected(n) == s.(start := fromFront).Selected(n)
      && s.(stop := Some(b)).Selected(n) == s.(stop := fromFront).Selected(n)
    ensures n + b < 0 && s.Step() < 0 ==>
      && s.(start := Some(b)).Selected(n) == []
      && s.(stop := Some(b)).Selected(n) == s.(stop := None).Selected(n)
  {
    var t := s.(start := Some(b));
    assert n + b < 0 && s.Step() < 0 ==> t.First(n) == -1 <= t.End(n);
  }

  lemma {:induction false} RangeOfOnes(lo: int, hi: int)
    requires lo <= hi
    ensures var r := Range(lo, hi, 1); |r| == hi - lo && forall j :: 0 <= j < |r| ==> r[j] == lo + j
    decreases hi - lo
  {
    if lo < hi {
      RangeOfOnes(lo + 1, hi);
      RangeTail(lo, hi, 1);
    }
  }

  /** The slice [-k:] selects the last k positions in order, all of them if there are
      fewer, and all of them for k == 0. */
  lemma LastPositions(n: nat, k: int)
    requires k >= 0
    ensures
      var sel := Slice(Some(-k), None, None).Selected(n);
      && |sel| == (if 0 < k < n then k else n)
      && forall j :: 0 <= j < |sel| ==> sel[j] == n - |sel| + j
  {
    RangeOfOnes(if 0 < k < n then n - k else 0, n);
  }

  function Pick(xs: seq<int>, sel: seq<int>): (r: seq<int>)
    requires forall k :: 0 <= k < |sel| ==> 0 <= sel[k] < |xs|
    ensures |r| == |sel| && forall k :: 0 <= k < |sel| ==> r[k] == xs[sel[k]]
  {
    seq(|sel|, k requires 0 <= k < |sel| => xs[sel[k]])
  }

  function Shift(xs: seq<int>, offset: int): (r: seq<int>)
    ensures |r| == |xs| && forall k :: 0 <= k < |xs| ==> r[k] == xs[k] - offset
  {
    seq(|xs|, k requires 0 <= k < |xs| => xs[k] - offset)
  }

  /** The container for a selection of positions: the lists are cut from the start of
      the first to the end of the last one selected. */
  function SliceOf(f: Flat, sel: seq<int>): Flat
    requires sel != [] && |f.starts| == |f.ends| && forall k :: 0 <= k < |sel| ==> 0 <= sel[k] < |f.starts|
  {
    var starts, ends := Pick(f.starts, sel), Pick(f.ends, sel);
    var lo, hi := starts[0], ends[|sel| - 1];
    Flat(Shift(starts, lo), Shift(ends, lo), PyCut(f.tokenIds, lo, hi), PyCut(f.logprobs, lo, hi),
         PyCut(f.ranks, lo, hi), PyCut(f.decodedTokens, lo, hi))
  }

  ghost predicate Ascends(sel: seq<int>) {
    forall i, j :: 0 <= i < j < |sel| ==> sel[i] < sel[j]
  }

  lemma CutRows(f: Flat, lo: nat, hi: nat, g: Flat, a: nat, b: nat)
    requires f.SameLengths() && lo <= a <= b <= hi <= |f.tokenIds|
    requires g.tokenIds == f.tokenIds[lo..hi] && g.logprobs == f.logprobs[lo..hi]
    requires g.ranks == f.ranks[lo..hi] && g.decodedTokens == f.decodedTokens[lo..hi] && |g.starts| == |g.ends|
    ensures g.Rows(a - lo, b - lo) == f.Rows(a, b)
  {
    forall k | 0 <= k < b - a ensures g.Rows(a - lo, b - lo)[k] == f.Rows(a, b)[k] {
      assert g.Row(a - lo + k) == f.Row(a + k);
    }
  }

  lemma SelectionBounds(f: Flat, sel: seq<int>, k: nat)
    requires f.Ok() && Ascends(sel) && k < |sel| && forall k :: 0 <= k < |sel| ==> 0 <= sel[k] < |f.starts|
    ensures 0 <= f.starts[sel[0]] <= f.starts[sel[k]] <= f.ends[sel[k]] <= f.ends[sel[|sel| - 1]] <= |f.tokenIds|
  {
    if k > 0 {
      assert f.ends[sel[0]] <= f.starts[sel[k]];
    }
    if k < |sel| - 1 {
      assert f.ends[sel[k]] <= f.starts[sel[|sel| - 1]];
    }
  }

  lemma CutIsSlice<T>(xs: seq<T>, lo: nat, hi: nat)
    requires lo <= hi <= |xs|
    ensures PyCut(xs, lo, hi) == xs[lo..hi]
  {
  }

  lemma ForwardCut(f: Flat, sel: seq<int>)
    requires f.Ok() && sel != [] && Ascends(sel) && forall k :: 0 <= k < |sel| ==> 0 <= sel[k] < |f.starts|
    ensures var g, lo, hi := SliceOf(f, sel), f.starts[sel[0]], f.ends[sel[|sel| - 1]];
            && 0 <= lo <= hi <= |f.tokenIds|
            && g.tokenIds == f.tokenIds[lo..hi] && g.logprobs == f.logprobs[lo..hi]
            && g.ranks == f.ranks[lo..hi] && g.decodedTokens == f.decodedTokens[lo..hi]
  {
    var lo, hi := f.starts[sel[0]], f.ends[sel[|sel| - 1]];
    SelectionBounds(f, sel, 0);
    CutIsSlice(f.tokenIds, lo, hi);
    CutIsSlice(f.logprobs, lo, hi);
    CutIsSlice(f.ranks, lo, hi);
    CutIsSlice(f.decodedTokens, lo, hi);
  }

  lemma ForwardOk(f: Flat, sel: seq<int>)
    requires f.Ok() && sel != [] && Ascends(sel) && forall k :: 0 <= k < |sel| ==> 0 <= sel[k] < |f.starts|
    ensures SliceOf(f, sel).Ok()
  {
    var g := SliceOf(f, sel);
    ForwardCut(f, sel);
    forall k | 0 <= k < |sel| ensures 0 <= g.starts[k] <= g.ends[k] <= |g.tokenIds| {
      SelectionBounds(f, sel, k);
    }
  }

  lemma ViewAt(f: Flat, i: nat)
    requires f.Ok() && i < |f.starts|
    ensures f.View()[i] == DictOf(f.Rows(f.starts[i], f.ends[i]))
  {
  }

  lemma ForwardAt(f: Flat, sel: seq<int>, g: Flat, k: nat)
    requires f.Ok() && sel != [] && Ascends(sel) && forall k :: 0 <= k < |sel| ==> 0 <= sel[k] < |f.starts|
    requires g == SliceOf(f, sel) && g.Ok() && k < |sel|
    ensures g.View()[k] == f.View()[sel[k]]
  {
    hide Flat.View, DictOf;
    var lo, hi := f.starts[sel[0]], f.ends[sel[|sel| - 1]];
    var a, b := f.starts[sel[k]], f.ends[sel[k]];
    ViewAt(g, k);
    ViewAt(f, sel[k]);
    assert g.starts[k] == a - lo && g.ends[k] == b - lo;
    assert g.Rows(a - lo, b - lo) == f.Rows(a, b) by {
      ForwardCut(f, sel);
      SelectionBounds(f, sel, k);
      CutRows(f, lo, hi, g, a, b);
    }
  }

  /** A slice that goes forward keeps the offsets right and shows exactly the positions
      selected. */
  lemma ForwardSlice(f: Flat, sel: seq<int>)
    requires f.Ok() && sel != [] && Ascends(sel) && forall k :: 0 <= k < |sel| ==> 0 <= sel[k] < |f.starts|
    ensures var g := SliceOf(f, sel);
            g.Ok() && |g.View()| == |sel| && forall k :: 0 <= k < |sel| ==> g.View()[k] == f.View()[sel[k]]
  {
    var g := SliceOf(f, sel);
    ForwardOk(f, sel);
    assert |g.starts| == |sel|;
    hide Flat.Ok;
    forall k | 0 <= k < |sel| ensures g.View()[k] == f.View()[sel[k]] {
      ForwardAt(f, sel, g, k);
    }
  }

  /** Position k of a container reads back as the dictionary d. */
  ghost predicate ReadsAs(g: Flat, k: int, d: map<int, Logprob>) {
    ItemAt(g, k).Some? && DictOf(ItemAt(g, k).value) == d
  }

  lemma ReadRangeOfNothing(f: Flat, lo: int, hi: int)
    requires f.tokenIds == []
    ensures ReadRange(f, lo, hi).Some? <==> hi <= lo
    decreases if lo < hi then hi - lo else 0
  {
  }

  /** A slice that goes backward over several positions has cut its lists empty: it
      reads back only positions without entries. */
  lemma BackwardSlice(f: Flat, sel: seq<int>, k: nat)
    requires f.Ok() && |sel| >= 2 && k < |sel| && forall k :: 0 <= k < |sel| ==> 0 <= sel[k] < |f.starts|
    requires forall i, j :: 0 <= i < j < |sel| ==> sel[j] < sel[i]
    ensures ReadsAs(SliceOf(f, sel), k, f.View()[sel[k]]) <==> f.starts[sel[k]] == f.ends[sel[k]]
  {
    var g := SliceOf(f, sel);
    assert f.ends[sel[|sel| - 1]] <= f.starts[sel[0]];
    assert g.tokenIds == [];
    ReadRangeOfNothing(g, g.starts[k], g.ends[k]);
    if f.starts[sel[k]] == f.ends[sel[k]] {
      assert f.Rows(f.starts[sel[k]], f.ends[sel[k]]) == [];
    }
  }

  /** Slicing reads back the selected positions exactly when it goes forward, selects a
      single position, or selects positions without entries only. */
  lemma SliceReadsBackExactly(f: Flat, s: Slice)
    requires f.Ok() && s.Step() != 0 && s.Selected(|f.starts|) != []
    ensures
      var sel := s.Selected(|f.starts|);
      && (forall k :: 0 <= k < |sel| ==> 0 <= sel[k] < |f.starts|)
      && ((forall k :: 0 <= k < |sel| ==> ReadsAs(SliceOf(f, sel), k, f.View()[sel[k]])) <==>
          s.Step() > 0 || |sel| == 1 || forall k :: 0 <= k < |sel| ==> f.starts[sel[k]] == f.ends[sel[k]])
  {
    var sel := s.Selected(|f.starts|);
    SelectedInside(s, |f.starts|);
    var g := SliceOf(f, sel);
    if s.Step() > 0 || |sel| == 1 {
      ForwardSlice(f, sel);
      forall k | 0 <= k < |sel| ensures ReadsAs(g, k, f.View()[sel[k]]) {
        ItemAtIsView(g, k);
      }
    } else {
      forall k | 0 <= k < |sel|
        ensures ReadsAs(g, k, f.View()[sel[k]]) <==> f.starts[sel[k]] == f.ends[sel[k]]
      {
        BackwardSlice(f, sel, k);
      }
    }
  }


  /** after has the given rows appended to those of before. */
  ghost predicate Appended(before: Flat, after: Flat, items: seq<Entry>) {
    && |before.tokenIds| == |before.logprobs| == |before.ranks| == |before.decodedTokens|
    && |after.tokenIds| == |after.logprobs| == |after.ranks| == |after.decodedTokens| == |before.tokenIds| + |items|
    && (forall i :: 0 <= i < |before.tokenIds| ==>
          && after.tokenIds[i] == before.tokenIds[i] && after.logprobs[i] == before.logprobs[i]
          && after.ranks[i] == before.ranks[i] && after.decodedTokens[i] == before.decodedTokens[i])
    && (forall k :: 0 <= k < |items| ==>
          var i := |before.tokenIds| + k;
          Entry(after.tokenIds[i], Logprob(after.logprobs[i], after.ranks[i], after.decodedTokens[i])) == items[k])
  }

  lemma OneMoreOk(before: Flat, after: Flat, items: seq<Entry>)
    requires before.Ok() && Appended(before, after, items)
    requires after.starts == before.starts + [|before.tokenIds|]
    requires after.ends == before.ends + [|before.tokenIds| + |items|]
    ensures after.Ok()
  {
  }

  lemma SameRows(before: Flat, after: Flat, items: seq<Entry>, lo: nat, hi: nat)
    requires before.SameLengths() && after.SameLengths() && Appended(before, after, items) && lo <= hi <= |before.tokenIds|
    ensures after.Rows(lo, hi) == before.Rows(lo, hi)
  {
    forall k | 0 <= k < hi - lo ensures after.Rows(lo, hi)[k] == before.Rows(lo, hi)[k] {
      assert after.Row(lo + k) == before.Row(lo + k);
    }
  }

  lemma NewRows(before: Flat, after: Flat, items: seq<Entry>)
    requires after.SameLengths() && Appended(before, after, items)
    ensures after.Rows(|before.tokenIds|, |before.tokenIds| + |items|) == items
  {
  }

  lemma OldPosition(before: Flat, after: Flat, items: seq<Entry>, i: nat)
    requires before.Ok() && after.Ok() && Appended(before, after, items) && i < |before.starts| < |after.starts|
    requires after.starts[i] == before.starts[i] && after.ends[i] == before.ends[i]
    ensures after.View()[i] == before.View()[i]
  {
    SameRows(before, after, items, before.starts[i], before.ends[i]);
  }

  lemma NewPosition(before: Flat, after: Flat, items: seq<Entry>, n: nat)
    requires after.Ok() && Appended(before, after, items) && n < |after.starts|
    requires after.starts[n] == |before.tokenIds| && after.ends[n] == |before.tokenIds| + |items|
    ensures after.View()[n] == DictOf(items)
  {
    NewRows(before, after, items);
  }

  lemma OneMorePosition(before: Flat, after: Flat, items: seq<Entry>)
    requires before.Ok() && Appended(before, after, items)
    requires after.starts == before.starts + [|before.tokenIds|]
    requires after.ends == before.ends + [|before.tokenIds| + |items|]
    ensures after.Ok() && after.View() == before.View() + [DictOf(items)]
  {
    OneMoreOk(before, after, items);
    var n, earlier, later := |before.starts|, before.View(), after.View();
    hide *;
    forall i | 0 <= i < n ensures later[i] == earlier[i] {
      OldPosition(before, after, items, i);
    }
    NewPosition(before, after, items, n);
    SeqSnoc(earlier, later, DictOf(items));
  }

  lemma SeqSnoc<T>(xs: seq<T>, ys: seq<T>, x: T)
    requires |ys| == |xs| + 1 && ys[|xs|] == x && forall i :: 0 <= i < |xs| ==> ys[i] == xs[i]
    ensures ys == xs + [x]
  {
  }
}
