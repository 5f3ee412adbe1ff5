/**
 Lists of layer indices written as ranges, such as "0-2, 4-6".
 */
module IndexRanges {
  import opened Sets
  import opened Wrappers
  import opened Texts

  datatype Range = Range(start: int, end: int)

  // ----------------------------------------------------------------------- sorting

  function Inserted(x: int, s: seq<int>): (r: seq<int>)
    ensures multiset(r) == multiset(s) + multiset{x}
  {
    if s == [] || x <= s[0] then [x] + s
    else
      assert s == [s[0]] + s[1..];
      [s[0]] + Inserted(x, s[1..])
  }

  function Sorted(s: seq<int>): (r: seq<int>)
    ensures multiset(r) == multiset(s)
  {
    if s == [] then []
    else
      assert s == s[..|s| - 1] + [s[|s| - 1]];
      Inserted(s[|s| - 1], Sorted(s[..|s| - 1]))
  }

  predicate IsSorted(s: seq<int>) {
    forall i, j :: 0 <= i < j < |s| ==> s[i] <= s[j]
  }

  lemma {:induction false} InsertedIsSorted(x: int, s: seq<int>)
    requires IsSorted(s)
    ensures IsSorted(Inserted(x, s))
  {
    if s != [] && x > s[0] {
      InsertedIsSorted(x, s[1..]);
      var rest := Inserted(x, s[1..]);
      forall k | 0 <= k < |rest| ensures s[0] <= rest[k] {
        assert rest[k] in multiset(rest);
      }
    }
  }

  lemma {:induction false} SortedIsSorted(s: seq<int>)
    ensures IsSorted(Sorted(s))
  {
    if s != [] {
      SortedIsSorted(s[..|s| - 1]);
      InsertedIsSorted(s[|s| - 1], Sorted(s[..|s| - 1]));
    }
  }

  // ------------------------------------------------------------------------ ranges

  function Members(r: Range): (s: seq<int>)
    decreases r.end - r.start
  {
    if r.start > r.end then [] else Members(Range(r.start, r.end - 1)) + [r.end]
  }

  function Expanded(ranges: seq<Range>): seq<int> {
    if ranges == [] then [] else Expanded(ranges[..|ranges| - 1]) + Members(ranges[|ranges| - 1])
  }

  function Written(r: Range): string {
    if r.start == r.end then Str(r.start) else Str(r.start) + "-" + Str(r.end)
  }

  function AllWritten(ranges: seq<Range>): seq<string> {
    seq(|ranges|, i requires 0 <= i < |ranges| => Written(ranges[i]))
  }

  /** ", ".join */
  function Joined(texts: seq<string>): string {
    if texts == [] then ""
    else if |texts| == 1 then texts[0]
    else texts[0] + ", " + Joined(texts[1..])
  }

  /** The ranges that the scan of a sorted list finds. */
  function Ranges(s: seq<int>): (r: seq<Range>)
    ensures s != [] ==> r != [] && r[|r| - 1].end == s[|s| - 1]
  {
    if s == [] then []
    else
      var before, x := Ranges(s[..|s| - 1]), s[|s| - 1];
      if before != [] && x == before[|before| - 1].end + 1
      then before[..|before| - 1] + [Range(before[|before| - 1].start, x)]
      else before + [Range(x, x)]
  }

  lemma RangesNext(s: seq<int>, done: seq<Range>, last: Range, x: int)
    requires s != [] && Ranges(s) == done + [last]
    ensures Ranges(s + [x]) == if x == last.end + 1 then done + [Range(last.start, x)] else done + [last] + [Range(x, x)]
  {
    assert (s + [x])[..|s|] == s;
    assert (done + [last])[..|done|] == done;
  }

  lemma WrittenNext(ranges: seq<Range>, r: Range)
    ensures AllWritten(ranges + [r]) == AllWritten(ranges) + [Written(r)]
  {
    assert (ranges + [r])[..|ranges|] == ranges;
  }

  lemma SortedLength(s: seq<int>)
    ensures |Sorted(s)| == |s|
  {
    assert |multiset(Sorted(s))| == |multiset(s)|;
  }

  /** None is an IndexError, on an empty list. */
  method FormatIndexRanges(indices: seq<int>) returns (r: Option<string>)
    ensures r == if indices == [] then None else Some(Joined(AllWritten(Ranges(Sorted(indices)))))
  {
    if indices == [] {
      return None;
    }
    SortedLength(indices);
    var text := FormatSorted(Sorted(indices));
    return Some(text);
  }

  /** The scan of the sorted list. */
  method FormatSorted(sorted: seq<int>) returns (text: string)
    requires sorted != []
    ensures text == Joined(AllWritten(Ranges(sorted)))
  {
    hide Ranges, Str, AllWritten, Joined;
    var ranges: seq<string> := [];
    var start, end := sorted[0], sorted[0];
    assert sorted[..1] == [sorted[0]];
    RangesOfOne(sorted[0]);
    ghost var done: seq<Range> := [];
    assert AllWritten([]) == [] by {
      NothingWritten();
    }
    for i := 1 to |sorted|
      invariant Ranges(sorted[..i]) == done + [Range(start, end)]
      invariant ranges == AllWritten(done)
    {
      var idx := sorted[i];
      RangesNext(sorted[..i], done, Range(start, end), idx);
      assert sorted[..i + 1] == sorted[..i] + [idx];
      if idx == end + 1 {
        end := idx;
      } else {
        WrittenNext(done, Range(start, end));
        ranges := ranges + [if start == end then Str(start) else Str(start) + "-" + Str(end)];
        done := done + [Range(start, end)];
        start, end := idx, idx;
      }
    }
    assert sorted[..|sorted|] == sorted;
    WrittenNext(done, Range(start, end));
    ranges := ranges + [if start == end then Str(start) else Str(start) + "-" + Str(end)];
    return Joined(ranges);
  }

  // ---------------------------------------------------------- printing and reading

  lemma ExpandedNext(ranges: seq<Range>, r: Range)
    ensures Expanded(ranges + [r]) == Expanded(ranges) + Members(r)
  {
    assert (ranges + [r])[..|ranges|] == ranges;
  }

  lemma MembersNext(r: Range)
    requires r.start <= r.end + 1
    ensures Members(Range(r.start, r.end + 1)) == Members(r) + [r.end + 1]
  {
  }

  ghost predicate Proper(ranges: seq<Range>) {
    forall i :: 0 <= i < |ranges| ==> ranges[i].start <= ranges[i].end
  }

  lemma RangesOfOne(x: int)
    ensures Ranges([x]) == [Range(x, x)]
    ensures Expanded([Range(x, x)]) == [x]
  {
    assert [x][..0] == [] && Ranges([]) == [];
    ExpandedNext([], Range(x, x));
    MembersOfOne(x);
    assert [] + [Range(x, x)] == [Range(x, x)] && Expanded([]) == [];
  }

  lemma {:induction false} RangesAreProper(s: seq<int>)
    ensures Proper(Ranges(s))
  {
    if s != [] {
      RangesAreProper(s[..|s| - 1]);
    }
  }

  /** Nothing is lost by going over to ranges. */
  lemma {:induction false} RangesExpandBack(s: seq<int>)
    ensures Expanded(Ranges(s)) == s
  {
    if |s| == 1 {
      RangesOfOne(s[0]);
      assert s == [s[0]];
    } else if |s| > 1 {
      var front, x := s[..|s| - 1], s[|s| - 1];
      assert s == front + [x];
      RangesExpandBack(front);
      assert Ranges(front) != [];
      hide Ranges, Expanded, Members;
      var done, last := Ranges(front)[..|Ranges(front)| - 1], Ranges(front)[|Ranges(front)| - 1];
      assert Ranges(front) == done + [last];
      RangesNext(front, done, last, x);
      RangesAreProper(front);
      ExpandNext(done, last, x);
    }
  }

  lemma ExpandNext(done: seq<Range>, last: Range, x: int)
    requires x == last.end + 1 ==> last.start <= x
    ensures x == last.end + 1 ==> Expanded(done + [Range(last.start, x)]) == Expanded(done + [last]) + [x]
    ensures Expanded(done + [last] + [Range(x, x)]) == Expanded(done + [last]) + [x]
  {
    ExpandedNext(done, last);
    ExpandedNext(done, Range(last.start, x));
    ExpandedNext(done + [last], Range(x, x));
    MembersOfOne(x);
    if x == last.end + 1 {
      MembersNext(last);
    }
    hide *;
    assert Expanded(done) + (Members(last) + [x]) == (Expanded(done) + Members(last)) + [x];
  }

  lemma MembersOfOne(x: int)
    ensures Members(Range(x, x)) == [x]
  {
    assert Members(Range(x, x - 1)) == [];
  }

  /** One range read from its text; None where the text is not a range. */
  function ReadRange(text: string): Option<seq<int>> {
    var ends := Split(text, '-');
    if |ends| > 2 then None
    else
      var first, last := Int(ends[0]), Int(ends[|ends| - 1]);
      if first.None? || last.None? then None else Some(Members(Range(first.value, last.value)))
  }

  function ReadAll(texts: seq<string>): Option<seq<int>> {
    if texts == [] then Some([])
    else
      var before, last := ReadAll(texts[..|texts| - 1]), ReadRange(texts[|texts| - 1]);
      if before.None? || last.None? then None else Some(before.value + last.value)
  }

  /** The list that a text of ranges stands for. */
  function ReadIndexRanges(text: string): Option<seq<int>> {
    ReadAll(Split(text, ','))
  }

  lemma ReadWritten(r: Range)
    requires 0 <= r.start <= r.end
    ensures ReadRange(Written(r)) == Some(Members(r))
  {
    hide Str, ReadRange, Members, Int;
    IntAfterLead(r.start, "");
    IntAfterLead(r.end, "");
    assert "" + Str(r.start) == Str(r.start) && "" + Str(r.end) == Str(r.end);
    if r.start == r.end {
      ReadSingle(Str(r.start), r.start);
    } else {
      ReadPair(Str(r.start), Str(r.end), r);
    }
  }

  /** A range is printed with a dash exactly when it has more than one member. */
  lemma DashOnlyInPairs(r: Range)
    requires 0 <= r.start <= r.end
    ensures '-' in Written(r) <==> r.start != r.end
  {
    hide Str;
    IntAfterLead(r.start, "");
    assert "" + Str(r.start) == Str(r.start);
  }

  lemma ReadSpacedWritten(r: Range)
    requires 0 <= r.start <= r.end
    ensures ReadRange(" " + Written(r)) == Some(Members(r))
  {
    hide Str, ReadRange, Members, Int;
    IntAfterLead(r.start, " ");
    IntAfterLead(r.end, "");
    assert "" + Str(r.end) == Str(r.end);
    if r.start == r.end {
      ReadSingle(" " + Str(r.start), r.start);
    } else {
      Reassociate(" ", Str(r.start), "-", Str(r.end));
      ReadPair(" " + Str(r.start), Str(r.end), r);
    }
  }

  lemma Reassociate(a: string, b: string, c: string, d: string)
    ensures a + (b + c + d) == (a + b) + c + d
  {
  }

  lemma ReadSingle(text: string, n: int)
    requires '-' !in text && Int(text) == Some(n)
    ensures ReadRange(text) == Some(Members(Range(n, n)))
  {
    hide Int, Members;
    SplitWhole(text, '-');
  }

  lemma ReadPair(a: string, b: string, r: Range)
    requires '-' !in a && '-' !in b && Int(a) == Some(r.start) && Int(b) == Some(r.end)
    ensures ReadRange(a + "-" + b) == Some(Members(r))
  {
    hide Int, Members, Split;
    SplitFirst(a, '-', b);
    SplitWhole(b, '-');
  }

  lemma WrittenHasNoComma(ranges: seq<Range>)
    ensures forall i :: 0 <= i < |ranges| ==> ',' !in AllWritten(ranges)[i]
  {
    hide Str;
  }

  lemma IntAfterLead(i: nat, lead: string)
    requires lead == "" || lead == " "
    ensures Int(lead + Str(i)) == Some(i)
    ensures '-' !in Str(i) && '-' !in lead + Str(i)
  {
    IntOfStr(i);
    assert Str(i) == Digits(i);
    hide Digits, DigitsValue;
    if lead == " " {
      assert (lead + Str(i))[1..] == Str(i);
    } else {
      assert lead + Str(i) == Str(i);
    }
  }

  function AllSpaced(texts: seq<string>): (r: seq<string>)
    ensures |r| == |texts| && forall i :: 0 <= i < |texts| ==> r[i] == " " + texts[i]
  {
    seq(|texts|, i requires 0 <= i < |texts| => " " + texts[i])
  }

  /** The texts with the space that follows each comma. */
  function Spaced(texts: seq<string>): (r: seq<string>)
    ensures |r| == |texts|
    ensures forall i :: 0 <= i < |texts| ==> r[i] == if i == 0 then texts[0] else " " + texts[i]
  {
    if texts == [] then [] else [texts[0]] + AllSpaced(texts[1..])
  }

  lemma {:induction false} JoinedIsJoin(first: string, rest: seq<string>)
    ensures Joined([first] + rest) == Join([first] + AllSpaced(rest), ',')
    decreases |rest|
  {
    var spaced := AllSpaced(rest);
    assert ([first] + rest)[1..] == rest && ([first] + spaced)[1..] == spaced;
    if rest != [] {
      JoinedIsJoin(rest[0], rest[1..]);
      assert [rest[0]] + rest[1..] == rest;
      JoinPrefix(" ", spaced, rest[0]);
      assert AllSpaced(rest[1..]) == spaced[1..];
      assert first + ", " + Joined(rest) == first + [','] + (" " + Joined(rest));
    }
  }

  lemma JoinPrefix(lead: string, parts: seq<string>, first: string)
    requires parts != [] && parts[0] == lead + first
    ensures Join(parts, ',') == lead + Join([first] + parts[1..], ',')
  {
    assert ([first] + parts[1..])[1..] == parts[1..];
    if |parts| > 1 {
      var tail := Join(parts[1..], ',');
      assert lead + first + [','] + tail == lead + (first + [','] + tail);
    }
  }

  lemma SpacedHasNoComma(texts: seq<string>)
    requires forall i :: 0 <= i < |texts| ==> ',' !in texts[i]
    ensures forall i :: 0 <= i < |texts| ==> ',' !in Spaced(texts)[i]
  {
  }

  lemma SplitJoined(texts: seq<string>)
    requires texts != [] && forall i :: 0 <= i < |texts| ==> ',' !in texts[i]
    ensures Split(Joined(texts), ',') == Spaced(texts)
  {
    var first, rest := texts[0], texts[1..];
    assert texts == [first] + rest;
    JoinedIsJoin(first, rest);
    SpacedHasNoComma(texts);
    hide *;
    SplitClean(Spaced(texts), ',');
  }

  lemma SpacedNext(texts: seq<string>, t: string)
    ensures Spaced(texts + [t]) == Spaced(texts) + [if texts == [] then t else " " + t]
  {
    var all := texts + [t];
    assert forall i :: 0 <= i < |texts| ==> all[i] == texts[i];
  }

  lemma ReadNext(texts: seq<string>, t: string)
    ensures ReadAll(texts + [t])
         == if ReadAll(texts).None? || ReadRange(t).None? then None else Some(ReadAll(texts).value + ReadRange(t).value)
  {
    hide ReadRange;
    assert (texts + [t])[..|texts|] == texts;
  }

  lemma NothingWritten()
    ensures AllWritten([]) == [] && Spaced([]) == []
  {
  }

  lemma {:induction false} ReadAllWritten(ranges: seq<Range>)
    requires forall i :: 0 <= i < |ranges| ==> 0 <= ranges[i].start <= ranges[i].end
    ensures ReadAll(Spaced(AllWritten(ranges))) == Some(Expanded(ranges))
  {
    hide ReadRange, Written, Members, AllWritten, Spaced;
    if ranges != [] {
      var front, last := ranges[..|ranges| - 1], ranges[|ranges| - 1];
      ReadAllWritten(front);
      ReadWritten(last);
      ReadSpacedWritten(last);
      assert ranges == front + [last];
      WrittenNext(front, last);
      SpacedNext(AllWritten(front), Written(last));
      ReadNext(Spaced(AllWritten(front)), if front == [] then Written(last) else " " + Written(last));
    } else {
      NothingWritten();
    }
  }

  /** Printing and then reading gives back the sorted list, for every non-empty list of
      non-negative indices, with their repetitions. */
  lemma PrintedRangesReadBack(indices: seq<int>)
    requires indices != [] && forall i :: 0 <= i < |indices| ==> indices[i] >= 0
    ensures ReadIndexRanges(Joined(AllWritten(Ranges(Sorted(indices))))) == Some(Sorted(indices))
    ensures IsSorted(Sorted(indices)) && multiset(Sorted(indices)) == multiset(indices)
  {
    var s := Sorted(indices);
    SortedIsSorted(indices);
    assert |s| == |multiset(s)| == |indices|;
    assert forall i :: 0 <= i < |s| ==> s[i] >= 0 by {
      forall i | 0 <= i < |s| ensures s[i] >= 0 {
        assert s[i] in multiset(s);
        assert s[i] in indices;
      }
    }
    SortedReadsBack(s);
  }

  lemma SortedReadsBack(s: seq<int>)
    requires s != [] && forall i :: 0 <= i < |s| ==> s[i] >= 0
    ensures ReadIndexRanges(Joined(AllWritten(Ranges(s)))) == Some(s)
  {
    hide Expanded, ReadAll, Spaced, Joined, Split;
    var ranges := Ranges(s);
    assert ranges != [];
    hide Ranges;
    RangesExpandBack(s);
    RangesAreProper(s);
    forall i | 0 <= i < |ranges| ensures ranges[i].start >= 0 {
      InExpanded(ranges, ranges[i].start);
    }
    ReadAllWritten(ranges);
    WrittenHasNoComma(ranges);
    SplitJoined(AllWritten(ranges));
  }

  // -------------------------------------------------------------- as few as can be

  lemma {:induction false} InMembers(r: Range, x: int)
    ensures x in Members(r) <==> r.start <= x <= r.end
    decreases r.end - r.start
  {
    if r.start <= r.end {
      InMembers(Range(r.start, r.end - 1), x);
    }
  }

  lemma {:induction false} InExpanded(ranges: seq<Range>, x: int)
    ensures x in Expanded(ranges) <==> exists k :: 0 <= k < |ranges| && ranges[k].start <= x <= ranges[k].end
  {
    if ranges != [] {
      InExpanded(ranges[..|ranges| - 1], x);
      InMembers(ranges[|ranges| - 1], x);
    }
  }

  predicate Gapped(ranges: seq<Range>) {
    forall i, j :: 0 <= i < j < |ranges| ==> ranges[i].end + 1 < ranges[j].start
  }

  predicate Increasing(s: seq<int>) {
    forall i, j :: 0 <= i < j < |s| ==> s[i] < s[j]
  }

  /** With distinct indices, neighbouring ranges are separated by a gap. */
  lemma {:induction false} GapsBetweenRanges(s: seq<int>)
    requires Increasing(s)
    ensures Gapped(Ranges(s))
  {
    if |s| > 1 {
      var front, x := s[..|s| - 1], s[|s| - 1];
      assert s == front + [x];
      GapsBetweenRanges(front);
      var done, last := Ranges(front)[..|Ranges(front)| - 1], Ranges(front)[|Ranges(front)| - 1];
      assert Ranges(front) == done + [last];
      RangesNext(front, done, last, x);
      EndsAreBelow(front, x);
      hide Ranges;
      GappedNext(done, last, x);
    }
  }

  lemma EndsAreBelow(front: seq<int>, x: int)
    requires Increasing(front + [x])
    ensures forall i :: 0 <= i < |Ranges(front)| ==> Ranges(front)[i].start <= Ranges(front)[i].end < x
  {
    hide Ranges, Expanded;
    RangesExpandBack(front);
    RangesAreProper(front);
    var r := Ranges(front);
    forall i | 0 <= i < |r| ensures r[i].end < x {
      InExpanded(r, r[i].end);
      var k :| 0 <= k < |front| && front[k] == r[i].end;
      assert (front + [x])[k] == front[k] && (front + [x])[|front|] == x;
    }
  }

  lemma GappedNext(done: seq<Range>, last: Range, x: int)
    requires Gapped(done + [last]) && last.end < x && last.start <= last.end
    requires forall i :: 0 <= i < |done| ==> done[i].start <= done[i].end
    ensures x == last.end + 1 ==> Gapped(done + [Range(last.start, x)])
    ensures x != last.end + 1 ==> Gapped(done + [last] + [Range(x, x)])
  {
    assert forall i :: 0 <= i < |done| ==> (done + [last])[i] == done[i];
    assert forall i :: 0 <= i < |done| ==> done[i].end + 1 < last.start by {
      forall i | 0 <= i < |done| ensures done[i].end + 1 < last.start {
        assert (done + [last])[|done|] == last;
      }
    }
  }

  ghost function Starts(ranges: seq<Range>): set<int> {
    set i | 0 <= i < |ranges| :: ranges[i].start
  }

  lemma {:induction false} AtMostAsManyStarts(ranges: seq<Range>)
    ensures |Starts(ranges)| <= |ranges|
  {
    if ranges != [] {
      var front, last := ranges[..|ranges| - 1], ranges[|ranges| - 1];
      AtMostAsManyStarts(front);
      assert Starts(ranges) == Starts(front) + {last.start};
    }
  }

  lemma {:induction false} AsManyStarts(ranges: seq<Range>)
    requires forall i, j :: 0 <= i < j < |ranges| ==> ranges[i].start < ranges[j].start
    ensures |Starts(ranges)| == |ranges|
  {
    if ranges != [] {
      var front, last := ranges[..|ranges| - 1], ranges[|ranges| - 1];
      AsManyStarts(front);
      assert last.start !in Starts(front);
      assert Starts(ranges) == Starts(front) + {last.start};
    }
  }

  /** No list of ranges that covers the same distinct indices is shorter. */
  lemma FewestRanges(s: seq<int>, other: seq<Range>)
    requires Increasing(s)
    requires forall x :: x in Expanded(other) <==> x in s
    ensures |Ranges(s)| <= |other|
  {
    hide Ranges, Expanded, Starts;
    var ranges := Ranges(s);
    RangesExpandBack(s);
    RangesAreProper(s);
    GapsBetweenRanges(s);
    forall x | x in Starts(ranges) ensures x in Starts(other) {
      StartsOfSome(ranges, x);
      var i: nat :| i < |ranges| && ranges[i].start == x;
      StartIsNeeded(s, ranges, other, i);
    }
    SubsetSize(Starts(ranges), Starts(other));
    AsManyStarts(ranges);
    AtMostAsManyStarts(other);
  }

  lemma StartsOfSome(ranges: seq<Range>, x: int)
    ensures x in Starts(ranges) <==> exists i: nat :: i < |ranges| && ranges[i].start == x
  {
  }

  lemma StartIsNeeded(s: seq<int>, ranges: seq<Range>, other: seq<Range>, i: nat)
    requires i < |ranges| && Expanded(ranges) == s
    requires Gapped(ranges)
    requires Proper(ranges)
    requires forall x :: x in Expanded(other) <==> x in s
    ensures ranges[i].start in Starts(other)
  {
    hide Expanded, Starts;
    var x := ranges[i].start;
    InExpanded(ranges, x);
    InExpanded(ranges, x - 1);
    InExpanded(other, x);
    var k: nat :| k < |other| && other[k].start <= x <= other[k].end;
    InExpanded(other, x - 1);
    StartsOfSome(other, x);
  }
}
