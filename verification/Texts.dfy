/**
 Strings cut at a character, and integers written in and read from decimal digits.
 */
module Texts {
  import opened Wrappers

  // ----------------------------------------------------------------------- cutting

  function Split(s: string, sep: char): (parts: seq<string>)
    ensures |parts| >= 1
  {
    if s == [] then [""]
    else if s[0] == sep then [""] + Split(s[1..], sep)
    else
      var rest := Split(s[1..], sep);
      [[s[0]] + rest[0]] + rest[1..]
  }

  function Count(s: string, c: char): (n: nat)
    ensures n == 0 <==> c !in s
  {
    if s == [] then 0 else (if s[0] == c then 1 else 0) + Count(s[1..], c)
  }

  lemma {:induction false} SplitCount(s: string, sep: char)
    ensures |Split(s, sep)| == 1 + Count(s, sep)
  {
    if s != [] {
      SplitCount(s[1..], sep);
    }
  }

  lemma {:induction false} CountConcat(s: string, t: string, c: char)
    ensures Count(s + t, c) == Count(s, c) + Count(t, c)
  {
    if s == [] {
      assert s + t == t;
    } else {
      assert (s + t)[1..] == s[1..] + t;
      CountConcat(s[1..], t, c);
    }
  }

  lemma {:induction false} SplitWhole(s: string, sep: char)
    requires sep !in s
    ensures Split(s, sep) == [s]
  {
    if s != [] {
      SplitWhole(s[1..], sep);
      assert [s[0]] + s[1..] == s;
    }
  }

  /** A separator cuts a text in two, and each side is cut on its own. */
  lemma {:induction false} SplitConcat(s: string, sep: char, rest: string)
    ensures Split(s + [sep] + rest, sep) == Split(s, sep) + Split(rest, sep)
  {
    var all := s + [sep] + rest;
    if s == [] {
      assert all[1..] == rest;
    } else {
      assert all[1..] == s[1..] + [sep] + rest;
      SplitConcat(s[1..], sep, rest);
    }
  }

  lemma SplitFirst(s: string, sep: char, rest: string)
    requires sep !in s
    ensures Split(s + [sep] + rest, sep) == [s] + Split(rest, sep)
  {
    SplitConcat(s, sep, rest);
    SplitWhole(s, sep);
  }

  function Join(parts: seq<string>, sep: char): string
    requires parts != []
  {
    if |parts| == 1 then parts[0] else parts[0] + [sep] + Join(parts[1..], sep)
  }

  /** Separators inside the parts show as that many parts more. */
  lemma {:induction false} JoinedParts(parts: seq<string>, sep: char)
    requires parts != []
    ensures |Split(Join(parts, sep), sep)| == |parts| + CountAll(parts, sep)
  {
    SplitCount(Join(parts, sep), sep);
    if |parts| > 1 {
      SplitCount(Join(parts[1..], sep), sep);
      JoinedParts(parts[1..], sep);
      CountConcat(parts[0], [sep], sep);
      CountConcat(parts[0] + [sep], Join(parts[1..], sep), sep);
    }
  }

  function CountAll(parts: seq<string>, c: char): (n: nat)
    ensures n == 0 <==> forall i :: 0 <= i < |parts| ==> c !in parts[i]
  {
    if parts == [] then 0 else Count(parts[0], c) + CountAll(parts[1..], c)
  }

  function SplitAll(parts: seq<string>, sep: char): seq<string> {
    if parts == [] then [] else Split(parts[0], sep) + SplitAll(parts[1..], sep)
  }

  /** Cutting what was joined cuts every part. */
  lemma {:induction false} SplitJoin(parts: seq<string>, sep: char)
    requires parts != []
    ensures Split(Join(parts, sep), sep) == SplitAll(parts, sep)
  {
    if |parts| == 1 {
      assert SplitAll(parts[1..], sep) == [];
    } else {
      SplitConcat(parts[0], sep, Join(parts[1..], sep));
      SplitJoin(parts[1..], sep);
    }
  }

  lemma {:induction false} SplitClean(parts: seq<string>, sep: char)
    requires parts != [] && forall i :: 0 <= i < |parts| ==> sep !in parts[i]
    ensures Split(Join(parts, sep), sep) == parts
  {
    if |parts| == 1 {
      SplitWhole(parts[0], sep);
    } else {
      SplitClean(parts[1..], sep);
      SplitFirst(parts[0], sep, Join(parts[1..], sep));
    }
  }

  /** Cutting undoes joining exactly when no part holds the separator. */
  lemma SplitJoinExactly(parts: seq<string>, sep: char)
    requires parts != []
    ensures Split(Join(parts, sep), sep) == parts <==> forall i :: 0 <= i < |parts| ==> sep !in parts[i]
  {
    JoinedParts(parts, sep);
    if forall i :: 0 <= i < |parts| ==> sep !in parts[i] {
      SplitClean(parts, sep);
    }
  }

  // ---------------------------------------------------------------------- decimals

  function Digit(d: nat): (c: char)
    requires d < 10
    ensures '0' <= c <= '9'
  {
    ('0' as int + d) as char
  }

  function Digits(n: nat): (s: string)
    ensures s != [] && forall i :: 0 <= i < |s| ==> '0' <= s[i] <= '9'
  {
    if n < 10 then [Digit(n)] else Digits(n / 10) + [Digit(n % 10)]
  }

  function Str(i: int): (s: string)
    ensures s != [] && forall k :: 0 <= k < |s| ==> '0' <= s[k] <= '9' || s[k] == '-'
  {
    if i < 0 then "-" + Digits(-i) else Digits(i)
  }

  /** Digits, with single underscores allowed between them. */
  function DigitsValue(s: string): Option<nat> {
    if s == [] || !('0' <= s[|s| - 1] <= '9') then None
    else
      var d := s[|s| - 1] as int - '0' as int;
      var front := s[..|s| - 1];
      if front == [] then Some(d)
      else
        var higher := DigitsValue(if front[|front| - 1] == '_' then front[..|front| - 1] else front);
        if higher.None? then None else Some(10 * higher.value + d)
  }

  /** The white space that int() allows around the digits: of the ASCII control
      characters only tab to carriage return count. */
  predicate IsSpace(c: char) {
    || 9 <= c as int <= 13 || c == ' '
    || c as int in {0x85, 0xA0, 0x1680, 0x2028, 0x2029, 0x202F, 0x205F, 0x3000}
    || 0x2000 <= c as int <= 0x200A
  }

  function Strip(s: string): string {
    if s == [] then s
    else if IsSpace(s[0]) then Strip(s[1..])
    else if IsSpace(s[|s| - 1]) then Strip(s[..|s| - 1])
    else s
  }

  /** The integer a text denotes, as int() reads it; None for a ValueError. */
  function Int(s: string): Option<int> {
    var t := Strip(s);
    if t == [] then None
    else if t[0] == '-' then
      var n := DigitsValue(t[1..]);
      if n.None? then None else var v: int := n.value; Some(-v)
    else DigitsValue(if t[0] == '+' then t[1..] else t)
  }

  lemma {:induction false} DigitsRoundTrip(n: nat)
    ensures DigitsValue(Digits(n)) == Some(n)
  {
    if n >= 10 {
      DigitsRoundTrip(n / 10);
      var s := Digits(n);
      assert s[..|s| - 1] == Digits(n / 10);
    }
  }

  lemma StripKeeps(s: string)
    requires forall i :: 0 <= i < |s| ==> !IsSpace(s[i])
    ensures Strip(s) == s
  {
  }

  /** A digit more at the end stands for ten times the number and the digit, and no
      number is written with a zero in front. */
  lemma {:induction false} DigitsAppend(n: nat, d: nat)
    requires n > 0 && d < 10
    ensures Digits(10 * n + d) == Digits(n) + [Digit(d)]
    ensures Digits(n)[0] != '0'
  {
    if n >= 10 {
      DigitsAppend(n / 10, n % 10);
      assert Digits(n)[0] == Digits(n / 10)[0];
    }
  }

  /** What int() makes of signs, blanks and underscores. */
  lemma KnownNumbers()
    ensures Int(" +1_0\n") == Some(10) && Int("-7") == Some(-7)
  {
    assert " +1_0\n"[1..] == "+1_0\n" && "+1_0\n"[..4] == "+1_0" && "+1_0"[1..] == "1_0";
    assert Strip("+1_0\n") == Strip("+1_0") == "+1_0";
    assert "1_0"[..2] == "1_" && "1_"[..1] == "1";
    assert DigitsValue("1_0") == Some(10);
    assert "-7"[1..] == "7" && DigitsValue("7") == Some(7);
  }

  lemma NoNumbers()
    ensures Int("") == Int("-") == Int("+-1") == Int("1__0") == Int("_1") == Int("1_") == Int("1 0") == None
  {
    assert "-"[1..] == "" && "+-1"[1..] == "-1" && "-1"[..1] == "-";
    assert "1__0"[..3] == "1__" && "1__"[..2] == "1_";
    assert "_1"[..1] == "_" && "_"[..0] == "";
    assert "1 0"[..2] == "1 ";
  }

  /** Reading back what was written. */
  lemma IntOfStr(i: int)
    ensures Int(Str(i)) == Some(i)
  {
    hide Digits, DigitsValue;
    StripKeeps(Str(i));
    if i < 0 {
      DigitsRoundTrip(-i);
      assert Str(i)[1..] == Digits(-i);
    } else {
      DigitsRoundTrip(i);
    }
  }
}
