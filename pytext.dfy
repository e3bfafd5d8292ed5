/** The few pieces of Python's text handling that the reader and the smoothing
    utility rely on: `str()` of an integer, the `{:02}` format, `str.strip()`,
    `str.split(sep)` and `int()` on a string. */
module PyText {
  import opened Wrappers

  predicate IsDigit(c: char) { '0' <= c <= '9' }

  predicate AllDigits(s: string) { forall i :: 0 <= i < |s| ==> IsDigit(s[i]) }

  /** The whitespace `str.strip()` removes, restricted to ASCII: tab, line feed,
      vertical tab, form feed, carriage return, the four separators 0x1C-0x1F and space. */
  predicate IsSpace(c: char) { 9 <= c as int <= 13 || 28 <= c as int <= 32 }

  function DigitChar(d: nat): (c: char)
    requires d < 10
    ensures IsDigit(c) && !IsSpace(c) && c != ',' && c != ':'
  {
    (('0' as int) + d) as char
  }

  function DigitValue(c: char): (d: nat)
    requires IsDigit(c)
    ensures d < 10 && DigitChar(d) == c
  {
    c as int - '0' as int
  }

  /** `str(n)` for a non-negative integer: decimal digits without leading zeros. */
  function NatToString(n: nat): (s: string)
    ensures |s| >= 1 && AllDigits(s)
    decreases n
  {
    if n < 10 then [DigitChar(n)] else NatToString(n / 10) + [DigitChar(n % 10)]
  }

  /** `str(n)` has one digit below 10, at most two below 100, and begins with '0'
      only for zero. */
  lemma {:induction false} NatToStringLength(n: nat)
    ensures (n < 10 <==> |NatToString(n)| == 1) && (n < 100 <==> |NatToString(n)| <= 2)
    ensures NatToString(n)[0] == '0' ==> n == 0
    decreases n
  {
    if n >= 10 {
      NatToStringLength(n / 10);
      assert NatToString(n)[0] == NatToString(n / 10)[0];
    }
  }

  /** The number a string of decimal digits denotes, most significant digit first. */
  function DigitsValue(s: string): nat
    requires AllDigits(s)
    decreases |s|
  {
    if s == [] then 0 else DigitsValue(s[..|s| - 1]) * 10 + DigitValue(s[|s| - 1])
  }

  lemma {:induction false} DigitsValueOfNatToString(n: nat)
    ensures DigitsValue(NatToString(n)) == n
    decreases n
  {
    if n >= 10 {
      var s := NatToString(n / 10);
      DigitsValueOfNatToString(n / 10);
      assert (s + [DigitChar(n % 10)])[..|s|] == s;
    }
  }

  /** `str(v)` (and `f"{v}"`) for any integer. */
  function IntToString(v: int): (s: string)
  {
    if v < 0 then "-" + NatToString(-v) else NatToString(v)
  }

  /** `str(v)` is a sign, if any, followed by digits: no whitespace at either end
      and no separator character inside. */
  lemma IntToStringShape(v: int)
    ensures var s := IntToString(v);
      |s| >= 1 && !IsSpace(s[0]) && !IsSpace(s[|s| - 1]) && ',' !in s
  {
    var digits := NatToString(if v < 0 then -v else v);
    assert ',' !in digits by { assert forall i :: 0 <= i < |digits| ==> IsDigit(digits[i]); }
    if v < 0 {
      assert IntToString(v) == "-" + digits;
    }
  }

  /** `f"{n:02}"`: at least two digits, zero-padded on the left, never truncated. */
  function Pad2(n: nat): string
  {
    if n < 10 then ['0', DigitChar(n)] else NatToString(n)
  }

  /** A padded field is all digits, at least two of them, and exactly two below 100. */
  lemma Pad2Shape(n: nat)
    ensures AllDigits(Pad2(n)) && |Pad2(n)| >= 2
    ensures n < 100 <==> |Pad2(n)| == 2
  {
    NatToStringLength(n);
  }

  /** The padded field still denotes the number it was made from. */
  lemma Pad2Value(n: nat)
    ensures DigitsValue(Pad2(n)) == n
  {
    var s := Pad2(n);
    Pad2Shape(n);
    if n < 10 {
      assert s[..1] == "0" && s[..1][..0] == [];
      assert DigitsValue(s[..1]) == 0;
    } else {
      DigitsValueOfNatToString(n);
    }
  }

  // ---------------------------------------------------------------- strip

  function StripLeft(s: string): (r: string)
    ensures |r| <= |s| && r == s[|s| - |r|..]
    ensures r == [] || !IsSpace(r[0])
    decreases |s|
  {
    if |s| > 0 && IsSpace(s[0]) then StripLeft(s[1..]) else s
  }

  function StripRight(s: string): (r: string)
    ensures |r| <= |s| && r == s[..|r|]
    ensures r == [] || !IsSpace(r[|r| - 1])
    decreases |s|
  {
    if |s| > 0 && IsSpace(s[|s| - 1]) then StripRight(s[..|s| - 1]) else s
  }

  /** `s.strip()`: the slice of `s` left once leading and trailing whitespace is gone. */
  function Strip(s: string): (r: string)
    ensures |r| <= |s|
    ensures r == [] || (!IsSpace(r[0]) && !IsSpace(r[|r| - 1]))
  {
    StripRight(StripLeft(s))
  }

  /** Stripping a string that starts and ends with a non-space character, followed
      by any run of whitespace (a line terminator, say), gives back that string. */
  lemma {:induction false} StripPadded(s: string, pad: string)
    requires |s| > 0 && !IsSpace(s[0]) && !IsSpace(s[|s| - 1])
    requires forall i :: 0 <= i < |pad| ==> IsSpace(pad[i])
    ensures Strip(s + pad) == s
    decreases |pad|
  {
    assert StripLeft(s + pad) == s + pad;
    if pad != [] {
      var shorter := pad[..|pad| - 1];
      assert (s + pad)[..|s + pad| - 1] == s + shorter;
      StripRightPadded(s, shorter);
    } else {
      assert s + pad == s;
    }
  }

  lemma {:induction false} StripRightPadded(s: string, pad: string)
    requires |s| > 0 && !IsSpace(s[|s| - 1])
    requires forall i :: 0 <= i < |pad| ==> IsSpace(pad[i])
    ensures StripRight(s + pad) == s
    decreases |pad|
  {
    if pad == [] {
      assert s + pad == s;
    } else {
      var shorter := pad[..|pad| - 1];
      assert (s + pad)[..|s + pad| - 1] == s + shorter;
      StripRightPadded(s, shorter);
    }
  }

  // ---------------------------------------------------------------- split

  predicate OccursAt(s: string, sep: string, i: int)
  {
    0 <= i && i + |sep| <= |s| && s[i..i + |sep|] == sep
  }

  /** The first index at which `sep` occurs in `s`, as `str.find` reports it (None for -1). */
  function Find(s: string, sep: string): (r: Option<nat>)
    requires |sep| > 0
    ensures r.Some? ==> OccursAt(s, sep, r.value)
    ensures r.Some? ==> forall j :: 0 <= j < r.value ==> !OccursAt(s, sep, j)
    ensures r.None? ==> forall j :: !OccursAt(s, sep, j)
    decreases |s|
  {
    if |s| < |sep| then None
    else if s[..|sep|] == sep then Some(0)
    else
      var rest := Find(s[1..], sep);
      assert !OccursAt(s, sep, 0) by { assert s[0..|sep|] == s[..|sep|]; }
      assert forall j :: 1 <= j ==> (OccursAt(s, sep, j) <==> OccursAt(s[1..], sep, j - 1)) by {
        forall j | 1 <= j
          ensures OccursAt(s, sep, j) <==> OccursAt(s[1..], sep, j - 1)
        {
          if j + |sep| <= |s| {
            assert s[1..][j - 1..j - 1 + |sep|] == s[j..j + |sep|];
          }
        }
      }
      match rest
      case None => None
      case Some(i) => Some(i + 1)
  }

  /** `s.split(sep)`: the pieces between the non-overlapping occurrences of `sep`,
      found left to right; there is always at least one piece. */
  function Split(s: string, sep: string): (parts: seq<string>)
    requires |sep| > 0
    ensures |parts| >= 1
    decreases |s|
  {
    match Find(s, sep)
    case None => [s]
    case Some(i) => [s[..i]] + Split(s[i + |sep|..], sep)
  }

  /** A string in which the separator occurs nowhere is not split. */
  lemma SplitUnbroken(s: string, sep: string)
    requires |sep| > 0 && forall j :: !OccursAt(s, sep, j)
    ensures Split(s, sep) == [s]
  {
    if Find(s, sep).Some? {
      assert false;
    }
  }

  /** Joining a head to any tail with the separator and splitting again gives back
      the head as the first piece, provided no occurrence of the separator starts
      inside the head. */
  lemma SplitJoined(a: string, sep: string, b: string)
    requires |sep| > 0 && forall j :: 0 <= j < |a| ==> !OccursAt(a + sep + b, sep, j)
    ensures Split(a + sep + b, sep) == [a] + Split(b, sep)
  {
    var s := a + sep + b;
    assert s[|a|..|a| + |sep|] == sep;
    assert OccursAt(s, sep, |a|);
    var i := Find(s, sep).value;
    if i < |a| {
      assert false;
    }
    assert s[..|a|] == a;
    assert s[|a| + |sep|..] == b;
  }

  /** No occurrence of the separator starts where its first character is absent. */
  lemma FirstCharAbsent(s: string, sep: string, k: nat)
    requires |sep| > 0 && k <= |s| && forall i :: 0 <= i < k ==> s[i] != sep[0]
    ensures forall j :: 0 <= j < k ==> !OccursAt(s, sep, j)
    ensures k == |s| ==> forall j :: !OccursAt(s, sep, j)
  {
    forall j | 0 <= j < k ensures !OccursAt(s, sep, j) {
      assert s[j] != sep[0];
    }
  }

  // ---------------------------------------------------------------- int()

  /** `int(s)` on a string: surrounding whitespace is ignored, then an optional sign
      and at least one decimal digit must make up the rest; anything else is the
      `ValueError` that `int()` raises, here None. */
  function ParseInt(s: string): Option<int>
  {
    ParseSigned(Strip(s))
  }

  /** `int()` on an already stripped string: an optional sign, then digits. */
  function ParseSigned(t: string): Option<int>
  {
    if |t| >= 1 && (t[0] == '-' || t[0] == '+') then
      match ParseUnsigned(t[1..])
      case None => None
      case Some(n) => Some(if t[0] == '-' then -(n as int) else n)
    else
      ParseUnsigned(t)
  }

  /** At least one decimal digit and nothing else. */
  function ParseUnsigned(t: string): Option<nat>
  {
    if |t| >= 1 && AllDigits(t) then Some(DigitsValue(t)) else None
  }

  /** A non-empty string of digits reads as the number it denotes. */
  lemma ParseIntDigits(s: string)
    requires |s| > 0 && AllDigits(s)
    ensures ParseInt(s) == Some(DigitsValue(s))
  {
    assert Strip(s) == s by {
      StripPadded(s, []);
      assert s + [] == s;
    }
    assert ParseInt(s) == ParseSigned(s);
    assert IsDigit(s[0]);
    assert ParseSigned(s) == ParseUnsigned(s);
    assert ParseUnsigned(s) == Some(DigitsValue(s));
  }

  /** `int()` never succeeds on a string without a digit. */
  lemma ParseIntNeedsDigit(s: string)
    requires ParseInt(s).Some?
    ensures exists i :: 0 <= i < |s| && IsDigit(s[i])
  {
    var t := Strip(s);
    StripIsSlice(s);
    var k :| 0 <= k <= |s| - |t| && t == s[k..][..|t|];
    assert IsDigit(t[|t| - 1]);
    assert s[k + |t| - 1] == t[|t| - 1];
  }

  lemma StripIsSlice(s: string)
    ensures exists i :: 0 <= i <= |s| - |Strip(s)| && Strip(s) == s[i..][..|Strip(s)|]
  {
    var l := StripLeft(s);
    var i := |s| - |l|;
    assert Strip(s) == l[..|Strip(s)|];
    assert l == s[i..];
  }

  lemma ParseIntNegative(digits: string)
    requires |digits| > 0 && AllDigits(digits)
    ensures ParseInt("-" + digits) == Some(-(DigitsValue(digits) as int))
  {
    var s := "-" + digits;
    assert s[0] == '-' && s[1..] == digits;
    assert Strip(s) == s by {
      assert s[|s| - 1] == digits[|digits| - 1];
      StripPadded(s, []);
      assert s + [] == s;
    }
    assert ParseInt(s) == ParseSigned(s);
    assert ParseUnsigned(digits) == Some(DigitsValue(digits));
    assert ParseSigned(s) == Some(-(DigitsValue(digits) as int));
  }

  /** `int(str(v)) == v` for every integer. */
  lemma ParseIntOfIntToString(v: int)
    ensures ParseInt(IntToString(v)) == Some(v)
  {
    if v < 0 {
      var digits := NatToString(-v);
      assert IntToString(v) == "-" + digits;
      assert DigitsValue(digits) == -v by { DigitsValueOfNatToString(-v); }
      ParseIntNegative(digits);
    } else {
      var digits := NatToString(v);
      assert IntToString(v) == digits;
      assert DigitsValue(digits) == v by { DigitsValueOfNatToString(v); }
      ParseIntDigits(digits);
    }
  }

  // ---------------------------------------------------------------- writing lines

  /** The lines a `for` loop writes with `f.write`, one per item, in order. */
  function Lines<T>(items: seq<T>, line: T -> string): (lines: seq<string>)
    ensures |lines| == |items|
  {
    if items == [] then [] else Lines(items[..|items| - 1], line) + [line(items[|items| - 1])]
  }

  /** Line i is the line of item i. */
  lemma {:induction false} LinesPointwise<T>(items: seq<T>, line: T -> string)
    ensures forall i :: 0 <= i < |items| ==> Lines(items, line)[i] == line(items[i])
  {
    if items != [] {
      var front := items[..|items| - 1];
      LinesPointwise(front, line);
      forall i | 0 <= i < |front| ensures Lines(items, line)[i] == line(items[i]) {
        assert Lines(items, line)[i] == Lines(front, line)[i];
      }
    }
  }

  /** Writing one more item appends its line. */
  lemma LinesStep<T>(items: seq<T>, line: T -> string, i: nat)
    requires i < |items|
    ensures Lines(items[..i + 1], line) == Lines(items[..i], line) + [line(items[i])]
  {
    assert items[..i + 1][..i] == items[..i];
  }
}
