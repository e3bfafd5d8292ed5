/** Sampling a digit's seven segments and decoding the resulting pattern
    (`calcular_digito` and `identificar_digito` in MultiRead.py). A pattern is a
    string of '0' and '1', one character per sample point, segment order a..g. */
module SevenSegment {
  import opened Wrappers
  import opened Imaging

  /** Whether the segment under `p` counts as drawn: segments are dark on a light
      background, so a luminosity strictly below the threshold means "on". */
  predicate Active(f: Frame, p: Point, threshold: int)
    requires f.Valid()
  {
    Luminosity(f, p) < threshold
  }

  /** The pattern a template of sample points gives on a frame. */
  function PatternOf(f: Frame, template: seq<Point>, threshold: int): string
    requires f.Valid()
  {
    seq(|template|, i requires 0 <= i < |template| => if Active(f, template[i], threshold) then '1' else '0')
  }

  /** `calcular_digito`: probes the points in order, collecting one flag per point,
      then spells the flags as '1' (active) and '0'. */
  method SegmentPattern(f: Frame, template: seq<Point>, threshold: int) returns (pattern: string)
    requires f.Valid()
    ensures |pattern| == |template|
    ensures forall i :: 0 <= i < |template| ==>
      (pattern[i] == '1' <==> Luminosity(f, template[i]) < threshold) &&
      (pattern[i] == '0' || pattern[i] == '1')
    ensures pattern == PatternOf(f, template, threshold)
  {
    var active: seq<bool> := [];
    for i := 0 to |template|
      invariant |active| == i
      invariant forall j :: 0 <= j < i ==> active[j] == (Luminosity(f, template[j]) < threshold)
    {
      var lum := Luminosity(f, template[i]);
      active := active + [lum < threshold];
    }
    pattern := seq(|active|, j requires 0 <= j < |active| => if active[j] then '1' else '0');
  }

  /** A point whose truncated coordinates fall outside the frame reads as dark, so
      its segment is on exactly when the threshold is positive. */
  lemma OutsidePointActiveIffPositiveThreshold(f: Frame, p: Point, threshold: int)
    requires f.Valid() && !f.Contains(Trunc(p.x), Trunc(p.y))
    ensures Active(f, p, threshold) <==> threshold > 0
  {
  }

  // ---------------------------------------------------------------- decoding

  /** The lookup table of `identificar_digito`. */
  const DigitTable: map<string, nat> := map[
    "1111110" := 0, "0110000" := 1, "1101101" := 2,
    "1111001" := 3, "0110011" := 4, "1011011" := 5,
    "1011111" := 6, "1110000" := 7, "1111111" := 8,
    "1111011" := 9]

  /** `identificar_digito`: exact lookup, no nearest match; None stands for '?'. */
  function DecodeDigit(pattern: string): (d: Option<nat>)
    ensures d.Some? <==> pattern in DigitTable.Keys
    ensures d.Some? ==> d.value < 10 && DigitTable[pattern] == d.value
  {
    if pattern in DigitTable then Some(DigitTable[pattern]) else None
  }

  /** The standard seven-segment glyphs, as the sets of segments (named 'a'..'g':
      top, upper right, lower right, bottom, lower left, upper left, middle) that
      each digit lights. */
  function Lit(d: nat): set<char>
    requires d < 10
  {
    match d
    case 0 => {'a', 'b', 'c', 'd', 'e', 'f'}
    case 1 => {'b', 'c'}
    case 2 => {'a', 'b', 'd', 'e', 'g'}
    case 3 => {'a', 'b', 'c', 'd', 'g'}
    case 4 => {'b', 'c', 'f', 'g'}
    case 5 => {'a', 'c', 'd', 'f', 'g'}
    case 6 => {'a', 'c', 'd', 'e', 'f', 'g'}
    case 7 => {'a', 'b', 'c'}
    case 8 => {'a', 'b', 'c', 'd', 'e', 'f', 'g'}
    case _ => {'a', 'b', 'c', 'd', 'f', 'g'}
  }

  /** The pattern a perfectly sampled glyph would give, segments in order a..g. */
  function Render(segments: set<char>): (pattern: string)
    ensures |pattern| == 7
  {
    seq(7, i requires 0 <= i < 7 => if "abcdefg"[i] in segments then '1' else '0')
  }

  /** The table agrees with the standard glyphs: the rendering of digit d decodes to d. */
  lemma {:induction false} DecodeStandardGlyph(d: nat)
    requires d < 10
    ensures DecodeDigit(Render(Lit(d))) == Some(d)
  {
    var p := Render(Lit(d));
    if d == 0 { assert p == "1111110"; }
    else if d == 1 { assert p == "0110000"; }
    else if d == 2 { assert p == "1101101"; }
    else if d == 3 { assert p == "1111001"; }
    else if d == 4 { assert p == "0110011"; }
    else if d == 5 { assert p == "1011011"; }
    else if d == 6 { assert p == "1011111"; }
    else if d == 7 { assert p == "1110000"; }
    else if d == 8 { assert p == "1111111"; }
    else { assert p == "1111011"; }
  }

  /** Decoding fails closed: a pattern decodes to d only if it is exactly the
      rendering of digit d's glyph. */
  lemma {:induction false} DecodedIsStandardGlyph(pattern: string)
    requires DecodeDigit(pattern).Some?
    ensures pattern == Render(Lit(DecodeDigit(pattern).value))
  {
    var d := DecodeDigit(pattern).value;
    DecodeStandardGlyph(d);
    DecodeInjective(pattern, Render(Lit(d)));
  }

  /** No two patterns decode to the same digit. */
  lemma DecodeInjective(p: string, q: string)
    requires DecodeDigit(p).Some? && DecodeDigit(p) == DecodeDigit(q)
    ensures p == q
  {
  }

  // ---------------------------------------------------------------- counting

  predicate IsBit(c: char) { c == '0' || c == '1' }

  /** All strings of `n` characters over '0' and '1'. */
  function BitStrings(n: nat): set<string>
  {
    if n == 0 then {""}
    else Prefixed('0', BitStrings(n - 1)) + Prefixed('1', BitStrings(n - 1))
  }

  function Prefixed(c: char, strings: set<string>): set<string>
  {
    set s | s in strings :: [c] + s
  }

  function Pow2(n: nat): nat
  {
    if n == 0 then 1 else 2 * Pow2(n - 1)
  }

  lemma {:induction false} BitStringsMembers(n: nat, s: string)
    ensures s in BitStrings(n) <==> |s| == n && forall i :: 0 <= i < |s| ==> IsBit(s[i])
    decreases n
  {
    if n > 0 {
      if |s| == n && forall i :: 0 <= i < |s| ==> IsBit(s[i]) {
        BitStringsMembers(n - 1, s[1..]);
        assert s == [s[0]] + s[1..];
      }
      if s in BitStrings(n) {
        var t :| t in BitStrings(n - 1) && (s == ['0'] + t || s == ['1'] + t);
        BitStringsMembers(n - 1, t);
      }
    }
  }

  lemma {:induction false} PrefixedCount(c: char, strings: set<string>)
    ensures |Prefixed(c, strings)| == |strings|
    decreases |strings|
  {
    if strings != {} {
      var s :| s in strings;
      var rest := strings - {s};
      PrefixedCount(c, rest);
      assert Prefixed(c, strings) == Prefixed(c, rest) + {[c] + s};
      forall t | t in rest ensures [c] + t != [c] + s {
        PrefixInjective(c, t, s);
      }
      assert [c] + s !in Prefixed(c, rest);
    }
  }

  lemma PrefixInjective(c: char, t: string, s: string)
    ensures [c] + t == [c] + s ==> t == s
  {
    assert ([c] + t)[1..] == t && ([c] + s)[1..] == s;
  }

  lemma {:induction false} BitStringsCount(n: nat)
    ensures |BitStrings(n)| == Pow2(n)
    decreases n
  {
    if n > 0 {
      var zeros, ones := Prefixed('0', BitStrings(n - 1)), Prefixed('1', BitStrings(n - 1));
      BitStringsCount(n - 1);
      PrefixedCount('0', BitStrings(n - 1));
      PrefixedCount('1', BitStrings(n - 1));
      assert zeros * ones == {} by {
        forall s | s in zeros ensures s !in ones { assert s[0] == '0'; }
      }
    }
  }

  /** Of the 128 possible seven-bit patterns exactly the ten table entries decode;
      the other 118, all-off included, read as '?'. */
  lemma SevenBitPatterns()
    ensures |BitStrings(7)| == 128
    ensures (set p | p in BitStrings(7) && DecodeDigit(p).Some?) == DigitTable.Keys
    ensures |DigitTable.Keys| == 10
    ensures DecodeDigit("0000000").None?
  {
    BitStringsCount(7);
    DecodableBitStrings(7);
    TableSize();
  }

  lemma DecodableBitStrings(n: nat)
    requires n == 7
    ensures (set p | p in BitStrings(n) && DecodeDigit(p).Some?) == DigitTable.Keys
  {
    var decodable := set p | p in BitStrings(n) && DecodeDigit(p).Some?;
    forall p | p in DigitTable.Keys ensures p in decodable {
      KeyIsBitString(p);
      BitStringsMembers(n, p);
    }
  }

  lemma KeyIsBitString(p: string)
    requires p in DigitTable.Keys
    ensures |p| == 7 && forall i :: 0 <= i < |p| ==> IsBit(p[i])
  {
  }

  lemma TableSize()
    ensures |DigitTable.Keys| == 10
  {
  }
}
