/** The offset smoother of Trata.py (`tratar_offsets`): it reads the exported series
    (`"HH:MM:SS, value"` per line), replaces every value that jumps by more than a
    threshold from its already-corrected predecessor with the floor of the average
    of the two corrected values before it, and writes the series back in the same
    format. The files are sequences of lines here. */
module Offsets {
  import opened Wrappers
  import opened PyText
  import opened Export

  /** One entry of the series: the time stamp, kept verbatim, and the value. */
  datatype Sample = Sample(stamp: string, value: int)

  /** The two exceptions reading a line can raise: a line without the ", " separator
      has no second field (`IndexError`), and a second field that is not an integer
      makes `int()` fail (`ValueError`). */
  datatype LineError = IndexError | ValueError

  // ---------------------------------------------------------------- reading

  /** `partes = linha.strip().split(', ')`, then the stamp `partes[0]` and the value
      `int(partes[1])`; any further fields are ignored. */
  function ParseLine(line: string): Result<Sample, LineError>
  {
    var parts := Split(Strip(line), ", ");
    if |parts| < 2 then Failure(IndexError)
    else match ParseInt(parts[1])
      case None => Failure(ValueError)
      case Some(v) => Success(Sample(parts[0], v))
  }

  /** The outcome of reading each line, in order. */
  function LineResults(lines: seq<string>): (rs: seq<Result<Sample, LineError>>)
    ensures |rs| == |lines| && forall i :: 0 <= i < |lines| ==> rs[i] == ParseLine(lines[i])
  {
    seq(|lines|, i requires 0 <= i < |lines| => ParseLine(lines[i]))
  }

  /** The parse loop over the outcomes of the lines: the samples in order, or the
      error of the first line that fails, which ends the loop. */
  function Collect(rs: seq<Result<Sample, LineError>>): (r: Result<seq<Sample>, LineError>)
    ensures r.Success? ==> |r.value| == |rs|
    decreases |rs|
  {
    if rs == [] then Success([])
    else match Collect(rs[..|rs| - 1])
      case Failure(e) => Failure(e)
      case Success(front) =>
        match rs[|rs| - 1]
        case Failure(e) => Failure(e)
        case Success(s) => Success(front + [s])
  }

  function ParseAll(lines: seq<string>): Result<seq<Sample>, LineError>
  {
    Collect(LineResults(lines))
  }

  /** The series parses exactly when every line does, each line giving its own
      sample; otherwise the error is that of the first line that fails. */
  lemma {:induction false} CollectOutcomes(rs: seq<Result<Sample, LineError>>)
    ensures Collect(rs).Success? <==> forall i :: 0 <= i < |rs| ==> rs[i].Success?
    ensures Collect(rs).Success? ==> forall i :: 0 <= i < |rs| ==> rs[i] == Success(Collect(rs).value[i])
    ensures Collect(rs).Failure? ==>
      exists i :: 0 <= i < |rs| && rs[i] == Failure(Collect(rs).error) &&
                  forall j :: 0 <= j < i ==> rs[j].Success?
    decreases |rs|
  {
    if rs != [] {
      var front := rs[..|rs| - 1];
      CollectOutcomes(front);
      assert forall i :: 0 <= i < |front| ==> rs[i] == front[i];
      if Collect(front).Failure? {
        var i :| 0 <= i < |front| && front[i] == Failure(Collect(front).error) &&
          forall j :: 0 <= j < i ==> front[j].Success?;
        assert rs[i] == Failure(Collect(rs).error);
      }
    }
  }

  /** A failure in a prefix is the failure of the whole series. */
  lemma {:induction false} CollectFailsFrom(rs: seq<Result<Sample, LineError>>, k: nat)
    requires k <= |rs| && Collect(rs[..k]).Failure?
    ensures Collect(rs) == Collect(rs[..k])
    decreases |rs| - k
  {
    if k < |rs| {
      assert rs[..k + 1][..k] == rs[..k];
      CollectFailsFrom(rs, k + 1);
    } else {
      assert rs[..k] == rs;
    }
  }

  // ---------------------------------------------------------------- smoothing

  function Abs(v: int): nat { if v < 0 then -v else v }

  /** The correction of one entry given the two corrected entries before it: a jump of
      more than `thr` from the previous value is replaced by `(prev2 + prev1) // 2`
      (floor division, which Dafny's `/` agrees with for the divisor 2). */
  function Corrected(cur: Sample, prev2: Sample, prev1: Sample, thr: int): (r: Sample)
    ensures r.stamp == cur.stamp
    ensures Abs(cur.value - prev1.value) <= thr ==> r == cur
    ensures Abs(cur.value - prev1.value) > thr ==>
      2 * r.value <= prev2.value + prev1.value < 2 * r.value + 2
  {
    if Abs(cur.value - prev1.value) > thr then Sample(cur.stamp, (prev2.value + prev1.value) / 2)
    else cur
  }

  /** The smoothed series, defined on prefixes as the pass computes it: the first two
      entries are kept, and each later one is corrected against the corrected
      entries before it. */
  function Smoothed(s: seq<Sample>, thr: int): (r: seq<Sample>)
    ensures |r| == |s|
    decreases |s|
  {
    if |s| <= 2 then s
    else
      var front := Smoothed(s[..|s| - 1], thr);
      front + [Corrected(s[|s| - 1], front[|s| - 3], front[|s| - 2], thr)]
  }

  /** Smoothing a prefix gives the prefix of the smoothed series: no entry depends on
      anything after it. */
  lemma {:induction false} SmoothedPrefix(s: seq<Sample>, thr: int, k: nat)
    requires k <= |s|
    ensures Smoothed(s[..k], thr) == Smoothed(s, thr)[..k]
    decreases |s|
  {
    if k < |s| {
      var front := s[..|s| - 1];
      SmoothedPrefix(front, thr, k);
      assert front[..k] == s[..k];
      if |s| > 2 {
        assert Smoothed(s, thr)[..|s| - 1] == Smoothed(front, thr);
      }
    } else {
      assert s[..k] == s;
    }
  }

  /** The rule `tratar_offsets` applies, as a property of an output series `r` of an
      input series `s`. */
  ghost predicate SmoothingOf(r: seq<Sample>, s: seq<Sample>, thr: int)
  {
    |r| == |s| &&
    (forall i :: 0 <= i < |s| && i < 2 ==> r[i] == s[i]) &&
    (forall i :: 2 <= i < |s| ==> r[i] == Corrected(s[i], r[i - 2], r[i - 1], thr))
  }

  /** The smoothed series follows the rule: the first two entries are never changed,
      and each later entry is the input entry corrected against the two corrected
      entries before it. Stamps and length are kept. */
  lemma SmoothedFollowsRule(s: seq<Sample>, thr: int)
    ensures SmoothingOf(Smoothed(s, thr), s, thr)
    ensures forall i :: 0 <= i < |s| ==> Smoothed(s, thr)[i].stamp == s[i].stamp
  {
    var r := Smoothed(s, thr);
    forall i | 0 <= i < |s| && i < 2 ensures r[i] == s[i] {
      if |s| > 2 {
        SmoothedPrefix(s, thr, 2);
        assert Smoothed(s[..2], thr) == s[..2];
        assert r[i] == r[..2][i];
      }
    }
    forall i | 2 <= i < |s| ensures r[i] == Corrected(s[i], r[i - 2], r[i - 1], thr) {
      SmoothedStep(s, thr, i);
    }
  }

  /** Entry i of the smoothed series is entry i of the input corrected against the
      two smoothed entries before it. */
  lemma SmoothedStep(s: seq<Sample>, thr: int, i: nat)
    requires 2 <= i < |s|
    ensures Smoothed(s, thr)[i] == Corrected(s[i], Smoothed(s, thr)[i - 2], Smoothed(s, thr)[i - 1], thr)
  {
    var r := Smoothed(s, thr);
    var p := s[..i + 1];
    SmoothedPrefix(s, thr, i + 1);
    SmoothedPrefix(s, thr, i);
    assert p[..|p| - 1] == s[..i];
    var front := Smoothed(s[..i], thr);
    assert front == r[..i];
    assert Smoothed(p, thr) == front + [Corrected(p[i], front[i - 2], front[i - 1], thr)];
    assert r[i] == Smoothed(p, thr)[i];
  }

  /** The rule determines the output: any series that follows it is the smoothed one. */
  lemma {:induction false} SmoothingUnique(r: seq<Sample>, s: seq<Sample>, thr: int)
    requires SmoothingOf(r, s, thr)
    ensures r == Smoothed(s, thr)
  {
    SmoothedFollowsRule(s, thr);
    var t := Smoothed(s, thr);
    forall i | 0 <= i < |s| ensures r[i] == t[i] {
      AgreeUpTo(r, t, s, thr, i);
    }
  }

  lemma {:induction false} AgreeUpTo(r: seq<Sample>, t: seq<Sample>, s: seq<Sample>, thr: int, i: nat)
    requires SmoothingOf(r, s, thr) && SmoothingOf(t, s, thr) && i < |s|
    ensures r[i] == t[i]
    decreases i
  {
    if i >= 2 {
      AgreeUpTo(r, t, s, thr, i - 1);
      AgreeUpTo(r, t, s, thr, i - 2);
    }
  }

  /** A series whose consecutive values never differ by more than `thr` comes out
      unchanged. */
  lemma NoJumpUnchanged(s: seq<Sample>, thr: int)
    requires forall i :: 1 <= i < |s| ==> Abs(s[i].value - s[i - 1].value) <= thr
    ensures Smoothed(s, thr) == s
  {
    SmoothingUnique(s, s, thr);
  }

  /** Smoothing twice with the same threshold changes nothing more, whatever the
      threshold: a corrected entry equals the average of its two predecessors, which
      the second pass would compute again, and an uncorrected entry did not jump. */
  lemma SmoothedIdempotent(s: seq<Sample>, thr: int)
    ensures Smoothed(Smoothed(s, thr), thr) == Smoothed(s, thr)
  {
    var r := Smoothed(s, thr);
    SmoothedFollowsRule(s, thr);
    forall i | 2 <= i < |r| ensures r[i] == Corrected(r[i], r[i - 2], r[i - 1], thr) {
      assert r[i] == Corrected(s[i], r[i - 2], r[i - 1], thr);
    }
    SmoothingUnique(r, r, thr);
  }

  /** The correction cascades: once a spike is replaced, the next value is compared
      with the replacement, not with the spike. With threshold 9 the series
      10, 10, 55, 56, 12 becomes 10, 10, 10, 10, 12. */
  lemma CascadingSpike(s: seq<Sample>)
    requires s == [Sample("00:00:00", 10), Sample("00:00:01", 10), Sample("00:00:02", 55),
                   Sample("00:00:03", 56), Sample("00:00:04", 12)]
    ensures Smoothed(s, 9) == [Sample("00:00:00", 10), Sample("00:00:01", 10), Sample("00:00:02", 10),
                               Sample("00:00:03", 10), Sample("00:00:04", 12)]
  {
    var r := [Sample("00:00:00", 10), Sample("00:00:01", 10), Sample("00:00:02", 10),
              Sample("00:00:03", 10), Sample("00:00:04", 12)];
    assert r[2] == Corrected(s[2], r[0], r[1], 9);
    assert r[3] == Corrected(s[3], r[1], r[2], 9);
    assert r[4] == Corrected(s[4], r[2], r[3], 9);
    SmoothingUnique(r, s, 9);
  }

  /** The in-place pass `for i in range(2, len(temperaturas))`: each entry from the
      third on is compared with the entry before it, already corrected, and replaced
      when it jumps by more than `thr`. */
  method SmoothInPlace(a: array<Sample>, thr: int)
    modifies a
    ensures a[..] == Smoothed(old(a[..]), thr)
  {
    ghost var input := a[..];
    if a.Length <= 2 {
      return;
    }
    for i := 2 to a.Length
      invariant a[..i] == Smoothed(input[..i], thr)
      invariant forall j :: i <= j < a.Length ==> a[j] == input[j]
    {
      ghost var before := a[..i];
      assert input[..i + 1][..i] == input[..i];
      assert a[i] == input[i];
      if Abs(a[i].value - a[i - 1].value) > thr {
        a[i] := Sample(a[i].stamp, (a[i - 2].value + a[i - 1].value) / 2);
      }
      assert a[..i + 1] == before + [a[i]];
    }
    assert input[..a.Length] == input;
  }

  // ---------------------------------------------------------------- writing

  /** `f'{data_hora}, {temperatura}\n'`. */
  function FormatLine(s: Sample): string
  {
    s.stamp + ", " + IntToString(s.value) + "\n"
  }

  /** The parse loop of `tratar_offsets`: reads the lines in order, appending one
      sample per line, and stops at the first line that raises. */
  method ParseLines(input: seq<string>) returns (r: Result<seq<Sample>, LineError>)
    ensures r == ParseAll(input)
  {
    ghost var outcomes := LineResults(input);
    var samples: seq<Sample> := [];
    for i := 0 to |input|
      invariant Collect(outcomes[..i]) == Success(samples)
    {
      var parsed := ParseLine(input[i]);
      assert parsed == outcomes[i];
      CollectStep(outcomes, i, samples);
      if parsed.Failure? {
        CollectFailsFrom(outcomes, i + 1);
        return Failure(parsed.error);
      }
      samples := samples + [parsed.value];
    }
    assert outcomes[..|input|] == outcomes;
    return Success(samples);
  }

  /** One more outcome extends a successful collection or ends it with its error. */
  lemma CollectStep(rs: seq<Result<Sample, LineError>>, i: nat, samples: seq<Sample>)
    requires i < |rs| && Collect(rs[..i]) == Success(samples)
    ensures rs[i].Success? ==> Collect(rs[..i + 1]) == Success(samples + [rs[i].value])
    ensures rs[i].Failure? ==> Collect(rs[..i + 1]) == Failure(rs[i].error)
  {
    assert rs[..i + 1][..i] == rs[..i];
  }

  /** The output loop: one formatted line per entry, in order. */
  method WriteLines(a: array<Sample>) returns (lines: seq<string>)
    ensures lines == Lines(a[..], FormatLine)
  {
    lines := [];
    for k := 0 to a.Length
      invariant lines == Lines(a[..k], FormatLine)
    {
      LinesStep(a[..], FormatLine, k);
      assert a[..][..k + 1] == a[..k + 1] && a[..][..k] == a[..k];
      lines := lines + [FormatLine(a[k])];
    }
    assert a[..a.Length] == a[..];
  }

  /** `tratar_offsets` on the lines of the input file: parse every line, smooth the
      series in place, and return the lines of the output file; a line that does not
      parse raises before anything is written. */
  method TreatOffsets(input: seq<string>, thr: int) returns (r: Result<seq<string>, LineError>)
    ensures ParseAll(input).Failure? ==> r == Failure(ParseAll(input).error)
    ensures ParseAll(input).Success? ==> r == Success(Lines(Smoothed(ParseAll(input).value, thr), FormatLine))
  {
    var parsed := ParseLines(input);
    if parsed.Failure? {
      return Failure(parsed.error);
    }
    var samples := parsed.value;
    var a := new Sample[|samples|](k requires 0 <= k < |samples| => samples[k]);
    assert a[..] == samples;
    SmoothInPlace(a, thr);
    var lines := WriteLines(a);
    return Success(lines);
  }

  // ---------------------------------------------------------------- round trip

  /** Reading a line the reader exported gives back its stamp and value. */
  lemma ParseExportedLine(total: nat, value: int)
    ensures ParseLine(ExportLine(total, value)) == Success(Sample(TimeStamp(total), value))
  {
    var stamp, num := TimeStamp(total), IntToString(value);
    TimeStampShape(total);
    IntToStringShape(value);
    var body := stamp + ", " + num;
    assert body[0] == stamp[0] && body[|body| - 1] == num[|num| - 1];
    assert ExportLine(total, value) == body + "\n";
    StripPadded(body, "\n");
    FieldsSplit(stamp, num);
    ParseIntOfIntToString(value);
  }

  /** A comma-free stamp and a comma-free number joined by ", " split back into the
      two of them. */
  lemma FieldsSplit(stamp: string, num: string)
    requires ',' !in stamp && ',' !in num
    ensures Split(stamp + ", " + num, ", ") == [stamp, num]
  {
    FirstCharAbsent(stamp + ", " + num, ", ", |stamp|);
    SplitJoined(stamp, ", ", num);
    FirstCharAbsent(num, ", ", |num|);
    SplitUnbroken(num, ", ");
  }

  /** Writing back a sample read from an exported line reproduces the line. */
  lemma ExportedLineRoundTrip(total: nat, value: int)
    ensures ParseLine(ExportLine(total, value)).Success?
    ensures FormatLine(ParseLine(ExportLine(total, value)).value) == ExportLine(total, value)
  {
    ParseExportedLine(total, value);
  }

  /** The file the reader exports for a series parses back into that series: every
      stamp and every value, in order. */
  lemma ExportedSeriesParses(times: seq<nat>, values: seq<int>)
    requires |times| == |values|
    ensures ParseAll(ExportAll(times, values)).Success?
    ensures |ParseAll(ExportAll(times, values)).value| == |times|
    ensures forall i :: 0 <= i < |times| ==>
      ParseAll(ExportAll(times, values)).value[i] == Sample(TimeStamp(times[i]), values[i])
  {
    var outcomes := LineResults(ExportAll(times, values));
    forall i | 0 <= i < |times| ensures outcomes[i] == Success(Sample(TimeStamp(times[i]), values[i])) {
      ExportedLineParses(times, values, i);
    }
    CollectOutcomes(outcomes);
  }

  lemma ExportedLineParses(times: seq<nat>, values: seq<int>, i: nat)
    requires i < |times| == |values|
    ensures LineResults(ExportAll(times, values))[i] == Success(Sample(TimeStamp(times[i]), values[i]))
  {
    var line := ExportAll(times, values)[i];
    assert line == ExportLine(times[i], values[i]) by { ExportAllLines(times, values); }
    ParseExportedLine(times[i], values[i]);
  }

  /** An exported series without jumps above the threshold passes through the
      smoother unchanged: the treated file is the exported file. */
  lemma SteadySeriesUnchanged(times: seq<nat>, values: seq<int>, thr: int)
    requires |times| == |values|
    requires forall i :: 1 <= i < |values| ==> Abs(values[i] - values[i - 1]) <= thr
    ensures ParseAll(ExportAll(times, values)).Success?
    ensures Lines(Smoothed(ParseAll(ExportAll(times, values)).value, thr), FormatLine) == ExportAll(times, values)
  {
    var lines := ExportAll(times, values);
    ExportedSeriesParses(times, values);
    ExportAllLines(times, values);
    var samples := ParseAll(lines).value;
    NoJumpUnchanged(samples, thr);
    LinesPointwise(samples, FormatLine);
    forall i | 0 <= i < |lines| ensures Lines(samples, FormatLine)[i] == lines[i] {
      ParseExportedLine(times[i], values[i]);
    }
  }
}
