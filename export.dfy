/** The series export of MultiRead.py (`exportar_dados_para_txt`): one line
    `HH:MM:SS, value` per recorded sample, the time being the whole seconds
    elapsed since the measurement started. */
module Export {
  import opened Wrappers
  import opened PyText

  function Hours(total: nat): nat { total / 3600 }

  function Minutes(total: nat): nat { (total % 3600) / 60 }

  function Seconds(total: nat): nat { total % 60 }

  /** The three fields split the elapsed time exactly, minutes and seconds below 60
      and the hours unbounded. */
  lemma ClockFields(total: nat)
    ensures Minutes(total) < 60 && Seconds(total) < 60
    ensures Hours(total) * 3600 + Minutes(total) * 60 + Seconds(total) == total
  {
  }

  /** `f"{horas:02}:{minutos:02}:{segundos:02}"`. */
  function TimeStamp(total: nat): string
  {
    Pad2(Hours(total)) + ":" + Pad2(Minutes(total)) + ":" + Pad2(Seconds(total))
  }

  /** A stamp is at least `HH:MM:SS` long, holds no comma, and begins and ends with
      a digit. */
  lemma TimeStampShape(total: nat)
    ensures var t := TimeStamp(total);
      |t| >= 8 && ',' !in t && IsDigit(t[0]) && IsDigit(t[|t| - 1]) && !IsSpace(t[0]) && !IsSpace(t[|t| - 1])
  {
    Pad2Shape(Hours(total));
    Pad2Shape(Minutes(total));
    Pad2Shape(Seconds(total));
    StampShape(Pad2(Hours(total)), Pad2(Minutes(total)), Pad2(Seconds(total)));
  }

  /** Digit fields joined by ':' hold no comma and begin and end with a digit. */
  lemma StampShape(h: string, m: string, s: string)
    requires |h| > 0 && |s| > 0 && AllDigits(h) && AllDigits(m) && AllDigits(s)
    ensures var t := h + ":" + m + ":" + s;
      ',' !in t && IsDigit(t[0]) && IsDigit(t[|t| - 1]) && !IsSpace(t[0]) && !IsSpace(t[|t| - 1])
  {
    var t := h + ":" + m + ":" + s;
    forall i | 0 <= i < |t| ensures t[i] != ',' {
      if i < |h| { assert t[i] == h[i]; }
      else if i == |h| { }
      else if i < |h| + 1 + |m| { assert t[i] == m[i - |h| - 1]; }
      else if i == |h| + 1 + |m| { }
      else { assert t[i] == s[i - |h| - |m| - 2]; }
    }
    assert t[0] == h[0] && t[|t| - 1] == s[|s| - 1];
  }

  /** One exported line. */
  function ExportLine(total: nat, value: int): string
  {
    TimeStamp(total) + ", " + IntToString(value) + "\n"
  }

  function Min(a: nat, b: nat): nat { if a < b then a else b }

  /** Python's `zip(tempos, digitos_por_tempo)`: the pairs up to the shorter list. */
  function Zip(times: seq<nat>, values: seq<int>): (pairs: seq<(nat, int)>)
    ensures |pairs| == Min(|times|, |values|)
    ensures forall i :: 0 <= i < |pairs| ==> pairs[i] == (times[i], values[i])
  {
    seq(Min(|times|, |values|), i requires 0 <= i < Min(|times|, |values|) => (times[i], values[i]))
  }

  function ExportPair(p: (nat, int)): string
  {
    ExportLine(p.0, p.1)
  }

  /** The exported file. */
  function ExportAll(times: seq<nat>, values: seq<int>): seq<string>
  {
    Lines(Zip(times, values), ExportPair)
  }

  /** Line i of the file is the stamp and value of the i-th recorded sample, and the
      pairing stops at the shorter list. */
  lemma ExportAllLines(times: seq<nat>, values: seq<int>)
    ensures |ExportAll(times, values)| == Min(|times|, |values|)
    ensures forall i :: 0 <= i < Min(|times|, |values|) ==>
      ExportAll(times, values)[i] == ExportLine(times[i], values[i])
  {
    LinesPointwise(Zip(times, values), ExportPair);
  }

  /** The export loop: writes the lines in order, one per recorded pair. */
  method ExportLines(times: seq<nat>, values: seq<int>) returns (lines: seq<string>)
    ensures lines == ExportAll(times, values)
  {
    var pairs := Zip(times, values);
    lines := [];
    for i := 0 to |pairs|
      invariant lines == Lines(pairs[..i], ExportPair)
    {
      LinesStep(pairs, ExportPair, i);
      var (t, d) := pairs[i];
      lines := lines + [ExportLine(t, d)];
    }
    assert pairs[..|pairs|] == pairs;
  }

  // ---------------------------------------------------------------- reading a stamp back

  /** The elapsed seconds a stamp denotes: three ':'-separated fields of decimal
      digits, read as hours, minutes and seconds. */
  function StampSeconds(t: string): Option<nat>
  {
    ClockValue(Split(t, ":"))
  }

  predicate IsField(f: string) { |f| > 0 && AllDigits(f) }

  function ClockValue(fields: seq<string>): Option<nat>
  {
    if |fields| == 3 && IsField(fields[0]) && IsField(fields[1]) && IsField(fields[2])
    then Some(DigitsValue(fields[0]) * 3600 + DigitsValue(fields[1]) * 60 + DigitsValue(fields[2]))
    else None
  }

  /** A stamp loses nothing: reading it back gives the elapsed seconds it was made
      from, however many hours they span. */
  lemma StampRoundTrip(total: nat)
    ensures StampSeconds(TimeStamp(total)) == Some(total)
  {
    ClockFields(total);
    StampSplits(total);
    FieldsRoundTrip(Split(TimeStamp(total), ":"), total, Hours(total), Minutes(total), Seconds(total));
  }

  lemma StampSplits(total: nat)
    ensures Split(TimeStamp(total), ":") == [Pad2(Hours(total)), Pad2(Minutes(total)), Pad2(Seconds(total))]
  {
    Pad2Shape(Hours(total));
    Pad2Shape(Minutes(total));
    Pad2Shape(Seconds(total));
    SplitFields(Pad2(Hours(total)), Pad2(Minutes(total)), Pad2(Seconds(total)));
  }

  /** Zero-padded fields read back as the numbers they were made from. */
  lemma FieldsRoundTrip(fields: seq<string>, total: nat, h: nat, m: nat, s: nat)
    requires fields == [Pad2(h), Pad2(m), Pad2(s)]
    requires h * 3600 + m * 60 + s == total
    ensures ClockValue(fields) == Some(total)
  {
    Pad2Shape(h);
    Pad2Shape(m);
    Pad2Shape(s);
    Pad2Value(h);
    Pad2Value(m);
    Pad2Value(s);
  }

  /** Three fields of digits joined by ':' split back into the same three fields. */
  lemma SplitFields(h: string, m: string, s: string)
    requires AllDigits(h) && AllDigits(m) && AllDigits(s)
    ensures Split(h + ":" + m + ":" + s, ":") == [h, m, s]
  {
    assert ':' !in s by { assert forall i :: 0 <= i < |s| ==> IsDigit(s[i]); }
    assert h + ":" + m + ":" + s == h + ":" + (m + ":" + s);
    FirstCharAbsent(h + ":" + (m + ":" + s), ":", |h|);
    SplitJoined(h, ":", m + ":" + s);
    FirstCharAbsent(m + ":" + s, ":", |m|);
    SplitJoined(m, ":", s);
    FirstCharAbsent(s, ":", |s|);
    SplitUnbroken(s, ":");
  }
}
