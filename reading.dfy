/** One reading of the display (`identificar_e_exibir` in MultiRead.py): every slot
    gives one entry, in slot order, and a reading with no unreadable entry and at
    least one digit yields the number its digits spell. */
module Reading {
  import opened Wrappers
  import opened PyText
  import opened Imaging
  import opened SevenSegment

  /** A calibrated template has exactly one sample point per segment. */
  const TemplateSize := 7

  type Decimal = d: nat | d < 10

  /** A digit slot: its template of sample points, its threshold, and whether the
      user has chosen to ignore it. */
  datatype Slot = Slot(template: seq<Point>, threshold: int, ignored: bool)

  /** An entry of a reading: "-" for an ignored slot, "?" for a slot that is not
      calibrated or whose pattern is not a digit, otherwise the decoded digit. */
  datatype Entry = Skipped | Unreadable | Digit(d: Decimal)

  /** The entry a slot gives on a frame. */
  function EntryFor(f: Frame, slot: Slot): Entry
    requires f.Valid()
  {
    if slot.ignored then Skipped
    else if |slot.template| != TemplateSize then Unreadable
    else match DecodeDigit(PatternOf(f, slot.template, slot.threshold))
      case None => Unreadable
      case Some(d) => Digit(d)
  }

  function ReadingOf(f: Frame, slots: seq<Slot>): seq<Entry>
    requires f.Valid()
  {
    seq(|slots|, k requires 0 <= k < |slots| => EntryFor(f, slots[k]))
  }

  /** Walks the slots in order and appends one entry per slot: a placeholder for an
      ignored slot, "?" for an uncalibrated one, else the decoded sample. */
  method ReadEntries(f: Frame, slots: seq<Slot>) returns (entries: seq<Entry>)
    requires f.Valid()
    ensures entries == ReadingOf(f, slots)
  {
    entries := [];
    for k := 0 to |slots|
      invariant entries == ReadingOf(f, slots[..k])
    {
      var slot := slots[k];
      var entry;
      if slot.ignored {
        entry := Skipped;
      } else if |slot.template| == TemplateSize {
        var pattern := SegmentPattern(f, slot.template, slot.threshold);
        var d := DecodeDigit(pattern);
        entry := if d.Some? then Digit(d.value) else Unreadable;
      } else {
        entry := Unreadable;
      }
      entries := entries + [entry];
    }
    assert slots[..|slots|] == slots;
  }

  /** A reading has one entry per slot; an entry is a placeholder exactly when its
      slot is ignored, and a slot that is not ignored but lacks a full template reads
      "?". */
  lemma ReadingShape(f: Frame, slots: seq<Slot>)
    requires f.Valid()
    ensures |ReadingOf(f, slots)| == |slots|
    ensures forall k :: 0 <= k < |slots| ==>
      (ReadingOf(f, slots)[k] == Skipped <==> slots[k].ignored) &&
      (!slots[k].ignored && |slots[k].template| != TemplateSize ==> ReadingOf(f, slots)[k] == Unreadable)
  {
  }

  /** A non-ignored, calibrated slot reads digit d exactly when the seven sampled
      segments are the standard glyph of d; any other pattern reads "?". */
  lemma EntryIsDigitIffGlyph(f: Frame, slot: Slot, d: Decimal)
    requires f.Valid()
    ensures EntryFor(f, slot) == Digit(d) <==>
      !slot.ignored && |slot.template| == TemplateSize &&
      PatternOf(f, slot.template, slot.threshold) == Render(Lit(d))
  {
    var p := PatternOf(f, slot.template, slot.threshold);
    if !slot.ignored && |slot.template| == TemplateSize {
      if p == Render(Lit(d)) {
        DecodeStandardGlyph(d);
      }
      if DecodeDigit(p).Some? {
        DecodedIsStandardGlyph(p);
      }
    }
  }

  // ---------------------------------------------------------------- the number

  /** How an entry is shown: `str` of the digit, or the placeholder characters. */
  function EntryText(e: Entry): string
  {
    match e
    case Skipped => "-"
    case Unreadable => "?"
    case Digit(d) => NatToString(d)
  }

  /** `"".join([d for d in resultado if d != "-"])`. */
  function Numeral(entries: seq<Entry>): string
  {
    if entries == [] then ""
    else (if entries[0] == Skipped then "" else EntryText(entries[0])) + Numeral(entries[1..])
  }

  /** The digits of a reading, in slot order. */
  function Digits(entries: seq<Entry>): seq<Decimal>
  {
    if entries == [] then []
    else (if entries[0].Digit? then [entries[0].d] else []) + Digits(entries[1..])
  }

  /** The number a sequence of decimal digits denotes, most significant first. */
  function DecimalValue(ds: seq<Decimal>): nat
  {
    if ds == [] then 0 else DecimalValue(ds[..|ds| - 1]) * 10 + ds[|ds| - 1]
  }

  function Pow10(n: nat): nat
  {
    if n == 0 then 1 else 10 * Pow10(n - 1)
  }

  function Spell(ds: seq<Decimal>): (s: string)
    ensures |s| == |ds| && AllDigits(s)
  {
    seq(|ds|, i requires 0 <= i < |ds| => DigitChar(ds[i]))
  }

  /** The value a reading records, if it records one: only when no entry is "?"
      and the numeral formed by the remaining digits is not empty, as `int` of it. */
  function Recorded(entries: seq<Entry>): Option<int>
  {
    if Unreadable !in entries && Numeral(entries) != "" then ParseInt(Numeral(entries)) else None
  }

  /** A reading records a value exactly when no entry is "?" and some entry is a
      digit, and the value is the number its digits spell in slot order. */
  lemma RecordedValue(entries: seq<Entry>)
    ensures Recorded(entries).Some? <==> Unreadable !in entries && Digits(entries) != []
    ensures Recorded(entries).Some? ==> Recorded(entries).value == DecimalValue(Digits(entries))
  {
    if Unreadable !in entries {
      var numero := Numeral(entries);
      NumeralSpellsDigits(entries);
      DigitsValueOfSpell(Digits(entries));
      if numero != "" {
        ParseIntDigits(numero);
      }
    }
  }

  lemma {:induction false} NumeralSpellsDigits(entries: seq<Entry>)
    requires Unreadable !in entries
    ensures Numeral(entries) == Spell(Digits(entries))
  {
    if entries != [] {
      assert Unreadable !in entries[1..] by {
        forall e | e in entries[1..] ensures e != Unreadable { assert e in entries; }
      }
      NumeralSpellsDigits(entries[1..]);
      var rest := Digits(entries[1..]);
      if entries[0].Digit? {
        assert Spell([entries[0].d] + rest) == [DigitChar(entries[0].d)] + Spell(rest);
      } else {
        assert [] + rest == rest;
      }
    }
  }

  lemma {:induction false} DigitsValueOfSpell(ds: seq<Decimal>)
    ensures DigitsValue(Spell(ds)) == DecimalValue(ds)
    decreases |ds|
  {
    if ds != [] {
      var front := ds[..|ds| - 1];
      DigitsValueOfSpell(front);
      assert Spell(ds)[..|ds| - 1] == Spell(front);
    }
  }

  /** A recorded value is a non-negative number of at most as many digits as there
      are digit slots; with four slots it never exceeds 9999. */
  lemma {:induction false} DecimalValueBound(ds: seq<Decimal>)
    ensures DecimalValue(ds) < Pow10(|ds|)
    decreases |ds|
  {
    if ds != [] {
      DecimalValueBound(ds[..|ds| - 1]);
    }
  }

  lemma {:induction false} Pow10Monotone(m: nat, n: nat)
    requires m <= n
    ensures Pow10(m) <= Pow10(n)
    decreases n
  {
    if m < n {
      Pow10Monotone(m, n - 1);
    }
  }

  /** A recorded value has at most as many digits as there are slots: it is below
      10^|slots|, so the four slots of the display never record more than 9999. */
  lemma RecordedBound(f: Frame, slots: seq<Slot>)
    requires f.Valid()
    ensures Recorded(ReadingOf(f, slots)).Some? ==> Recorded(ReadingOf(f, slots)).value < Pow10(|slots|)
    ensures |slots| == 4 && Recorded(ReadingOf(f, slots)).Some? ==> Recorded(ReadingOf(f, slots)).value <= 9999
  {
    var entries := ReadingOf(f, slots);
    RecordedValue(entries);
    if Recorded(entries).Some? {
      DigitsPresent(entries);
      DecimalValueBound(Digits(entries));
      Pow10Monotone(|Digits(entries)|, |slots|);
      assert Pow10(4) == 10000;
    }
  }

  /** Once no entry is "?", a reading has digits exactly when some slot is not
      ignored, and never more digits than slots. */
  lemma {:induction false} DigitsPresent(entries: seq<Entry>)
    requires Unreadable !in entries
    ensures |Digits(entries)| <= |entries|
    ensures Digits(entries) != [] <==> exists k :: 0 <= k < |entries| && entries[k] != Skipped
    decreases |entries|
  {
    if entries != [] {
      var tail := entries[1..];
      assert Unreadable !in tail by {
        forall e | e in tail ensures e != Unreadable { assert e in entries; }
      }
      DigitsPresent(tail);
      if exists k :: 0 <= k < |tail| && tail[k] != Skipped {
        var k :| 0 <= k < |tail| && tail[k] != Skipped;
        assert entries[k + 1] != Skipped;
      }
      if exists k :: 0 <= k < |entries| && entries[k] != Skipped {
        var k :| 0 <= k < |entries| && entries[k] != Skipped;
        if k > 0 { assert tail[k - 1] != Skipped; }
      }
    }
  }

  /** A reading of slots on a frame is recorded exactly when every non-ignored slot
      reads a digit and at least one slot is not ignored. */
  lemma ReadingRecordedIff(f: Frame, slots: seq<Slot>)
    requires f.Valid()
    ensures Recorded(ReadingOf(f, slots)).Some? <==>
      (forall k :: 0 <= k < |slots| && !slots[k].ignored ==> EntryFor(f, slots[k]).Digit?) &&
      (exists k :: 0 <= k < |slots| && !slots[k].ignored)
  {
    var entries := ReadingOf(f, slots);
    RecordedValue(entries);
    var allDigits := forall k :: 0 <= k < |slots| && !slots[k].ignored ==> EntryFor(f, slots[k]).Digit?;
    assert Unreadable !in entries <==> allDigits by {
      if Unreadable in entries {
        var k :| 0 <= k < |entries| && entries[k] == Unreadable;
        assert !slots[k].ignored && !EntryFor(f, slots[k]).Digit?;
      }
      if !allDigits {
        var k :| 0 <= k < |slots| && !slots[k].ignored && !EntryFor(f, slots[k]).Digit?;
        assert entries[k] == Unreadable;
      }
    }
    if Unreadable !in entries {
      DigitsPresent(entries);
      assert (exists k :: 0 <= k < |entries| && entries[k] != Skipped) <==>
             (exists k :: 0 <= k < |slots| && !slots[k].ignored) by {
        if exists k :: 0 <= k < |slots| && !slots[k].ignored {
          var k :| 0 <= k < |slots| && !slots[k].ignored;
          assert entries[k] != Skipped;
        }
        if exists k :: 0 <= k < |entries| && entries[k] != Skipped {
          var k :| 0 <= k < |entries| && entries[k] != Skipped;
          assert !slots[k].ignored;
        }
      }
    }
  }

  /** Slots 1, 3 and 4 reading 1, 2 and 3 around an ignored second slot record 123. */
  lemma IgnoredSlotIsSkipped(entries: seq<Entry>)
    requires entries == [Digit(1), Skipped, Digit(2), Digit(3)]
    ensures Recorded(entries) == Some(123)
  {
    var e1, e2, e3 := entries[1..], entries[2..], entries[3..];
    assert e3[1..] == [] && e2[1..] == e3 && e1[1..] == e2;
    assert Digits(e3) == [3];
    assert Digits(e2) == [2, 3];
    assert Digits(e1) == [2, 3];
    assert Digits(entries) == [1, 2, 3];
    RecordedValue(entries);
    DecimalValueOneTwoThree(Digits(entries));
  }

  lemma DecimalValueOneTwoThree(ds: seq<Decimal>)
    requires ds == [1, 2, 3]
    ensures DecimalValue(ds) == 123
  {
    var d1, d2 := ds[..1], ds[..2];
    assert d2[..1] == d1 && d1[..0] == [];
    assert DecimalValue(d1) == 1;
    assert DecimalValue(d2) == 12;
  }
}
