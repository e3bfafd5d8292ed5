# Multimeter reader: a verified model

The Multimeter_Reader repository reads a four-digit seven-segment display from screen
captures. Each digit slot has a calibrated template of seven sample points, one per
segment a..g. The program does the following:

- It probes the luminosity under every point. A point that is darker than the slot's
  threshold counts as a lit segment.
- It decodes the seven-bit pattern with an exact lookup table.
- While a measurement runs, it appends every valid reading, with the elapsed time, to
  two parallel lists.
- When the measurement stops, it exports those lists as `HH:MM:SS, value` lines.
- Drift tracking follows a rectangle around the display from frame to frame and moves
  every template by the displacement it finds.
- A separate utility, `tratar_offsets`, reads an exported file back. It replaces every
  value that jumps by more than a threshold from its already-corrected predecessor with
  the floor average of the two corrected values before it, then writes the series back
  in the same format.

The model is split into these modules:

- `PyText` (`pytext.dfy`): the pieces of Python text handling the program relies on.
  These are `str()` of an integer, the `{:02}` format, `str.strip()`, `str.split()`,
  `int()` on a string, and the lines a loop of `f.write` produces.
- `Imaging` (`imaging.dfy`): frames, sample points, Python's truncating `int()` on
  floats, the luminosity probe and Python slice semantics for crops.
- `SevenSegment` (`sevensegment.dfy`): `calcular_digito` as a loop-based method and
  `identificar_digito` as a table lookup. It also counts which of the 128 seven-bit
  patterns decode.
- `Reading` (`reading.dfy`): one reading of all slots (`identificar_e_exibir`) and the
  value it records.
- `Tracking` (`tracking.dfy`): the four-click bounding box, the default central
  rectangle, and the translation of templates by the tracked displacement.
- `Export` (`export.dfy`): `exportar_dados_para_txt`, its time arithmetic and line
  format, with a reader for stamps that shows no information is lost.
- `Session` (`session.dfy`): the module-level globals of `MultiRead.py`, gathered into
  one class. Each callback or loop step becomes a method that updates the class's fields.
- `Offsets` (`offsets.dfy`): `tratar_offsets`, with its parse loop, in-place smoothing
  pass over an array and output loop. It also proves that an exported file parses back
  into its series, and that an exported series with no jump above the threshold comes
  out of the utility unchanged.
- `Wrappers` (`wrappers.dfy`): `Option` and `Result`.

Two behaviours of the code are modelled as written:

- The luminosity probe truncates coordinates toward zero, as `int()` does
  (MultiRead.py:124), rather than rounding to the nearest pixel.
- A rectangle selected with four clicks is never stored as the tracking rectangle,
  although the comment at MultiRead.py:351 and the message printed at MultiRead.py:358
  ("tracking region defined") show that storing it is the intent. See Findings.

## Model

| member | source | states |
|---|---|---|
| Imaging.Trunc | MultiRead.py:124 | `int()` of a float rounds toward zero: for r >= 0 the result is the largest integer not above r, for r < 0 the smallest integer not below r |
| Imaging.Luminosity | MultiRead.py:122-127 | the reading is a byte; it is the pixel at the truncated coordinates when they fall inside the frame, and 0 (dark) otherwise, never an error |
| Imaging.LuminosityOfCoveringPixel | MultiRead.py:123-126 | a point with non-negative coordinates reads the pixel whose unit square contains it |
| Imaging.LuminosityNearNegativeEdge | MultiRead.py:124-126 | because of truncation, a point less than one pixel above and left of the frame reads pixel (0, 0) rather than dark |
| Imaging.LuminosityOutsideIsDark | MultiRead.py:124-127 | a point at or beyond -1, or at or beyond the width or height, reads 0 |
| Imaging.PySlice | MultiRead.py:324 | a Python slice is never longer than the sequence, is the exact sub-sequence when 0 <= lo <= hi <= length, and is empty when 0 <= hi <= lo; negative and out-of-range bounds are covered by `PySliceNegative` and `PySliceClamped` |
| Imaging.PySliceNegative | MultiRead.py:324 | a negative bound no smaller than minus the length stands for that bound plus the length |
| Imaging.PySliceClamped | MultiRead.py:324 | a start before minus the length acts as 0, an end before minus the length gives the empty slice, and an end past the length acts as the length |
| Imaging.CropInside | MultiRead.py:324 | a rectangle inside the frame is copied exactly: h rows of w pixels, patch pixel (i, j) being frame pixel (y + i, x + j) |
| Imaging.Crop | MultiRead.py:324 | `frame[y:y+h, x:x+w]` with Python's clipping of slice bounds; characterised by `CropInside` for rectangles inside the frame |
| SevenSegment.SegmentPattern | MultiRead.py:138-143 | the pattern has one character per sample point; character i is '1' exactly when point i's luminosity is strictly below the threshold and '0' otherwise; the loop computes `PatternOf` |
| SevenSegment.OutsidePointActiveIffPositiveThreshold | MultiRead.py:125-142 | a point outside the frame counts as a lit segment exactly when the threshold is positive |
| SevenSegment.PatternOf | MultiRead.py:138-143 | the pattern a template gives on a frame, one '0'/'1' per point; `SegmentPattern` states its characters and proves the loop computes it |
| SevenSegment.Active | MultiRead.py:140-142 | whether a point's segment counts as lit: characterised by `SegmentPattern` ('1' exactly when the luminosity is below the threshold) and `OutsidePointActiveIffPositiveThreshold` |
| SevenSegment.DecodeDigit | MultiRead.py:129-136 | a pattern decodes exactly when it is one of the ten table keys, and then to that key's digit, which is below 10 |
| SevenSegment.DecodeStandardGlyph | MultiRead.py:130-135 | the table agrees with the standard glyphs: the rendering of digit d's lit segments decodes to d, for every d |
| SevenSegment.DecodedIsStandardGlyph | MultiRead.py:129-136 | decoding fails closed: a pattern decodes to d only if it is exactly the rendering of d's glyph |
| SevenSegment.DecodeInjective | MultiRead.py:130-135 | no two patterns decode to the same digit |
| SevenSegment.SevenBitPatterns | MultiRead.py:129-136 | there are 128 seven-bit patterns; exactly the ten table keys among them decode, and the all-off pattern reads '?' |
| SevenSegment.BitStringsMembers | MultiRead.py:129-136 | the set of n-bit patterns holds exactly the strings of length n over '0' and '1' |
| SevenSegment.BitStringsCount | MultiRead.py:129-136 | there are 2^n patterns of n bits |
| Reading.ReadEntries | MultiRead.py:238-276 | the slot loop yields `ReadingOf`: one entry per slot, in slot order, each the entry of its slot |
| Reading.ReadingShape | MultiRead.py:240-276 | a reading has one entry per slot; an entry is "-" exactly when its slot is ignored; a slot that is not ignored but has no seven-point template reads "?" |
| Reading.EntryIsDigitIffGlyph | MultiRead.py:242-247 | a slot reads digit d exactly when it is not ignored, has seven points, and its sampled pattern is the glyph of d |
| Reading.RecordedValue | MultiRead.py:279-283 | a reading records a value exactly when no entry is "?" and some entry is a digit; the value is the number those digits spell in slot order |
| Reading.NumeralSpellsDigits | MultiRead.py:281 | when no entry is "?", the joined non-"-" entries are the reading's digits spelled out in slot order |
| Reading.DigitsValueOfSpell | MultiRead.py:283 | the spelled digits denote the decimal value of the digits |
| Reading.DecimalValueBound | MultiRead.py:281-283 | a value spelled by k digits is below 10^k |
| Reading.DigitsPresent | MultiRead.py:281-282 | with no "?", there are never more digits than slots, and the numeral is non-empty exactly when some entry is not "-" |
| Reading.ReadingRecordedIff | MultiRead.py:238-284 | a frame's reading is recorded exactly when every non-ignored slot reads a digit and at least one slot is not ignored |
| Reading.EntryFor | MultiRead.py:242-248 | the entry of one slot: characterised by `EntryIsDigitIffGlyph` (a digit exactly for an exact glyph on a calibrated, non-ignored slot) and `ReadingShape` ("-" exactly when ignored, "?" when uncalibrated) |
| Reading.ReadingOf | MultiRead.py:240-275 | one entry per slot, in slot order (`ReadingShape`); recorded exactly as `ReadingRecordedIff` states |
| Reading.Recorded | MultiRead.py:277-283 | the value a reading records: characterised by `RecordedValue` (present exactly when there is no "?" and some digit, equal to the decimal value of the digits) |
| Reading.EntryText | MultiRead.py:243-249 | how an entry is shown: "-", "?" or `str` of the digit; `NumeralSpellsDigits` states what the non-"-" texts join to |
| Reading.Numeral | MultiRead.py:281 | the join of the non-"-" entry texts: characterised by `NumeralSpellsDigits` (with no "?" it spells the digits in slot order) |
| Reading.RecordedBound | MultiRead.py:277-283 | a recorded value is below 10^(number of slots), so the four slots of the display never record more than 9999 |
| Reading.IgnoredSlotIsSkipped | MultiRead.py:279-283 | entries 1, -, 2, 3 record 123 |
| PyText.NatToStringLength | MultiRead.py:107 | `str(n)` has one digit below 10, at most two below 100, and starts with '0' only for zero |
| PyText.DigitsValueOfNatToString | MultiRead.py:107 | the digits of `str(n)` denote n |
| PyText.IntToStringShape | MultiRead.py:107 | `str(v)` is non-empty, holds no comma, and starts and ends with a non-space character |
| PyText.Pad2Shape | MultiRead.py:107 | `{:02}` gives only digits, at least two of them, and exactly two below 100 |
| PyText.Pad2Value | MultiRead.py:107 | a zero-padded field denotes the number it was made from |
| PyText.StripPadded | Trata.py:9 | stripping a string that starts and ends with a non-space character, followed by any whitespace, gives back that string |
| PyText.Find | Trata.py:9 | `str.find` returns the first index at which the separator occurs, or none when it occurs nowhere |
| PyText.SplitUnbroken | Trata.py:9 | a string in which the separator occurs at no position splits into itself alone |
| PyText.SplitJoined | Trata.py:9 | joining a head to any tail with the separator, then splitting, gives the head as the first piece followed by the pieces of the tail, whenever no occurrence of the separator starts inside the head (with head "a" and separator "aa" one does, and the first piece is empty) |
| PyText.ParseIntDigits | Trata.py:11 | `int()` of a non-empty string of digits is the number the digits denote |
| PyText.ParseIntNeedsDigit | Trata.py:11 | `int()` succeeds only on a string that contains a digit |
| PyText.ParseIntNegative | Trata.py:11 | `int()` of '-' followed by digits is the negated value of the digits |
| PyText.ParseIntOfIntToString | Trata.py:11 | `int(str(v)) == v` for every integer v, negative ones included |
| PyText.LinesPointwise | Trata.py:27-28 | line i of a write loop is the line of item i, and there is one line per item |
| PyText.NatToString | MultiRead.py:107 | `str(n)` is a non-empty string of digits; `DigitsValueOfNatToString` and `NatToStringLength` state its value and length |
| PyText.IntToString | MultiRead.py:107 | `str(v)` of any integer; `IntToStringShape` states its shape and `ParseIntOfIntToString` that `int()` inverts it |
| PyText.Pad2 | MultiRead.py:107 | `{:02}`; `Pad2Shape` and `Pad2Value` state that it is at least two digits denoting n |
| PyText.Strip | Trata.py:9 | `str.strip()` is no longer than its input and the result, if any, starts and ends with a non-space character; `StripPadded` states it removes trailing whitespace |
| PyText.FirstCharAbsent | Trata.py:9 | the separator cannot occur at a position where its first character is absent; this discharges the conditions of `SplitJoined` and `SplitUnbroken` for digit stamps and numbers |
| PyText.Split | Trata.py:9 | `str.split(sep)` gives at least one piece; `SplitUnbroken` and `SplitJoined` state how it cuts at the separator |
| PyText.ParseInt | Trata.py:11 | `int()` of a string: characterised by `ParseIntDigits`, `ParseIntNegative`, `ParseIntNeedsDigit` and `ParseIntOfIntToString` |
| Export.ClockFields | MultiRead.py:103-106 | minutes and seconds are below 60, and hours*3600 + minutes*60 + seconds is the elapsed time |
| Export.Hours | MultiRead.py:104 | `total_seconds // 3600`; characterised by `ClockFields` |
| Export.Minutes | MultiRead.py:105 | `(total_seconds % 3600) // 60`; `ClockFields` states it is below 60 |
| Export.Seconds | MultiRead.py:106 | `total_seconds % 60`; `ClockFields` states it is below 60 and that the three fields recompose the total |
| Export.TimeStampShape | MultiRead.py:104-107 | a stamp is at least `HH:MM:SS` long, holds no comma, and starts and ends with a digit |
| Export.Zip | MultiRead.py:102 | `zip` pairs the two lists position by position and stops at the shorter one |
| Export.ExportAllLines | MultiRead.py:100-108 | the file has one line per pair of `zip(tempos, digitos_por_tempo)`; line i is the stamp of time i, ", ", the value i and a newline |
| Export.ExportLines | MultiRead.py:100-108 | the export loop writes exactly `ExportAll`, the lines in order |
| Export.StampRoundTrip | MultiRead.py:103-107 | reading a stamp back as hours, minutes and seconds gives the elapsed seconds it was made from, however many hours they span |
| Export.TimeStamp | MultiRead.py:103-107 | the `HH:MM:SS` stamp of an elapsed time; `TimeStampShape` states its shape and `StampRoundTrip` that it loses nothing |
| Export.ExportLine | MultiRead.py:107 | one exported line: the stamp, ", ", `str` of the value and a newline; `ParseExportedLine` proves it parses back to the stamp and value |
| Export.ExportAll | MultiRead.py:100-108 | the exported file; `ExportAllLines` states its lines and `ExportedSeriesParses` that it parses back into the series |
| Tracking.MinOf | MultiRead.py:354 | `min` of a non-empty list is one of its elements and is at most every element |
| Tracking.MaxOf | MultiRead.py:355 | `max` of a non-empty list is one of its elements and is at least every element |
| Tracking.BoundingBox | MultiRead.py:350-356 | the rectangle has non-negative width and height, its corner is the truncation of some click's x and of some click's y, and every truncated click lies between the corner and the corner plus the extent plus one (the truncation slack) |
| Tracking.BoundingBoxWidth | MultiRead.py:352-356 | some click i is leftmost and some click j rightmost, and the rectangle's x is `int(x_i)` and its width `int(x_j - x_i)` |
| Tracking.BoundingBoxHeight | MultiRead.py:352-356 | some click i is topmost and some click j bottommost, and the rectangle's y is `int(y_i)` and its height `int(y_j - y_i)` |
| Tracking.Xs | MultiRead.py:352 | the x coordinates of the clicks, one per click in order; used by `BoundingBoxWidth` |
| Tracking.Ys | MultiRead.py:353 | the y coordinates of the clicks, one per click in order; used by `BoundingBoxHeight` |
| Tracking.BoundingBoxOrderFree | MultiRead.py:352-356 | the corners may be clicked in any order: the same clicks in another order give the same rectangle |
| Tracking.CentralBox | MultiRead.py:327-328 | the default rectangle `(w//4, h//4, w//2, h//2)` lies inside the frame, spans half its width and height rounded down, and is centred: the right (lower) margin is at least the left (upper) one and at most two pixels more |
| Tracking.CentralPatch | MultiRead.py:327-330 | the default reference patch is exactly the central h//2 rows of w//2 pixels of the frame |
| Tracking.TranslateAllMovesEveryPoint | MultiRead.py:444-449 | every template keeps its length, and every point of every template moves by exactly (dx, dy); empty templates stay empty |
| Tracking.DriftKeepsOffsetsToBox | MultiRead.py:437-449 | after a tracking step, every sample point keeps its offset from the rectangle's origin |
| Tracking.TranslateAllComposes | MultiRead.py:444-449 | two translations add up to one translation by the summed displacement |
| Tracking.TwoStepsTelescope | MultiRead.py:437-449 | two tracking steps move the templates as one step from the first origin straight to the second match would |
| Tracking.PatchOf | MultiRead.py:322-330 | the reference patch under a rectangle, taken again after each tracking step (line 442); `CentralPatch` states it pixel by pixel for the default rectangle |
| Tracking.Translate | MultiRead.py:445-446 | `atualizar_template`; `TranslateAllMovesEveryPoint` states that every point moves by exactly (dx, dy) |
| Tracking.TranslateAll | MultiRead.py:445-449 | the four guarded template updates; characterised by `TranslateAllMovesEveryPoint`, `DriftKeepsOffsetsToBox` and `TranslateAllComposes` |
| Offsets.CollectOutcomes | Trata.py:8-12 | the file parses exactly when every line does, each line then giving the sample at its position; otherwise the error is that of the first line that fails |
| Offsets.CollectFailsFrom | Trata.py:8-12 | once a prefix of the lines fails, the whole file fails with that error |
| Offsets.ParseLines | Trata.py:8-12 | the parse loop computes `ParseAll`: the samples in order, or the first line's error |
| Offsets.ParseLine | Trata.py:9-11 | reading one line: `IndexError` without a second field, `ValueError` when it is not an integer, else the stamp and value; `ParseExportedLine` proves an exported line reads back exactly |
| Offsets.Collect | Trata.py:8-12 | the samples of the lines in order, or the first error; `CollectOutcomes` states both directions |
| Offsets.LineResults | Trata.py:8-11 | the outcome of reading each line, one per line in order; `CollectOutcomes` states how the file's outcome follows from them |
| Offsets.ParseAll | Trata.py:8-12 | the parsed file, characterised by `CollectOutcomes` and `ExportedSeriesParses` |
| Offsets.Smoothed | Trata.py:16-24 | the smoothed series keeps its length; `SmoothedFollowsRule` and `SmoothingUnique` characterise it as the one series following the rule, and `SmoothedIdempotent` shows a second pass changes nothing |
| Offsets.FormatLine | Trata.py:28 | `f'{data_hora}, {temperatura}\n'`; `ExportedLineRoundTrip` proves it rebuilds an exported line from its parsed sample |
| Offsets.Corrected | Trata.py:17-24 | the stamp is kept; an entry that does not jump by more than `thr` from the previous one is kept; a jumping one gets the floor average of the two previous values |
| Offsets.Abs | Trata.py:21 | Python's `abs`; it decides a jump in `Corrected` and `NoJumpUnchanged` |
| Offsets.SmoothedPrefix | Trata.py:16-24 | smoothing a prefix gives the prefix of the smoothed series: no entry depends on later ones |
| Offsets.SmoothedFollowsRule | Trata.py:16-24 | the length and every stamp are kept; the first two entries (so the whole of a series shorter than 3) are unchanged; each later entry is the input entry corrected against the two already-corrected entries before it |
| Offsets.SmoothingUnique | Trata.py:16-24 | any series that follows the rule is the smoothed series |
| Offsets.NoJumpUnchanged | Trata.py:21 | a series whose consecutive values never differ by more than `thr` is unchanged |
| Offsets.SmoothedIdempotent | Trata.py:16-24 | smoothing the output again with the same threshold changes nothing, for any threshold |
| Offsets.CascadingSpike | Trata.py:17-24 | corrections cascade: with threshold 9 the values 10, 10, 55, 56, 12 become 10, 10, 10, 10, 12 |
| Offsets.SmoothInPlace | Trata.py:16-24 | the in-place pass over the array leaves exactly `Smoothed` of the original contents |
| Offsets.WriteLines | Trata.py:26-28 | the output loop writes one formatted line per entry, in order |
| Offsets.TreatOffsets | Trata.py:3-28 | a file with a bad line fails with that line's error; otherwise the output is the formatted smoothed series |
| Offsets.ParseExportedLine | Trata.py:9-11 | a line the reader exported parses back to its stamp and value, any value sign included |
| Offsets.ExportedLineRoundTrip | Trata.py:28 | writing back a sample parsed from an exported line reproduces the line |
| Offsets.ExportedSeriesParses | Trata.py:8-12 | an exported file parses into its series: one sample per recorded pair, with that pair's stamp and value |
| Offsets.SteadySeriesUnchanged | Trata.py:8-28 | an exported series without jumps above the threshold comes out of the utility as the same file |
| Session.Session.constructor | MultiRead.py:17-47 | start-up state: the saved templates, nothing ignored, nothing recorded, no tracking, no rectangle, no border selection |
| Session.Session.Slots | MultiRead.py:242-273 | slot k is template k with threshold 100 and ignore flag k |
| Session.Session.IdentifyAndRecord | MultiRead.py:238-284 | the entries are the frame's reading of the slots; a recorded reading appends the elapsed time and the value to the two lists together; otherwise neither list changes, so the lists stay equally long |
| Session.Session.Record | MultiRead.py:282-284 | the two appends go together, keeping the lists parallel |
| Session.Session.ToggleIgnore | MultiRead.py:201-210 | the check box with the given label flips its slot's flag; every other flag, and every flag for an unknown label, is kept |
| Session.Session.StartStop | MultiRead.py:401-422 | starting empties both lists and keeps the templates; stopping keeps the lists, returns the exported file `ExportAll` of them, and restores the saved templates |
| Session.Session.ToggleTracking | MultiRead.py:315-335 | switching on takes the patch under the rectangle, first setting the central rectangle when there is none; switching off drops the patch and keeps the rectangle |
| Session.Session.TrackStep | MultiRead.py:432-449 | with tracking on, a rectangle and a patch, the rectangle moves to the match keeping its size, the patch is retaken there, and the templates are translated by the origin's displacement; otherwise nothing changes |
| Session.Session.SelectBorder | MultiRead.py:307-310 | border selection starts afresh with no points |
| Session.Session.ClickBorderAsWritten | MultiRead.py:339-358 | as written: while selecting, the click is collected and the fourth one ends the selection; the rectangle is not stored |
| Session.Session.ClickBorder | MultiRead.py:339-358 | as intended: the fourth click also stores the bounding box of the four points as the rectangle |
| Session.FourClicksAsWritten | MultiRead.py:339-358 | in a fresh session, four border clicks as written leave no rectangle, whatever the points |
| Session.FourClicks | MultiRead.py:339-358 | in a fresh session, four border clicks as intended leave the bounding box of the four points as the rectangle |
| Session.BorderSelectionCounterexample | MultiRead.py:350-356 | the corners (10, 20), (40, 20), (40, 60), (10, 60) leave no rectangle as written and the rectangle (10, 20, 30, 40) as intended |
| Session.CornersBox | MultiRead.py:352-356 | those four corners span the rectangle (10, 20, 30, 40) |

## Left out

- Screen capture and the float `zoom` sizing of the capture region are left out, because they are I/O and floating point. The processed frame and the plain grayscale frame are parameters.
- Brightness and contrast adjustment, blur and histogram equalisation are left out, because they are floating point and OpenCV calls. A frame is a given rectangle of bytes.
- Only the grayscale branch of the luminosity probe is modelled. The processed frame is always two-dimensional, so the channel-mean branch never runs on it.
- `cv2.matchTemplate` and `cv2.minMaxLoc` are opaque library calls. The match location is a parameter of `TrackStep`.
- The matplotlib interface (sliders, buttons, drawing and plots) and the `input()` pause are left out, because they are user interface.
- Click events are reduced to their coordinates. The check that a click lands on the preview axes is left out.
- JSON persistence is left out, because it is file I/O. The saved templates given to the constructor and the templates restored on stop are parameters.
- The capture origin, zoom, brightness and contrast settings are left out, because only capture and preprocessing read them.
- Reading and writing files is left out. Files are sequences of lines, each ending in a newline.
- Wall-clock time is left out. The elapsed time of a sample is given as whole seconds, which is the only form in which the export uses it.
- Template placement by clicking is left out. It uses a dictionary `posicionando` that the program never defines at module level, so that path raises `NameError`. Here a click outside a border selection changes nothing.
- The endless capture loop is left out. One tracking step and one reading are separate methods.
- The thresholds are the constant 100 per slot, because nothing in the program changes them.
- Click coordinates and template points are exact reals rather than binary floating point.
- `str.strip()` and `int()` handle ASCII whitespace only. `int()` does not model underscores between digits, or non-ASCII digits.

## Findings

| source | as written | input that shows it | evidently intended | confidence | as-written member | corrected member |
|---|---|---|---|---|---|---|
| MultiRead.py:339-358 | `on_click` declares only `selecionando_borda` and `tracking_bbox_points` global. Its assignment to `tracking_bbox` therefore binds a local name, and the computed rectangle is discarded when the callback returns. | clicks at (10, 20), (40, 20), (40, 60), (10, 60) after "select border": no rectangle is stored, so tracking falls back to the central half of the frame | the fourth click stores the rectangle (10, 20, 30, 40) as the tracking rectangle | not executed | Session.FourClicksAsWritten | Session.FourClicks |
