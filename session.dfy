/** The state MultiRead.py keeps in module-level globals, gathered into one object:
    the four digit templates and their ignore flags, the recorded series, and the
    tracking state. Each method is one of the callbacks or loop steps that update
    those globals. */
module Session {
  import opened Wrappers
  import opened Imaging
  import opened Reading
  import opened Tracking
  import opened Export

  /** The display has four digit slots, D0..D3. */
  const SlotCount := 4

  /** `threshold_template`: every slot's threshold is 100 and nothing changes it. */
  const Thresholds: seq<int> := [100, 100, 100, 100]

  /** The labels of the four ignore check boxes, in slot order. */
  const IgnoreLabels: seq<string> := ["Ignorar D0", "Ignorar D1", "Ignorar D2", "Ignorar D3"]

  /** The four-slot template sequence in which every slot is uncalibrated. */
  function NoTemplates(): (ts: seq<seq<Point>>)
    ensures |ts| == SlotCount && forall k :: 0 <= k < SlotCount ==> ts[k] == []
  {
    [[], [], [], []]
  }

  class Session {
    /** `template_d0` .. `template_d3`. */
    var templates: seq<seq<Point>>
    /** `ignore_digits["0"]` .. `ignore_digits["3"]`. */
    var ignored: seq<bool>
    /** `medicao_ativa`. */
    var measuring: bool
    /** `tempos`, as whole seconds elapsed since the measurement started. */
    var times: seq<nat>
    /** `digitos_por_tempo`. */
    var values: seq<int>
    /** `tracking_ativo`. */
    var tracking: bool
    /** `tracking_bbox`. */
    var bbox: Option<Box>
    /** `tracking_template`: the reference patch the tracker looks for. */
    var patch: Option<seq<seq<int>>>
    /** `selecionando_borda` and `tracking_bbox_points`. */
    var selecting: bool
    var borderPoints: seq<Point>

    /** Four slots, two parallel recorded lists of equal length, and fewer than four
        border points while a selection is in progress. */
    ghost predicate Valid()
      reads this
    {
      |templates| == SlotCount && |ignored| == SlotCount &&
      |times| == |values| &&
      (selecting ==> |borderPoints| < 4)
    }

    /** The state at start-up: the templates the configuration file yields, nothing
        ignored, nothing recorded, no tracking and no border selection. */
    constructor (saved: seq<seq<Point>>)
      requires |saved| == SlotCount
      ensures Valid()
      ensures templates == saved && ignored == [false, false, false, false]
      ensures !measuring && times == [] && values == []
      ensures !tracking && bbox == None && patch == None
      ensures !selecting && borderPoints == []
    {
      templates := saved;
      ignored := [false, false, false, false];
      measuring := false;
      times := [];
      values := [];
      tracking := false;
      bbox := None;
      patch := None;
      selecting := false;
      borderPoints := [];
    }

    /** The slots as the reader sees them. */
    function Slots(): (slots: seq<Slot>)
      reads this`templates, this`ignored
      requires |templates| == SlotCount && |ignored| == SlotCount
      ensures |slots| == SlotCount
      ensures forall k :: 0 <= k < SlotCount ==>
        slots[k] == Slot(templates[k], Thresholds[k], ignored[k])
    {
      var ts, flags := templates, ignored;
      seq(SlotCount, k requires 0 <= k < SlotCount => Slot(ts[k], Thresholds[k], flags[k]))
    }

    // ------------------------------------------------------------ reading and recording

    /** `identificar_e_exibir`: reads the four slots and, when the reading is valid,
        appends its value and the elapsed time to the two recorded lists together;
        otherwise neither list changes. */
    method IdentifyAndRecord(elapsed: nat, f: Frame) returns (entries: seq<Entry>)
      requires Valid() && f.Valid()
      modifies this`times, this`values
      ensures Valid()
      ensures entries == ReadingOf(f, Slots())
      ensures Recorded(entries).Some? ==>
        times == old(times) + [elapsed] && values == old(values) + [Recorded(entries).value]
      ensures Recorded(entries).None? ==> times == old(times) && values == old(values)
    {
      entries := ReadEntries(f, Slots());
      Record(elapsed, Recorded(entries));
    }

    /** The two appends of a valid reading, which keep the lists parallel. */
    method Record(elapsed: nat, v: Option<int>)
      requires Valid()
      modifies this`times, this`values
      ensures Valid()
      ensures v.Some? ==> times == old(times) + [elapsed] && values == old(values) + [v.value]
      ensures v.None? ==> times == old(times) && values == old(values)
    {
      if v.Some? {
        values := values + [v.value];
        times := times + [elapsed];
      }
    }

    /** `ignore_callback`: the check box with the given label flips its slot's flag;
        any other label changes nothing. */
    method ToggleIgnore(caption: string)
      requires Valid()
      modifies this`ignored
      ensures Valid()
      ensures forall k :: 0 <= k < SlotCount ==>
        ignored[k] == (if caption == IgnoreLabels[k] then !old(ignored[k]) else old(ignored[k]))
    {
      if caption == "Ignorar D0" {
        ignored := ignored[0 := !ignored[0]];
      } else if caption == "Ignorar D1" {
        ignored := ignored[1 := !ignored[1]];
      } else if caption == "Ignorar D2" {
        ignored := ignored[2 := !ignored[2]];
      } else if caption == "Ignorar D3" {
        ignored := ignored[3 := !ignored[3]];
      }
    }

    /** `iniciar_parar`. Starting a measurement empties both recorded lists. Stopping
        it exports the series recorded so far (returned as the lines written) and
        puts back the templates the configuration file holds, discarding any drift
        applied since they were saved. */
    method StartStop(restored: seq<seq<Point>>) returns (exported: Option<seq<string>>)
      requires Valid() && |restored| == SlotCount
      modifies this`measuring, this`times, this`values, this`templates
      ensures Valid()
      ensures measuring == !old(measuring)
      ensures measuring ==>
        times == [] && values == [] && templates == old(templates) && exported == None
      ensures !measuring ==>
        times == old(times) && values == old(values) && templates == restored &&
        exported == Some(ExportAll(times, values))
    {
      measuring := !measuring;
      if measuring {
        times := [];
        values := [];
        exported := None;
      } else {
        var lines := ExportLines(times, values);
        exported := Some(lines);
        templates := restored;
      }
    }

    // ------------------------------------------------------------ tracking

    /** `toggle_tracking`. Switching on takes the reference patch from the current
        frame under the rectangle, choosing the central half of the frame first when
        there is no rectangle yet; switching off drops the patch and keeps the
        rectangle. */
    method ToggleTracking(gray: Frame)
      requires Valid()
      modifies this`tracking, this`bbox, this`patch
      ensures Valid()
      ensures tracking == !old(tracking)
      ensures tracking && old(bbox).Some? ==>
        bbox == old(bbox) && patch == Some(PatchOf(gray, old(bbox).value))
      ensures tracking && old(bbox).None? ==>
        bbox == Some(CentralBox(gray)) && patch == Some(PatchOf(gray, CentralBox(gray)))
      ensures !tracking ==> bbox == old(bbox) && patch == None
    {
      tracking := !tracking;
      if tracking {
        if bbox.Some? {
          patch := Some(PatchOf(gray, bbox.value));
        } else {
          var b := CentralBox(gray);
          bbox := Some(b);
          patch := Some(PatchOf(gray, b));
        }
      } else {
        patch := None;
      }
    }

    /** One iteration's tracking step, given the location (mx, my) where the reference
        patch best matches the current frame: the rectangle moves there keeping its
        size, the patch is retaken from the new location, and every non-empty
        template moves by the displacement of the rectangle's origin. Without
        tracking, a rectangle and a patch, nothing changes. */
    method TrackStep(gray: Frame, mx: int, my: int)
      requires Valid()
      modifies this`bbox, this`patch, this`templates
      ensures Valid()
      ensures old(tracking && bbox.Some? && patch.Some?) ==>
        var old_ := old(bbox).value;
        bbox == Some(Box(mx, my, old_.w, old_.h)) &&
        patch == Some(PatchOf(gray, Box(mx, my, old_.w, old_.h))) &&
        templates == TranslateAll(old(templates), mx - old_.x, my - old_.y)
      ensures !old(tracking && bbox.Some? && patch.Some?) ==>
        bbox == old(bbox) && patch == old(patch) && templates == old(templates)
    {
      if tracking && bbox.Some? && patch.Some? {
        var b := bbox.value;
        var dx, dy := mx - b.x, my - b.y;
        var moved := Box(mx, my, b.w, b.h);
        bbox := Some(moved);
        patch := Some(PatchOf(gray, moved));
        templates := TranslateAll(templates, dx, dy);
      }
    }

    /** `selecionar_borda`: starts collecting border points afresh. */
    method SelectBorder()
      requires Valid()
      modifies this`selecting, this`borderPoints
      ensures Valid()
      ensures selecting && borderPoints == []
    {
      selecting := true;
      borderPoints := [];
    }

    /** `on_click` on the preview as written: while selecting, the point is collected
        and the fourth one ends the selection, but the rectangle it computes is bound
        to a local name, so the session's rectangle is left as it was. Outside a
        selection the click changes nothing here. */
    method ClickBorderAsWritten(pt: Point)
      requires Valid()
      modifies this`selecting, this`borderPoints
      ensures Valid()
      ensures old(selecting) ==>
        borderPoints == old(borderPoints) + [pt] && selecting == (|borderPoints| < 4)
      ensures !old(selecting) ==> !selecting && borderPoints == old(borderPoints)
    {
      if selecting {
        borderPoints := borderPoints + [pt];
        if |borderPoints| == 4 {
          var _ := BoundingBox(borderPoints);
          selecting := false;
        }
      }
    }

    /** `on_click` with the rectangle stored in the session, as the selection is
        meant to work: the fourth point also sets the rectangle to the bounding box
        of the four points. */
    method ClickBorder(pt: Point)
      requires Valid()
      modifies this`selecting, this`borderPoints, this`bbox
      ensures Valid()
      ensures old(selecting) ==>
        borderPoints == old(borderPoints) + [pt] && selecting == (|borderPoints| < 4)
      ensures old(selecting) && |borderPoints| == 4 ==> bbox == Some(BoundingBox(borderPoints))
      ensures !(old(selecting) && |borderPoints| == 4) ==> bbox == old(bbox)
      ensures !old(selecting) ==> !selecting && borderPoints == old(borderPoints)
    {
      if selecting {
        borderPoints := borderPoints + [pt];
        if |borderPoints| == 4 {
          bbox := Some(BoundingBox(borderPoints));
          selecting := false;
        }
      }
    }
  }

  /** Border selection in a fresh session as written: whatever four points are
      clicked, the session ends the selection with no rectangle, so switching
      tracking on afterwards always falls back to the central half of the frame. */
  method FourClicksAsWritten(corners: seq<Point>) returns (b: Option<Box>)
    requires |corners| == 4
    ensures b == None
  {
    var s := new Session(NoTemplates());
    s.SelectBorder();
    for i := 0 to 3
      invariant s.Valid() && s.bbox == None
      invariant s.selecting && s.borderPoints == corners[..i]
    {
      s.ClickBorderAsWritten(corners[i]);
      assert corners[..i + 1] == corners[..i] + [corners[i]];
    }
    s.ClickBorderAsWritten(corners[3]);
    assert !s.selecting;
    b := s.bbox;
  }

  /** Border selection in a fresh session as intended: four clicks leave the
      session with their bounding box as its rectangle. */
  method FourClicks(corners: seq<Point>) returns (b: Option<Box>)
    requires |corners| == 4
    ensures b == Some(BoundingBox(corners))
  {
    var s := new Session(NoTemplates());
    s.SelectBorder();
    for i := 0 to 3
      invariant s.Valid() && s.bbox == None
      invariant s.selecting && s.borderPoints == corners[..i]
    {
      s.ClickBorder(corners[i]);
      assert corners[..i + 1] == corners[..i] + [corners[i]];
    }
    s.ClickBorder(corners[3]);
    assert corners[..3] + [corners[3]] == corners;
    b := s.bbox;
  }

  /** Four clicks at the corners of a 30 x 40 rectangle at (10, 20): as written the
      session has no rectangle afterwards, while the intended behaviour leaves that
      rectangle in place. */
  method BorderSelectionCounterexample() returns (asWritten: Option<Box>, intended: Option<Box>)
    ensures asWritten == None
    ensures intended == Some(Box(10, 20, 30, 40))
  {
    var corners := [Point(10.0, 20.0), Point(40.0, 20.0), Point(40.0, 60.0), Point(10.0, 60.0)];
    asWritten := FourClicksAsWritten(corners);
    intended := FourClicks(corners);
    CornersBox(corners);
  }

  lemma CornersBox(corners: seq<Point>)
    requires corners == [Point(10.0, 20.0), Point(40.0, 20.0), Point(40.0, 60.0), Point(10.0, 60.0)]
    ensures BoundingBox(corners) == Box(10, 20, 30, 40)
  {
    var xs, ys := Xs(corners), Ys(corners);
    assert xs == [10.0, 40.0, 40.0, 10.0] && ys == [20.0, 20.0, 60.0, 60.0];
    var xMin, xMax, yMin, yMax := MinOf(xs), MaxOf(xs), MinOf(ys), MaxOf(ys);
    assert xMin == 10.0 by { assert xMin in xs && xMin <= xs[0]; }
    assert xMax == 40.0 by { assert xMax in xs && xMax >= xs[1]; }
    assert yMin == 20.0 by { assert yMin in ys && yMin <= ys[0]; }
    assert yMax == 60.0 by { assert yMax in ys && yMax >= ys[2]; }
  }
}
