/** What `resize` promises about the image it returns, proved of the plan
    and its execution. */
module ResizeProperties {
  import opened Wrappers
  import opened ImageResizeAction
  import opened Rounding
  import opened Images
  import opened ResizePlanner

  /** An image already at the target size is returned as it is, whatever
      the action and the aspect options. */
  lemma ExactMatchReturnsSource(action: Action, maintainAspect: bool, cropToAspect: bool,
                                source: Image, t: Dims)
    requires Positive(SizeOf(source)) && SizeOf(source) == t
    ensures Decide(action, cropToAspect, SizeOf(source), t) == Flags(false, false)
    ensures ResizeOutcome(action, maintainAspect, cropToAspect, source, t) == Ok(source)
  {
  }

  /** The action Never leaves the image alone, whatever the sizes. */
  lemma NeverReturnsSource(maintainAspect: bool, cropToAspect: bool, source: Image, t: Dims)
    requires Positive(SizeOf(source)) && Positive(t)
    ensures Decide(Never, cropToAspect, SizeOf(source), t) == Flags(false, false)
    ensures ResizeOutcome(Never, maintainAspect, cropToAspect, source, t) == Ok(source)
  {
  }

  /** No flag set, for whatever reason (equal sizes, Never, or a target the
      action does not react to), means the image is returned as it is. */
  lemma NoFlagReturnsSource(action: Action, maintainAspect: bool, cropToAspect: bool,
                            source: Image, t: Dims)
    requires Positive(SizeOf(source)) && Positive(t)
    requires Decide(action, cropToAspect, SizeOf(source), t) == Flags(false, false)
    ensures ResizeOutcome(action, maintainAspect, cropToAspect, source, t) == Ok(source)
  {
  }

  /** Without keeping the aspect ratio, any flag means the image is stretched
      to exactly the target size, even when only the crop flag is set. */
  lemma StretchFillsTarget(action: Action, cropToAspect: bool, source: Image, t: Dims)
    requires Positive(SizeOf(source)) && Positive(t)
    requires var f := Decide(action, cropToAspect, SizeOf(source), t); f.resize || f.crop
    ensures ResizeOutcome(action, false, cropToAspect, source, t) == Ok(Scaled(source, t.width, t.height))
  {
  }

  /** The non-driving axis of FitSize is zero exactly when its exact value
      is at most one half. */
  lemma FitSizeEmpty(s: Dims, t: Dims)
    requires Positive(s) && Positive(t)
    ensures s.width > s.height ==> (FitSize(s, t).height == 0 <==> 2 * (t.width * s.height) <= s.width)
    ensures s.width <= s.height ==> (FitSize(s, t).width == 0 <==> 2 * (t.height * s.width) <= s.height)
  {
    if s.width > s.height {
      RoundIsZero(t.width * s.height, s.width);
    } else {
      RoundIsZero(t.height * s.width, s.height);
    }
  }

  /** Keeping the aspect ratio without cropping: the driving axis lands on
      its target; the call fails only when the other axis rounds to zero. */
  lemma FitLandsDrivingAxis(action: Action, source: Image, t: Dims)
    requires Positive(SizeOf(source)) && Positive(t)
    requires Decide(action, false, SizeOf(source), t).resize
    ensures var out := ResizeOutcome(action, true, false, source, t);
            && (source.width > source.height ==>
                  (out.Err? <==> 2 * (t.width * source.height) <= source.width)
                  && (out.Ok? ==> out.value.width == t.width))
            && (source.width <= source.height ==>
                  (out.Err? <==> 2 * (t.height * source.width) <= source.height)
                  && (out.Ok? ==> out.value.height == t.height))
  {
    var s := SizeOf(source);
    var p := MakePlan(action, true, false, s, t);
    assert p == Plan(Flags(true, false), Some(FitSize(s, t)), None);
    FitSizeEmpty(s, t);
  }

  /** Keeping the aspect ratio and cropping to it, with a resize: the image
      is scaled to cover the target and the overhang cropped, so the result
      has exactly the target size and is cut from a scaled copy. */
  lemma CoverFillsTarget(action: Action, source: Image, t: Dims)
    requires Positive(SizeOf(source)) && Positive(t)
    requires Decide(action, true, SizeOf(source), t).resize
    ensures var out := ResizeOutcome(action, true, true, source, t);
            && out.Ok?
            && SizeOf(out.value) == t
            && (out.value.Scaled? || (out.value.Subimage? && out.value.original.Scaled?))
  {
  }

  /** Keeping the aspect ratio, cropping to it, and only the crop flag set:
      the source itself is cropped, centred on the trimmed axis, or returned
      as it is when neither axis exceeds the target. */
  lemma CropWithoutResize(action: Action, source: Image, t: Dims)
    requires Positive(SizeOf(source)) && Positive(t)
    requires Decide(action, true, SizeOf(source), t) == Flags(false, true)
    ensures var out := ResizeOutcome(action, true, true, source, t);
            && (source.height > t.height ==>
                  out == Ok(Subimage(source, 0, (source.height - t.height) / 2, source.width, t.height)))
            && (source.height <= t.height && source.width > t.width ==>
                  out == Ok(Subimage(source, (source.width - t.width) / 2, 0, t.width, source.height)))
            && (source.height <= t.height && source.width <= t.width ==> out == Ok(source))
  {
  }

  /** With crop to aspect, a set crop flag means the result never exceeds
      the target on either axis: a resize covers and is cropped to exactly
      the target, and a crop alone happens only when at most one axis of the
      source is too large, and that axis is the one trimmed. */
  lemma CropToAspectWithinTarget(action: Action, source: Image, t: Dims)
    requires Positive(SizeOf(source)) && Positive(t)
    requires Decide(action, true, SizeOf(source), t).crop
    ensures var out := ResizeOutcome(action, true, true, source, t);
            out.Ok? && out.value.width <= t.width && out.value.height <= t.height
  {
    var s := SizeOf(source);
    if Decide(action, true, s, t).resize {
      CoverFillsTarget(action, source, t);
    } else {
      assert !(s.width > t.width && s.height > t.height) by {
        assert !(Triggers(action, t.width, s.width) && Triggers(action, t.height, s.height));
        assert Triggers(action, t.width, s.width) || Triggers(action, t.height, s.height);
        assert action != Never;
      }
      CropWithoutResize(action, source, t);
    }
  }

  /** The flags the tests expect at 300 by 300 with crop to aspect: a source
      too large on one axis only is cropped without being resized. */
  lemma CropOnlyExample(h: nat)
    ensures var source := Decoded(h, 1600, 300);
            && Decide(IfLarger, true, SizeOf(source), Dims(300, 300)) == Flags(false, true)
            && ResizeOutcome(IfLarger, true, true, source, Dims(300, 300))
               == Ok(Subimage(source, 650, 0, 300, 300))
  {
  }

  /** A successful resize derives its result from the source by exactly the
      plan's operations: nothing, a scale, a crop, or a scale then a crop. */
  lemma {:induction false} ResizeFollowsPlan(action: Action, maintainAspect: bool, cropToAspect: bool,
                                             source: Image, t: Dims)
    requires Positive(SizeOf(source)) && Positive(t)
    ensures var p := MakePlan(action, maintainAspect, cropToAspect, SizeOf(source), t);
            var out := ResizeOutcome(action, maintainAspect, cropToAspect, source, t);
            out.Ok? ==> History(out.value) == History(source) + Steps(p) && Root(out.value) == Root(source)
  {
  }

  /** Running the same request again on an image that already came out at
      the target size changes nothing. */
  lemma ResizeIdempotent(action: Action, maintainAspect: bool, cropToAspect: bool,
                         source: Image, t: Dims)
    requires Positive(SizeOf(source)) && Positive(t)
    requires var out := ResizeOutcome(action, maintainAspect, cropToAspect, source, t);
             out.Ok? && SizeOf(out.value) == t
    ensures var out := ResizeOutcome(action, maintainAspect, cropToAspect, source, t);
            ResizeOutcome(action, maintainAspect, cropToAspect, out.value, t) == out
  {
    var out := ResizeOutcome(action, maintainAspect, cropToAspect, source, t);
    ExactMatchReturnsSource(action, maintainAspect, cropToAspect, out.value, t);
  }

  /** A 1600 by 900 image cropped to aspect at 300 by 300: scaled to 533 by
      300 (533.33 rounded), then 116 columns trimmed from the left. */
  lemma WideCoverExample(h: nat)
    ensures var source := Decoded(h, 1600, 900);
            var out := ResizeOutcome(Always, true, true, source, Dims(300, 300));
            && Decide(Always, true, SizeOf(source), Dims(300, 300)) == Flags(true, true)
            && out == Ok(Subimage(Scaled(source, 533, 300), 116, 0, 300, 300))
  {
  }

  /** Resizing while keeping the aspect ratio follows the source's shape,
      not the tighter axis: a 200 by 100 image aimed at 100 by 10 comes out
      100 by 50, taller than the target. */
  lemma FitCanOverflowTarget(h: nat)
    ensures ResizeOutcome(Always, true, false, Decoded(h, 200, 100), Dims(100, 10))
            == Ok(Scaled(Decoded(h, 200, 100), 100, 50))
  {
  }

  /** A very flat image asked to keep its aspect ratio rounds its height to
      zero, which the scaler refuses. */
  lemma FitCanRoundToZero(h: nat)
    ensures ResizeOutcome(Always, true, false, Decoded(h, 1000, 1), Dims(10, 10)) == Err(EmptyScale)
  {
  }
}
