/** The geometry decision of `ImageResizeService.resize`, stated as pure
    functions: which flags the request gets, what size the image is scaled to,
    which window is cropped, and the image that results. */
module ResizePlanner {
  import opened Wrappers
  import opened ImageResizeAction
  import opened Rounding
  import opened Images

  /** The two outcome flags the source writes back onto the request. */
  datatype Flags = Flags(resize: bool, crop: bool)

  /** Why a resize produced no image. */
  datatype ResizeError =
    | NoSource        // no source image could be obtained
    | MissingTarget   // the request has no target width or height
    | EmptyScale      // the scaler was asked for a zero width or height

  /** The comparison an action applies to one axis: "differs" for Always,
      "target is larger" for IfSmaller, "target is smaller" for IfLarger;
      Never triggers nothing. */
  predicate Triggers(action: Action, target: int, source: int)
    ensures target == source ==> !Triggers(action, target, source)
    ensures Triggers(action, target, source) ==> action != Never
  {
    match action
    case Always => target != source
    case IfSmaller => target > source
    case IfLarger => target < source
    case Never => false
  }

  /** The flags for a source of size s and a target of size t. Without crop
      to aspect, one triggering axis resizes; with it, resizing needs both
      axes to trigger and cropping needs one. */
  function Decide(action: Action, cropToAspect: bool, s: Dims, t: Dims): (f: Flags)
    ensures s == t ==> f == Flags(false, false)
    ensures action == Never ==> f == Flags(false, false)
    ensures !cropToAspect ==> !f.crop
    ensures cropToAspect && f.resize ==> f.crop
    ensures f.resize || f.crop ==>
              Triggers(action, t.width, s.width) || Triggers(action, t.height, s.height)
    ensures cropToAspect && f.resize ==>
              Triggers(action, t.width, s.width) && Triggers(action, t.height, s.height)
    ensures var w, h := Triggers(action, t.width, s.width), Triggers(action, t.height, s.height);
            && (!cropToAspect ==> (f.resize <==> w || h))
            && (cropToAspect ==> (f.resize <==> w && h) && (f.crop <==> w || h))
  {
    var h := Triggers(action, t.height, s.height);
    var w := Triggers(action, t.width, s.width);
    if cropToAspect then Flags(h && w, h || w) else Flags(h || w, false)
  }

  /** The factor for resizing while keeping the aspect ratio without
      cropping: width ratio for a landscape source, height ratio otherwise. */
  function FitScale(s: Dims, t: Dims): (r: Ratio)
    requires Positive(s) && Positive(t)
    ensures ValidRatio(r)
    ensures s.width > s.height ==> r.num * s.width == t.width * r.den
    ensures s.width <= s.height ==> r.num * s.height == t.height * r.den
  {
    if s.width > s.height then Ratio(t.width, s.width) else Ratio(t.height, s.height)
  }

  /** The factor for resizing before a crop to aspect: the larger of the two
      axis ratios, so that the scaled image covers the target on both axes.
      `targetHeight / (sourceHeight / sourceWidth) < targetWidth` is
      `targetHeight * sourceWidth < targetWidth * sourceHeight`. */
  function CoverScale(s: Dims, t: Dims): (r: Ratio)
    requires Positive(s) && Positive(t)
    ensures ValidRatio(r)
    ensures r == Ratio(t.width, s.width) || r == Ratio(t.height, s.height)
    ensures r.num * s.width >= t.width * r.den
    ensures r.num * s.height >= t.height * r.den
  {
    if t.height * s.width < t.width * s.height then Ratio(t.width, s.width)
    else Ratio(t.height, s.height)
  }

  /** Both axes of s scaled by one factor, each rounded with `Math.rint`. */
  function ScaleBoth(c: Ratio, s: Dims): (r: Dims)
    requires ValidRatio(c) && Positive(s)
    ensures r.width >= 0 && r.height >= 0
    ensures -c.den <= 2 * (r.width * c.den - c.num * s.width) <= c.den
    ensures -c.den <= 2 * (r.height * c.den - c.num * s.height) <= c.den
  {
    Dims(ScaleDim(c, s.width), ScaleDim(c, s.height))
  }

  /** The size a crop to aspect resizes to. It covers the target, meets it
      exactly on the axis whose ratio is the larger, and keeps the source's
      aspect ratio on the other axis to within half a pixel. */
  function CoverSize(s: Dims, t: Dims): (r: Dims)
    requires Positive(s) && Positive(t)
    ensures r.width >= t.width && r.height >= t.height
    ensures r.width == t.width || r.height == t.height
    ensures t.height * s.width < t.width * s.height ==>
              r.width == t.width &&
              -s.width <= 2 * (r.height * s.width - t.width * s.height) <= s.width
    ensures t.height * s.width >= t.width * s.height ==>
              r.height == t.height &&
              -s.height <= 2 * (r.width * s.height - t.height * s.width) <= s.height
  {
    var c := CoverScale(s, t);
    if c == Ratio(t.width, s.width) then
      RoundExact(t.width, s.width);
      RoundAtLeast(t.width * s.height, s.width, t.height);
      ScaleBoth(c, s)
    else
      RoundExact(t.height, s.height);
      RoundAtLeast(t.height * s.width, s.height, t.width);
      ScaleBoth(c, s)
  }

  /** The size a resize without crop goes to: the driving axis (width for a
      landscape source, height otherwise) lands on its target and the other
      axis keeps the source's aspect ratio to within half a pixel. */
  function FitSize(s: Dims, t: Dims): (r: Dims)
    requires Positive(s) && Positive(t)
    ensures r.width >= 0 && r.height >= 0
    ensures s.width > s.height ==>
              r.width == t.width &&
              -s.width <= 2 * (r.height * s.width - t.width * s.height) <= s.width
    ensures s.width <= s.height ==>
              r.height == t.height &&
              -s.height <= 2 * (r.width * s.height - t.height * s.width) <= s.height
  {
    var c := FitScale(s, t);
    if s.width > s.height then
      RoundExact(t.width, s.width);
      ScaleBoth(c, s)
    else
      RoundExact(t.height, s.height);
      ScaleBoth(c, s)
  }

  /** The centred crop: trim the height if it exceeds the target, otherwise
      trim the width if that exceeds, otherwise nothing. The window lies in
      the image, the trimmed axis becomes the target and the other is kept. */
  function CropWindow(cur: Dims, t: Dims): (r: Option<Rect>)
    requires Positive(cur) && Positive(t)
    ensures r.None? <==> cur.height <= t.height && cur.width <= t.width
    ensures r.Some? ==> Within(r.value, cur)
    ensures cur.height > t.height ==>
              r == Some(Rect(0, (cur.height - t.height) / 2, cur.width, t.height))
    ensures cur.height <= t.height && cur.width > t.width ==>
              r == Some(Rect((cur.width - t.width) / 2, 0, t.width, cur.height))
  {
    if cur.height > t.height then
      Some(Rect(0, (cur.height - t.height) / 2, cur.width, t.height))
    else if cur.width > t.width then
      Some(Rect((cur.width - t.width) / 2, 0, t.width, cur.height))
    else None
  }

  /** A resize plan: the flags, the size passed to the scaler (if it is
      called) and the window cropped afterwards (if any). */
  datatype Plan = Plan(flags: Flags, scaleTo: Option<Dims>, crop: Option<Rect>)

  /** The size of the image that the crop window applies to. */
  function Intermediate(p: Plan, s: Dims): Dims {
    if p.scaleTo.Some? then p.scaleTo.value else s
  }

  /** The scaler is never asked for a negative size, and a crop window lies
      inside a non-empty image it is taken from. */
  predicate WellFormed(p: Plan, s: Dims) {
    && (p.scaleTo.Some? ==> p.scaleTo.value.width >= 0 && p.scaleTo.value.height >= 0)
    && (p.crop.Some? ==> Positive(Intermediate(p, s)) && Within(p.crop.value, Intermediate(p, s)))
  }

  /** The plan for flags f: nothing without a flag; without keeping the
      aspect ratio, stretch to the target; with crop to aspect, scale to cover
      (when resizing) and crop; otherwise scale by the driving axis. The crop
      flag is only ever set with crop to aspect. */
  function PlanFor(f: Flags, maintainAspect: bool, cropToAspect: bool, s: Dims, t: Dims): (p: Plan)
    requires Positive(s) && Positive(t)
    requires cropToAspect || !f.crop
    ensures p.flags == f
    ensures WellFormed(p, s)
    ensures !f.resize && !f.crop ==> p.scaleTo.None? && p.crop.None?
    ensures p.crop.Some? ==> maintainAspect && cropToAspect && (f.resize || f.crop)
    ensures p.scaleTo.Some? ==> f.resize || (f.crop && !maintainAspect)
  {
    if !f.resize && !f.crop then Plan(f, None, None)
    else if !maintainAspect then Plan(f, Some(t), None)
    else if cropToAspect then
      if f.resize then
        var cur := CoverSize(s, t);
        Plan(f, Some(cur), CropWindow(cur, t))
      else Plan(f, None, CropWindow(s, t))
    else Plan(f, Some(FitSize(s, t)), None)
  }

  /** The plan `resize` follows for a source of size s and a target of size t. */
  function MakePlan(action: Action, maintainAspect: bool, cropToAspect: bool, s: Dims, t: Dims): (p: Plan)
    requires Positive(s) && Positive(t)
    ensures p.flags == Decide(action, cropToAspect, s, t)
    ensures WellFormed(p, s)
    ensures !p.flags.resize && !p.flags.crop ==> p.scaleTo.None? && p.crop.None?
    ensures p.crop.Some? ==> maintainAspect && cropToAspect && p.flags.crop
  {
    PlanFor(Decide(action, cropToAspect, s, t), maintainAspect, cropToAspect, s, t)
  }

  /** The operations a plan performs, in order: at most one scale, then at
      most one crop. */
  function Steps(p: Plan): seq<Step> {
    (if p.scaleTo.Some? then [ScaleStep(p.scaleTo.value.width, p.scaleTo.value.height)] else [])
    + (if p.crop.Some? then [CropStep(p.crop.value)] else [])
  }

  /** Carry out a plan on the source image: scale, then crop. */
  function Execute(p: Plan, source: Image): (r: Result<Image, ResizeError>)
    requires Positive(SizeOf(source)) && WellFormed(p, SizeOf(source))
    ensures r.Err? <==> p.scaleTo.Some? && !Positive(p.scaleTo.value)
    ensures r.Err? ==> r.error == EmptyScale
    ensures r.Ok? && p.crop.None? ==> SizeOf(r.value) == Intermediate(p, SizeOf(source))
    ensures r.Ok? && p.crop.Some? ==>
              SizeOf(r.value) == Dims(p.crop.value.width, p.crop.value.height)
  {
    var scaled: Result<Image, ResizeError> :=
      match p.scaleTo
      case None => Ok(source)
      case Some(d) => if d.width == 0 || d.height == 0 then Err(EmptyScale)
                      else Ok(DoResize(d.width, d.height, source));
    match scaled
    case Err(e) => Err(e)
    case Ok(img) =>
      match p.crop
      case None => Ok(img)
      case Some(w) => Ok(GetSubimage(img, w))
  }

  /** What `resize` returns for a source image and a target size. It derives
      from the same image originally read, and it can fail only when keeping
      the aspect ratio without cropping rounds a side to zero. */
  function ResizeOutcome(action: Action, maintainAspect: bool, cropToAspect: bool,
                         source: Image, t: Dims): (r: Result<Image, ResizeError>)
    requires Positive(SizeOf(source)) && Positive(t)
    ensures r.Ok? ==> Root(r.value) == Root(source)
    ensures r.Err? ==> r == Err(EmptyScale) && maintainAspect && !cropToAspect
  {
    Execute(MakePlan(action, maintainAspect, cropToAspect, SizeOf(source), t), source)
  }
}
