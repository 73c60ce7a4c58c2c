/** `ImageResizeService.resize`: the request object it reads and writes back
    to, and the method itself, step by step as the Java code does it. */
module ImageResizeService {
  import opened Wrappers
  import opened ImageResizeAction
  import opened Rounding
  import opened Images
  import opened ResizePlanner

  /** The parts of a resize request the geometry reads, and the two flags it
      reports back. A missing target is None. */
  class ImageResizeRequest {
    var targetWidth: Option<int>
    var targetHeight: Option<int>
    var resizeAction: Action
    var maintainAspect: bool
    var cropToAspect: bool
    var resized: bool
    var cropped: bool

    constructor (targetWidth: Option<int>, targetHeight: Option<int>, resizeAction: Action,
                 maintainAspect: bool, cropToAspect: bool)
      ensures this.targetWidth == targetWidth && this.targetHeight == targetHeight
      ensures this.resizeAction == resizeAction
      ensures this.maintainAspect == maintainAspect && this.cropToAspect == cropToAspect
      ensures !resized && !cropped
    {
      this.targetWidth := targetWidth;
      this.targetHeight := targetHeight;
      this.resizeAction := resizeAction;
      this.maintainAspect := maintainAspect;
      this.cropToAspect := cropToAspect;
      resized := false;
      cropped := false;
    }
  }

  /** A target that is given is positive. */
  predicate TargetsPositive(tw: Option<int>, th: Option<int>) {
    (tw.Some? ==> tw.value > 0) && (th.Some? ==> th.value > 0)
  }

  /** Resize the source image as the request says. `source` is what reading
      the request's source produced (None when nothing could be read); the
      reader prefers an image already in memory, then a stream, then a
      readable file, then a path. On
      success the request's flags are those Decide gives and the image is the
      one the plan produces; on failure the request is untouched. */
  method Resize(request: ImageResizeRequest, source: Option<Image>)
    returns (result: Result<Image, ResizeError>)
    requires source.Some? ==> Positive(SizeOf(source.value))
    requires TargetsPositive(request.targetWidth, request.targetHeight)
    modifies request`resized, request`cropped
    ensures source.None? ==> result == Err(NoSource) && unchanged(request)
    ensures source.Some? && (request.targetWidth.None? || request.targetHeight.None?) ==>
              result == Err(MissingTarget) && unchanged(request)
    ensures source.Some? && request.targetWidth.Some? && request.targetHeight.Some? ==>
              var s := SizeOf(source.value);
              var t := Dims(request.targetWidth.value, request.targetHeight.value);
              var p := MakePlan(request.resizeAction, request.maintainAspect,
                                request.cropToAspect, s, t);
              && request.resized == p.flags.resize
              && request.cropped == p.flags.crop
              && result == Execute(p, source.value)
  {
    if source.None? {
      return Err(NoSource);
    }
    var src := source.value;
    if request.targetWidth.None? || request.targetHeight.None? {
      return Err(MissingTarget);
    }
    var t := Dims(request.targetWidth.value, request.targetHeight.value);
    var resizeImage, cropImage := TriggerFlags(request.resizeAction, request.cropToAspect,
                                               SizeOf(src), t);
    request.resized := resizeImage;
    request.cropped := cropImage;
    result := Transform(src, t, request.maintainAspect, request.cropToAspect,
                        resizeImage, cropImage);
  }

  /** The flags of a request (the nested tests in `resize`): an image
      already at the target size needs nothing; otherwise the action's
      comparison decides, on either axis for a resize without crop to aspect,
      on both axes for a resize and either axis for a crop with it. */
  method TriggerFlags(action: Action, cropToAspect: bool, s: Dims, t: Dims)
    returns (resizeImage: bool, cropImage: bool)
    ensures Flags(resizeImage, cropImage) == Decide(action, cropToAspect, s, t)
  {
    var sourceWidth, sourceHeight := s.width, s.height;
    var targetWidth, targetHeight := t.width, t.height;
    resizeImage, cropImage := false, false;
    if targetHeight == sourceHeight && targetWidth == sourceWidth {
      resizeImage := false;
    } else if action == Always {
      if !cropToAspect {
        if targetHeight != sourceHeight || targetWidth != sourceWidth {
          resizeImage := true;
        }
      } else {
        if targetHeight != sourceHeight && targetWidth != sourceWidth {
          resizeImage := true;
        }
        if targetHeight != sourceHeight || targetWidth != sourceWidth {
          cropImage := true;
        }
      }
    } else if action == IfSmaller {
      if !cropToAspect {
        if targetHeight > sourceHeight || targetWidth > sourceWidth {
          resizeImage := true;
        }
      } else {
        if targetHeight > sourceHeight && targetWidth > sourceWidth {
          resizeImage := true;
        }
        if targetHeight > sourceHeight || targetWidth > sourceWidth {
          cropImage := true;
        }
      }
    } else if action == IfLarger {
      if !cropToAspect {
        if targetHeight < sourceHeight || targetWidth < sourceWidth {
          resizeImage := true;
        }
      } else {
        if targetHeight < sourceHeight && targetWidth < sourceWidth {
          resizeImage := true;
        }
        if targetHeight < sourceHeight || targetWidth < sourceWidth {
          cropImage := true;
        }
      }
    }
  }

  /** The geometry once the flags are known: with no flag, return the
      source image; without keeping the aspect ratio, stretch to the target; with
      crop to aspect, scale to cover (when resizing) and crop the overhang
      equally on both sides; otherwise scale by the driving axis. */
  method Transform(src: Image, t: Dims, maintainAspect: bool, cropToAspect: bool,
                   resizeImage: bool, cropImage: bool)
    returns (result: Result<Image, ResizeError>)
    requires Positive(SizeOf(src)) && Positive(t)
    requires cropToAspect || !cropImage
    ensures result == Execute(PlanFor(Flags(resizeImage, cropImage), maintainAspect,
                                      cropToAspect, SizeOf(src), t), src)
  {
    var sourceWidth, sourceHeight := src.width, src.height;
    var targetWidth, targetHeight := t.width, t.height;
    if resizeImage || cropImage {
      if maintainAspect {
        result := Ok(src);
        if cropToAspect {
          var current := src;
          if resizeImage {
            var scale: Ratio;
            if targetHeight * sourceWidth < targetWidth * sourceHeight {
              scale := Ratio(targetWidth, sourceWidth);
            } else {
              scale := Ratio(targetHeight, sourceHeight);
            }
            sourceWidth := ScaleDim(scale, sourceWidth);
            sourceHeight := ScaleDim(scale, sourceHeight);
            assert Dims(sourceWidth, sourceHeight) == CoverSize(SizeOf(src), t);
            current := DoResize(sourceWidth, sourceHeight, src);
          }
          // The scaled image meets one target dimension; trim the overhang
          // of the other equally on both sides.
          if sourceHeight > targetHeight {
            var yOffset := (sourceHeight - targetHeight) / 2;
            current := GetSubimage(current, Rect(0, yOffset, sourceWidth, targetHeight));
          } else if sourceWidth > targetWidth {
            var xOffset := (sourceWidth - targetWidth) / 2;
            current := GetSubimage(current, Rect(xOffset, 0, targetWidth, sourceHeight));
          }
          result := Ok(current);
        } else if resizeImage {
          var scale: Ratio;
          if sourceWidth > sourceHeight {
            scale := Ratio(targetWidth, sourceWidth);
          } else {
            scale := Ratio(targetHeight, sourceHeight);
          }
          sourceWidth := ScaleDim(scale, sourceWidth);
          sourceHeight := ScaleDim(scale, sourceHeight);
          assert Dims(sourceWidth, sourceHeight) == FitSize(SizeOf(src), t);
          if sourceWidth == 0 || sourceHeight == 0 {
            // The scaler throws when asked for an empty image.
            return Err(EmptyScale);
          }
          result := Ok(DoResize(sourceWidth, sourceHeight, src));
        }
      } else {
        // Stretch both axes to the target, ignoring the aspect ratio.
        result := Ok(DoResize(targetWidth, targetHeight, src));
      }
    } else {
      // Nothing to do: the source is the result.
      result := Ok(src);
    }
  }
}
