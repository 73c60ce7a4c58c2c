# Image resize geometry

A model of the geometry decision in `ImageResizeService.resize`. The inputs are a source image's width and height, a target width and height, a trigger action (`ALWAYS`, `IF_LARGER`, `IF_SMALLER`, `NEVER`) and two options, `maintainAspect` and `cropToAspect`. From these it decides:

- whether to resize and whether to crop, reported back on the request as `resized` and `cropped`;
- the size the image is scaled to;
- the centred window that is cropped;
- the image that is returned.

Images are values that record only their size and how they were made: decoded from the source, scaled from another image, or cut out of another image. So "the source is returned unchanged" is literal equality here.

Modules:

- `ImageResizeAction`: the trigger enum.
- `Rounding`: `Math.rint` as exact round-half-to-even on rationals, and the scale factors as exact ratios.
- `Images`: dimensions, rectangles, images with their derivation history, and the two primitives. `DoResize` is opaque scaling to an exact size and refuses a zero dimension. `GetSubimage` needs a non-empty window inside the image.
- `ResizePlanner`: the decision as pure functions. `Decide` gives the flags. `CoverSize`, `FitSize` and `CropWindow` give the geometry. `MakePlan`/`PlanFor` build the plan and `Execute` applies it.
- `ResizeProperties`: end-to-end lemmas about the returned image.
- `ImageResizeService`: the request as a class whose `resized`/`cropped` fields are written. `Resize` works step by step as the Java code does, through `TriggerFlags` (the nested flag tests) and `Transform` (the geometry branches). Each is proved equal to the planner's functions.

Points where the code's behaviour is easy to misread; the model follows the code:

- `Math.rint` breaks ties towards the even integer, not away from zero.
- The crop offset is the integer half of the overhang, rounded down.
- With `maintainAspect` and without `cropToAspect`, the scale factor follows the source's orientation (width ratio for a landscape source, height ratio otherwise), not the tighter of the two axes. The result can therefore be larger than the target box (`FitCanOverflowTarget`).
- Without `maintainAspect`, the crop flag is still reported even though the image is only stretched.
- The flags are written onto the request, as `resize` does, not returned separately.

## Model

| member | source | states |
|---|---|---|
| `ImageResizeService.Resize` | src/futuremedium/common2/images/ImageResizeService.java:27-164 | With no source image it fails with NoSource, and with a missing target width or height it fails with MissingTarget; in both cases the request is untouched. Otherwise the request's `resized`/`cropped` become the planned flags and the result is the planned image. |
| `ImageResizeService.TriggerFlags` | src/futuremedium/common2/images/ImageResizeService.java:47-95 | The nested flag tests of `resize`, including the exact-size short-circuit and the fall-through for NEVER, compute exactly the declarative flags of `Decide`. |
| `ImageResizeService.Transform` | src/futuremedium/common2/images/ImageResizeService.java:100-164 | The step-by-step geometry returns exactly what executing the plan for those flags returns. Its in-branch assertions show that it scales to `CoverSize` or `FitSize` and that every `getSubimage` window lies inside the image. |
| `ImageResizeService.ImageResizeRequest.constructor` | src/futuremedium/common2/images/ImageResizeService.java:97-98 | A new request carries the given targets, action and options, with both outcome flags false until `Resize` writes them (`setResized`/`setCropped`). |
| `ResizePlanner.Triggers` | src/futuremedium/common2/images/ImageResizeService.java:53-94 | The per-axis comparison of each action (differs, target larger, target smaller, nothing for NEVER) never holds on an axis where target and source are equal, and never for NEVER. |
| `ResizePlanner.ScaleBoth` | src/futuremedium/common2/images/ImageResizeService.java:119-120 | Both axes scaled by one factor are non-negative and each within half a pixel of the exact product. |
| `ResizePlanner.ResizeOutcome` | src/futuremedium/common2/images/ImageResizeService.java:100-164 | The image `resize` returns derives from the same image originally read, and the call fails (EmptyScale) only when keeping the aspect ratio without cropping. |
| `ResizePlanner.Decide` | src/futuremedium/common2/images/ImageResizeService.java:47-95 | With equal sizes, or with the action NEVER, both flags are false. Without crop to aspect the crop flag is false. With crop to aspect, resize implies crop and needs the action's comparison to hold on both axes. Without crop to aspect, resize holds exactly when the comparison holds on some axis; with it, resize holds exactly when it holds on both axes and crop exactly when it holds on some axis. |
| `ResizePlanner.FitScale` | src/futuremedium/common2/images/ImageResizeService.java:142-146 | The factor is positive. It maps the source width onto the target width for a landscape source, and the source height onto the target height otherwise. |
| `ResizePlanner.CoverScale` | src/futuremedium/common2/images/ImageResizeService.java:110-118 | The factor is one of the two axis ratios and scales both source axes to at least their targets, so it is the larger ratio. |
| `ResizePlanner.CoverSize` | src/futuremedium/common2/images/ImageResizeService.java:110-120 | The size scaled to before a crop to aspect is at least the target on both axes. It equals the target on the width when the width ratio is the larger (`th*sw < tw*sh`, the test at 112), otherwise on the height, and the other axis is within half a pixel of the source's aspect ratio. |
| `ResizePlanner.FitSize` | src/futuremedium/common2/images/ImageResizeService.java:141-148 | The driving axis lands exactly on its target. The other axis is within half a pixel of the source's aspect ratio. |
| `ResizePlanner.CropWindow` | src/futuremedium/common2/images/ImageResizeService.java:129-140 | The window is absent exactly when neither axis exceeds the target. It trims the height if the height exceeds, else the width, at offset half the overhang, keeping the other axis whole. It always lies inside the image. |
| `ResizePlanner.PlanFor` | src/futuremedium/common2/images/ImageResizeService.java:100-159 | For given flags, the plan keeps them. It scales only when a flag is set. It crops only with maintain-aspect and crop-to-aspect. Its scale sizes are never negative and its window lies inside a non-empty image. |
| `ResizePlanner.MakePlan` | src/futuremedium/common2/images/ImageResizeService.java:47-159 | The plan's flags are `Decide`'s. The plan is well formed, so the scaler and `getSubimage` get what they require. |
| `ResizePlanner.Execute` | src/futuremedium/common2/images/ImageResizeService.java:122-163 | Execution fails, with EmptyScale, exactly when the scaler is asked for a zero dimension. Otherwise the result has the crop window's size, or the scaled size when there is no crop. |
| `Rounding.RoundHalfEven` | src/futuremedium/common2/images/ImageResizeService.java:119-120 | The result is within half a step of n/d, and even on a tie (`Math.rint`). |
| `Rounding.NearestEvenUnique` | src/futuremedium/common2/images/ImageResizeService.java:147-148 | At most one integer is within half a step of n/d and even on a tie. |
| `Rounding.RoundHalfEvenUnique` | src/futuremedium/common2/images/ImageResizeService.java:147-148 | Those two properties determine `RoundHalfEven` completely. |
| `Rounding.RoundExact` | src/futuremedium/common2/images/ImageResizeService.java:119 | An exact quotient rounds to itself, so `rint(target/source * source)` is the target. |
| `Rounding.RoundAtLeast` | src/futuremedium/common2/images/ImageResizeService.java:120 | Rounding never goes below an integer that the exact value reaches. |
| `Rounding.RoundIsZero` | src/futuremedium/common2/images/ImageResizeService.java:147-148 | A non-negative value rounds to zero exactly when it is at most one half. |
| `Rounding.ScaleDim` | src/futuremedium/common2/images/ImageResizeService.java:147-148 | A scaled dimension is non-negative and within half a pixel of the exact product. |
| `Images.DoResize` | src/futuremedium/common2/images/ImageResizeService.java:194-212 | The opaque scaler returns a scaled copy of the source with exactly the requested positive size. |
| `Images.GetSubimage` | src/futuremedium/common2/images/ImageResizeService.java:132-139 | A window inside the image gives a sub-image of exactly the window's size. |
| `Images.History` | src/futuremedium/common2/images/ImageResizeService.java:122-139 | The derivation history of an image is empty exactly for the image originally read. |
| `Images.Root` | src/futuremedium/common2/images/ImageResizeService.java:122-139 | Every image derives from one image originally read, and that image is its own root. |
| `ResizeProperties.ExactMatchReturnsSource` | src/futuremedium/common2/images/ImageResizeService.java:49-52 | If the image is already at the target size, both flags are false and the source is returned, for every action and option. |
| `ResizeProperties.NeverReturnsSource` | src/futuremedium/common2/images/ImageResizeService.java:95 | With NEVER, both flags are false and the source is returned, for every size. |
| `ResizeProperties.NoFlagReturnsSource` | src/futuremedium/common2/images/ImageResizeService.java:160-164 | Whenever neither flag is set (equal sizes, NEVER, IF_SMALLER with a target no larger, IF_LARGER with a target no smaller), the source image is returned as it is. |
| `ResizeProperties.StretchFillsTarget` | src/futuremedium/common2/images/ImageResizeService.java:152-159 | Without maintain-aspect, any flag (even the crop flag alone) gives the source scaled to exactly the target. |
| `ResizeProperties.FitSizeEmpty` | src/futuremedium/common2/images/ImageResizeService.java:142-148 | The non-driving axis rounds to zero exactly when its exact value is at most one half. |
| `ResizeProperties.FitLandsDrivingAxis` | src/futuremedium/common2/images/ImageResizeService.java:141-150 | With maintain-aspect, without crop-to-aspect and with a resize, the driving axis of the result equals its target. The call fails exactly when the other axis rounds to zero. |
| `ResizeProperties.CoverFillsTarget` | src/futuremedium/common2/images/ImageResizeService.java:105-140 | With maintain-aspect, crop-to-aspect and a resize, the call always succeeds. The result has exactly the target size and is a scaled copy, or a window of one. |
| `ResizeProperties.CropWithoutResize` | src/futuremedium/common2/images/ImageResizeService.java:129-140 | With crop-to-aspect and only the crop flag, the source itself is cropped at the centred offset on the axis that exceeds. It is returned untouched when neither axis exceeds. |
| `ResizeProperties.CropToAspectWithinTarget` | src/futuremedium/common2/images/ImageResizeService.java:58-140 | With maintain-aspect and crop-to-aspect, a set crop flag means the call succeeds and the result is nowhere larger than the target. |
| `ResizeProperties.CropOnlyExample` | test/futuremedium/common2/images/ImageResizeHandlerTest.java:83-88 | At 300×300, a source too large on one axis is cropped but not resized. |
| `ResizeProperties.WideCoverExample` | test/futuremedium/common2/images/ImageResizeHandlerTest.java:90-94 | A 1600×900 source with ALWAYS at 300×300 is both resized (to 533×300) and cropped (at x = 116). |
| `ResizeProperties.ResizeFollowsPlan` | src/futuremedium/common2/images/ImageResizeService.java:100-164 | A successful result comes from the source by exactly the plan's operations, in order: nothing, a scale, a crop, or a scale then a crop. It has the same original image. |
| `ResizeProperties.ResizeIdempotent` | src/futuremedium/common2/images/ImageResizeService.java:49-52 | Resizing again an output that came out at the target size returns it unchanged. |
| `ResizeProperties.FitCanOverflowTarget` | src/futuremedium/common2/images/ImageResizeService.java:142-148 | Keeping the aspect ratio without cropping, 200×100 aimed at 100×10 comes out 100×50. |
| `ResizeProperties.FitCanRoundToZero` | src/futuremedium/common2/images/ImageResizeService.java:142-150 | Keeping the aspect ratio without cropping, 1000×1 aimed at 10×10 rounds its height to zero and the scaler refuses it. |

## Left out

- Reading the source (`getSource`) is file, stream and path I/O. It is a parameter of `Resize`, and None stands for "no source".
- JPEG encoding, compression quality and the destination writes are codec and I/O concerns.
- Pixel resampling inside `doResize` is opaque. Only the output size and the refusal of a zero dimension are modelled.
- The deprecated affine `doResize` and `getDefaultConfiguration` are dead code that depends on the graphics environment.
- Float and double rounding artefacts are not modelled. The `float` aspect ratio and the `double` scale factors are exact rationals here, so an exact tie or an exact aspect match may round differently from the Java arithmetic.
- The `(int)` cast of `Math.rint` saturates at the 32-bit range in Java. Dimensions here are unbounded integers.
- A missing target width or height makes `resize` throw a NullPointerException while unboxing, before its own checks. Both cases are the single error MissingTarget.
- ImageResizeService.Resize: requires given targets to be positive. With a zero or negative target, `resize` returns the image unchanged when no flag is set; otherwise what happens is decided by AWT (an exception for a zero size, a fallback to the original size for negative sizes in `getScaledInstance`), which is not modelled.
- The request's other fields and accessors, and its default action, are not modelled.
- The test file's concrete expectations depend on image files whose sizes are unknown. Only the flag combinations they show are used, in the example lemmas. The timing loop is benchmarking.
