# Verified model of the display HAL

This project models the parts of the Qualcomm display HAL (hwcomposer, overlay, copybit's
software converter, gralloc) that carry algorithmic state, in Dafny 4.11, and proves what
they are meant to guarantee. `dafny verify dfyconfig.toml` checks everything.

| files | what they model |
|---|---|
| `FramePlan`, `MdpComp`, `FrameRules`, `Composition`, `CachedFramebuffer` | the frame planner `MDPComp`: which layers of a frame go to hardware pipes and which stay flattened in the framebuffer that is kept from earlier frames |
| `PipeControl`, `PipeBook`, `PipeRuns`, `PipeRequests`, `Overlay`, `LayerPipes`, `HotPlug`, `HotPlugRuns` | the control block of a pipe, the pool of pipes that is lent to displays in rounds, how the layers of a frame get pipes from it, and the hot-plug thread that relies on the rounds of the composition thread |
| `Geometry`, `Overdraw` | scissoring, pre-rotation and overdraw removal on rectangles |
| `Yv12Converter`, `C2dConverter`, `C2dBuffers`, `YuvImages` | the pixel copies of `software_converter.cpp`, alone, in the buffers that gralloc allocates and seen through the planes that it reports |
| `Rotator`, `RotSessions` | rotator memory and rotator sessions |
| `Options`, `Bits`, `FbSlots`, `YuvPlanes` | optional values, 32-bit masks, the slots of the mapped framebuffer, sizes and planes of YUV buffers |

Each component appears twice where the source changes state: as a value with functions on it,
about which the theorems are proved, and as a class with the source's fields and loops, whose
methods are proved to change the object exactly as the functions say. `FramePlan`, `PipeBook`
and the first halves of `PipeControl`, `Rotator`, `RotSessions` and `FbSlots` are the values;
`MdpComp`, `Overlay` and the classes in the other files are the objects. `FrameRules`,
`PipeRequests`, `HotPlugRuns` and `YuvImages` say what comes out of them in terms of the inputs
alone: the layers and flags of a frame, the caller's request, the steps of the two threads, the
bytes of an image.

Conventions: an ioctl, an allocation or another call into code outside the model is a parameter
whose outcome is arbitrary. A failed `OVASSERT` is an outcome of its own. Bitmaps of pipes are
sets of positions. The `double` ratios of the crop calculation are reals. A `wait` on the draw
lock wakes only after a signal (libgralloc/gr.h:85 has no loop around it).

Some properties that the code or its comments suggest do not hold. For each of them the model
has a concrete run or input and the exact condition:

- A frame may keep a framebuffer with stale buffers in it. It is right exactly if the last
  redraw drew it for this frame: a video-only redraw had its videos below the flattened layers
  and drew the handles that the planner remembers, and every layer of the batch that was a video
  without DMA pipe since then has the buffer that was drawn (`CachedFramebufferIsRight`). With
  DMA pipes at hand only a video-only redraw can go wrong (`DmaFreeIsRightIff`); before MDSS_V5
  and without video-only frames nothing can (`CachedFramebufferIsRightBeforeV5`). The redraw that
  is meant to be forced on secondary displays (libhwcomposer/hwc_mdpcomp.cpp:911) is overwritten
  by lines 924-933 (`BlockedVideoCanBeStale`).
- A blank does not always free all pipes, though the comment at libhwcomposer/hwc.cpp:342 says
  so (`BlankFreesAllIff`); a pipe that was handed out and never committed stays with its display
  (`UncommittedPipeIsKept`), namely if and only if the use is the same as in the round before
  (`UnusedPipeSurvivesIff`).
- The list of video pipes of a frame has two entries; it is overrun if and only if more than two
  videos meet more than two VG pipes (`AllocLayerPipesIff`). Counting the available pipes, as the
  planner does, is not enough for the layers to get theirs (`CountIsNotEnough`).
- Overdraw removal can change the picture, since `needsScaling` can take a scaled layer for an
  unscaled one: it compares width with width even if the layer is turned (`TurnedLayerCanChange`),
  and it compares sizes after trimming to the screen and truncation (`TrimmedLayerCanChange`). One
  cut keeps the picture exactly if it falls on whole source pixels or nothing of what is left is
  visible (`CutKeepsPictureIff`); all cuts together keep it exactly if every layer still shows the
  same where it is visible, and certainly if they all fall on whole pixels
  (`OptimizedPictureIff`). A cut can also leave an empty frame off the screen, for which the
  next `needsScaling` divides by zero (`CutDividesByZeroIff`); that never changes the picture.
- A rotator whose rotation fails right after a size change aborts at the next size change if no
  call has succeeded since (`FailedRotationAborts`, `PreviousStaysIff`, `AbortsIff`).
- Freeing a framebuffer window clears the right bit exactly while the page rounding of the slots
  before it adds up to less than one buffer (`IndexIsSlotIff`, `AllSlotsFoundIff`). Otherwise the
  slot is lost, so that allocation fails too early (`AllocFailsWhenTakenIff`,
  `LargerBuffersOnlyLeak`), or, if the computed index is that of another slot, that one is handed
  out although it is in use (`WindowsStayDisjointIff`, `HalfPagesCollide`).
- The planes of a YUV buffer can lie outside the buffer. For the formats without padded rows that
  happens exactly if the size overflows (`PlanesFitIff`, `PlanesFit420Iff`).
- The converted YV12 image shows the same samples in the planes that gralloc reports for its new
  format exactly if no row is padded or there is one row of chroma: the converted chroma rows
  follow each other without the padding (`ConversionShowsTheSameIff`). hwc_copybit.cpp:343
  always asks for images without padding.
- The padded YV12 loop does not end for images with fewer than two columns
  (`PaddedLoopEndsIff`).
- `normalizeCrop` wraps around for an empty crop at an odd position
  (`NormalizeCropIsLargestEven`), and `ALIGN` wraps to 0 near the end of the address space
  (`AlignIsLeastMultipleIff`).

## Model

| member | source | states |
|---|---|---|
| Composition.CompositionKeepsPicture | libhwcomposer/hwc_mdpcomp.cpp:794-823 | for every frame composed fully or partially and every associative blending, the blend of the mixer stages (pipes plus flattened framebuffer) is the blend of all layers in list order |
| Composition.BlendFlattened | libhwcomposer/hwc_mdpcomp.cpp:670-726 | flattening any contiguous part of a layer list into one pixel keeps the blend |
| Composition.StagesExist | libhwcomposer/hwc_mdpcomp.cpp:794-823 | the mixer can always be loaded with the planned stages, so the picture theorem is about something |
| Composition.StagesAreDistinct | libhwcomposer/hwc_mdpcomp.cpp:794-823 | pipes have increasing, distinct z-orders below the stage count, none has the framebuffer's, and the stages fit the mixer |
| Composition.EveryStageIsUsed | libhwcomposer/hwc_mdpcomp.cpp:794-823 | each z-order from 0 to stages-1 belongs to a pipe or is the framebuffer's: the gap that programMDP leaves is exactly fbZ |
| Composition.StagesFit | libhwcomposer/hwc_mdpcomp.cpp:496-642 | the stages of a full, partial or video-only frame never exceed the mixer's pipes |
| Composition.BatchIsInterval | libhwcomposer/hwc_mdpcomp.cpp:670-726 | the framebuffer layers of a full or partial frame are one interval that starts at fbZ, and fbCount plus mdpCount is the number of layers |
| Composition.BatchIsOptimal | libhwcomposer/hwc_mdpcomp.cpp:670-726 | no run of candidate layers is longer than the batch of a partial frame, and none as long starts earlier |
| Composition.MdpLayersAreSupported | libhwcomposer/hwc_mdpcomp.cpp:670-726 | every layer of a partial frame that goes to a pipe is supported, including the one that the second loop of batchLayers skips |
| CachedFramebuffer.KeptFrameRepeatsBatch | libhwcomposer/hwc_mdpcomp.cpp:880-945 | a frame without redraw is partial and has the same counts and fbZ as the frame before: GPU, full and animated frames force a redraw |
| CachedFramebuffer.ChangedInBatchIsBlockedVideo | libhwcomposer/hwc_mdpcomp.cpp:645-668 | a changed layer is in the framebuffer only if it is a video whose rotator has no DMA pipe |
| CachedFramebuffer.StepKeepsInv | libhwcomposer/hwc_mdpcomp.cpp:851-981 | every frame of any kind keeps the invariant of a run: while pipes and framebuffer are in use, the framebuffer is what the frame of the last redraw drew, with the cached counts and fbZ, and each layer of the batch still has the handle remembered then unless it was a video without DMA pipe since |
| CachedFramebuffer.CachedFramebufferIsRight | libhwcomposer/hwc_mdpcomp.cpp:851-981 | in every run, a frame that keeps the framebuffer shows its own buffers if and only if the frame of the last redraw drew it for this one: if that was video-only, all its videos were below the flattened layers; each layer that was a video without DMA pipe since has the buffer drawn then; and for each other layer the drawn buffer was also the remembered one |
| CachedFramebuffer.DmaFreeIsRightIff | libhwcomposer/hwc_mdpcomp.cpp:935-961 | if every frame since the last redraw had DMA pipes, a kept framebuffer is right if and only if that redraw was not video-only, or had its videos below the rest and either compared the handles before it gave up on mixed composition or drew the remembered ones anyway |
| CachedFramebuffer.PartialDrawIsRightIff | libhwcomposer/hwc_mdpcomp.cpp:768-792 | if the last redraw was a partial frame, a kept framebuffer is right if and only if every layer of the batch that was a video without DMA pipe since has the handle it had at that redraw |
| CachedFramebuffer.CachedFramebufferIsRightBeforeV5 | libhwcomposer/hwc_mdpcomp.cpp:851-981 | in every run without video-only frames and without DMA pipes in use, every kept framebuffer is right |
| CachedFramebuffer.RunShowsOwnLayers | libhwcomposer/hwc_mdpcomp.cpp:794-981 | in every run without video-only frames and without DMA pipes in use, each frame composed fully or partially, with its framebuffer drawn now or kept from any earlier frame, shows the blend of its own layers under any associative blending |
| CachedFramebuffer.RightContentShows | libhwcomposer/hwc_mdpcomp.cpp:794-823 | a framebuffer that holds the buffers of the frame puts onto its mixer stage what the picture theorem asks for |
| CachedFramebuffer.VideoOnlyFrameCanLeaveStalePicture | libhwcomposer/hwc_mdpcomp.cpp:935-961 | a run of three frames in which a video-only frame leaves a stale picture that is shown |
| CachedFramebuffer.BlockedVideoCanBeStale | libhwcomposer/hwc_mdpcomp.cpp:904-933 | a run on the external display, with a turned video and the DMA pipe taken by the virtual display earlier in each round, in which the changed video is kept in the framebuffer without redraw |
| MdpComp.BestIsUnique | libhwcomposer/hwc_mdpcomp.cpp:688-701 | a run that is as long as every other and longer than each earlier one is the one the specification selects |
| MdpComp.FrameInfo.LayerToMdpAndBack | libhwcomposer/hwc_mdpcomp.cpp:241-250 | from an MDP layer through layerToMDP and mdpToLayer back to the layer, within bounds |
| MdpComp.FrameInfo.MdpToLayerAndBack | libhwcomposer/hwc_mdpcomp.cpp:241-250 | from each MDP index below the number of MDP layers through mdpToLayer and layerToMDP back to the index |
| MdpComp.FrameInfo.Reset | libhwcomposer/hwc_mdpcomp.cpp:218-239 | every layer in the framebuffer, no mapping, redraw wanted |
| MdpComp.FrameInfo.Map | libhwcomposer/hwc_mdpcomp.cpp:241-250 | the n-th MDP layer in list order is at index n and knows its list position |
| MdpComp.LayerCache.CacheAll | libhwcomposer/hwc_mdpcomp.cpp:264-269 | the handles of the list over the cached ones, nothing else |
| MdpComp.LayerCache.UpdateCounts | libhwcomposer/hwc_mdpcomp.cpp:271-276 | the counts of the current frame, handles kept |
| MdpComp.Composer.UpdateLayerCache | libhwcomposer/hwc_mdpcomp.cpp:728-749 | a layer stays in the framebuffer exactly if its handle is the cached one; counts agree with the flags; all handles are cached |
| MdpComp.Composer.UpdateYUV | libhwcomposer/hwc_mdpcomp.cpp:768-792 | each video goes to a pipe exactly if it can, other layers keep their flag, counts agree with the flags |
| MdpComp.Composer.SearchBatch | libhwcomposer/hwc_mdpcomp.cpp:688-701 | the first loop of batchLayers finds the earliest longest run of candidates |
| MdpComp.Composer.PullOutOthers | libhwcomposer/hwc_mdpcomp.cpp:703-716 | the second loop leaves exactly the run in the framebuffer, or fails if a layer outside it is not supported |
| MdpComp.Composer.BatchLayers | libhwcomposer/hwc_mdpcomp.cpp:670-726 | succeeds exactly if no batch is needed or all other layers are supported, with the batch, fbZ and the counts |
| MdpComp.Composer.FullMDPComp | libhwcomposer/hwc_mdpcomp.cpp:496-535 | succeeds exactly if every layer is supported and there are enough stages and pipes; then no layer is in the framebuffer |
| MdpComp.Composer.PartialMDPComp | libhwcomposer/hwc_mdpcomp.cpp:537-592 | succeeds exactly if the changed layers are supported, a batch exists and stages and pipes are enough; flags, fbZ, counts and cached handles |
| MdpComp.Composer.IsOnlyVideoDoable | libhwcomposer/hwc_mdpcomp.cpp:594-642 | succeeds exactly if there are videos for pipes, enough of them, and each may be shown below the framebuffer; the flags are those of the videos |
| MdpComp.Composer.IsFullFrameDoable | libhwcomposer/hwc_mdpcomp.cpp:412-494 | the choice between full, partial and neither, with the state that each attempt leaves |
| MdpComp.Composer.ProgramMDP | libhwcomposer/hwc_mdpcomp.cpp:794-823 | succeeds exactly if pipes are granted and every MDP layer is configured; each pipe then has the z-order of its stage |
| MdpComp.Composer.ProgramYUV | libhwcomposer/hwc_mdpcomp.cpp:825-849 | the same for video-only frames, with consecutive z-orders |
| MdpComp.Composer.Prepare | libhwcomposer/hwc_mdpcomp.cpp:851-981 | the whole of prepare: decision, cache, mapping and z-orders are those of the specification function, about which the next rows state the outcome for every frame in terms of its layers and flags |
| FrameRules.RefusedFrames | libhwcomposer/hwc_mdpcomp.cpp:373-407 | frames without layers or with more than 32, animating ones, and frames while the planner is off, in a padding round, or while an external connection is pending are left to the GPU entirely, without a pipe; a secure video is the one exception to the last |
| FrameRules.PermitsIff | libhwcomposer/hwc_mdpcomp.cpp:412-494 | the conditions before full or mixed composition, layer by layer: no skipped, scattered or securing layer, no translucent one from MDSS_V5 on, no scaled translucent one, and the others |
| FrameRules.FullIff | libhwcomposer/hwc_mdpcomp.cpp:496-535 | a frame is composed by pipes alone if and only if it is permitted, every layer can be shown, layers fit mixer and free pipes, and everything works; the counts, flags and fbZ that it then has |
| FrameRules.PartialIff | libhwcomposer/hwc_mdpcomp.cpp:537-592 | a frame that does not fit fully is composed partially if and only if mixed mode is on, the layers outside the batch and the changed ones can be shown, they fit mixer and free pipes, and everything works; the batch is the earliest longest run of layers that need no pipe |
| FrameRules.PartialIsPermitted | libhwcomposer/hwc_mdpcomp.cpp:412-494 | no other frame is composed partially |
| FrameRules.BestRunExists | libhwcomposer/hwc_mdpcomp.cpp:688-701 | there always is an earliest longest run, so the conditions on it are about something |
| FrameRules.VideoOnlyIff | libhwcomposer/hwc_mdpcomp.cpp:594-642 | a frame that is neither refused nor composed fully or partially shows its videos on pipes if and only if some can play, they fit, none is translucent or scattered and everything works; else it is left to the GPU |
| FrameRules.RedrawIff | libhwcomposer/hwc_mdpcomp.cpp:851-981 | when the framebuffer is redrawn: in every GPU and video-only frame and the first one of an animation, and in full and partial ones exactly if layers are in it and counts, fbZ or geometry are not those of the last frame |
| FrameRules.MemoryAfter | libhwcomposer/hwc_mdpcomp.cpp:252-276 | what is remembered: the counts of every frame, and all handles after a frame by the GPU and after mixed composition was tried, else the old ones |
| Geometry.CropKeepsSamples | libhwcomposer/hwc_utils.cpp:808-860 | for all eight transforms, cropping against a scissor keeps the source point shown at every remaining point of the frame if and only if each cut falls on a whole source pixel |
| Geometry.AxisCutIsExact | libhwcomposer/hwc_utils.cpp:808-860 | the same along one axis, flipped or not |
| Geometry.PixelIsKeptIff | libhwcomposer/hwc_utils.cpp:808-860 | if each axis loses at most one end, the rest of the frame shows the same in any single pixel if and only if each cut falls on a whole source pixel, for all eight transforms |
| Geometry.CropCornersRoundTowardZero | libhwcomposer/hwc_utils.cpp:808-860 | for all eight transforms and any cut, the new frame is the part inside the scissor, and the new crop spans the source points shown at the corners of that part, without their fractions |
| Geometry.UnscaledIsExact | libhwcomposer/hwc_utils.cpp:808-860 | every cut of an unscaled layer falls on whole pixels |
| Geometry.ExactCropRects | libhwcomposer/hwc_utils.cpp:730-746 | each edge of an exactly cut crop loses what the frame edge loses that shows it: calc_cut maps the edges correctly |
| Geometry.CalculateCropRects | libhwcomposer/hwc_utils.cpp:808-860 | the in-place calculation computes the crop and frame of the specification |
| Geometry.PreRotateSource | liboverlay/overlayUtils.cpp:231-255 | the in-place pre-rotation of buffer size and crop, in unsigned arithmetic |
| Geometry.UpdatedEdges | libhwcomposer/hwc_utils.cpp:1321-1334 | the edges of a crop within its buffer after getMdpOrient and pre-rotation, without wrap-around |
| Geometry.PreRotationShowsTheSame | libhwcomposer/hwc_utils.cpp:1321-1334 | showing the pre-rotated crop untransformed shows at every point the source point that the transform showed, for all eight transforms |
| Geometry.CropAndRotationCommute | libhwcomposer/hwc_utils.cpp:1399-1427 | scissoring and then pre-rotating gives the same crop and frame as pre-rotating and then scissoring, for all eight transforms and exact cuts |
| Overdraw.IntersectionIsCommon | libhwcomposer/hwc_utils.cpp:868-886 | the intersection covers exactly the common pixels |
| Overdraw.DeductIsDifference | libhwcomposer/hwc_utils.cpp:911-928 | if a rectangle is the difference of a rectangle and a part of it, deductRect yields the difference; otherwise it changes nothing |
| Overdraw.CutLayerKeepsPixelIff | libhwcomposer/hwc_utils.cpp:941-957 | a layer that is cut, scaled or turned or not, loses only pixels of the opaque frame, and shows in any one remaining pixel what it showed before if and only if the cut falls on whole source pixels |
| Overdraw.CutKeepsPictureIff | libhwcomposer/hwc_utils.cpp:941-957 | for every layer list, cutting one layer against an opaque layer above it keeps the painted picture if and only if the cut falls on whole source pixels or opaque layers above hide all that is left of the layer |
| Overdraw.ShrunkPictureIff | libhwcomposer/hwc_utils.cpp:930-964 | if frames shrink only where opaque layers above still cover them, the painted picture is the same if and only if every layer shows the same source points in the pixels where it is visible |
| Overdraw.OptimizedPictureIff | libhwcomposer/hwc_utils.cpp:930-964 | for every layer list, all cuts together keep the painted picture if and only if every layer shows the same as before where it is still visible, and they do if each cut that the loops make falls on whole source pixels |
| Overdraw.PlainCutsAreExact | libhwcomposer/hwc_utils.cpp:586-603 | if needsScaling takes no scaled layer for an unscaled one, all cuts of the loops fall on whole source pixels |
| Overdraw.CutIffSizesAgree | libhwcomposer/hwc_utils.cpp:586-603 | the layers that are cut are those with a frame whose crop, trimmed to the screen, has the size of the trimmed frame; the shortcut for layers on the screen changes nothing |
| Overdraw.UnscaledSizesAgree | libhwcomposer/hwc_utils.cpp:586-603 | every unscaled and unturned layer on the screen is one of them |
| Overdraw.CutLayerLoses | libhwcomposer/hwc_utils.cpp:941-957 | a layer that is cut keeps exactly the pixels that the opaque frame does not cover, if those are a rectangle, and else stays as it is |
| Overdraw.StagesOfCuts | libhwcomposer/hwc_utils.cpp:930-964 | the lists that the outer loop goes through: each opaque layer, with the frame that the layers above have left it, takes from every layer below whose sizes agree what it hides, and changes nothing else |
| Overdraw.HiddenIsRemoved | libhwcomposer/hwc_utils.cpp:930-964 | when the loops are over, a layer covers no pixel of an opaque layer above it, if at that layer's turn its sizes agreed and the difference of the frames was a rectangle |
| Overdraw.TopmostHides | libhwcomposer/hwc_utils.cpp:930-964 | in particular, on the original list, nothing is left under the topmost opaque layer, whose frame is not cut |
| Overdraw.OptimizeLayerRects | libhwcomposer/hwc_utils.cpp:930-964 | both loops in place, for every list and with frames that shrink on the way, whatever needsScaling answers after a division by zero: they go through the stages above, so that hidden strips are removed, and the painted picture stays the same exactly under the condition above |
| Overdraw.CutBelow | libhwcomposer/hwc_utils.cpp:939-961 | the inner loop takes from each layer below the opaque one whose sizes agree exactly what is hidden, if a rectangle is left, and changes no other layer |
| Overdraw.TurnedLayerCanChange | libhwcomposer/hwc_utils.cpp:586-603 | a turned layer that is not square and is changed by overdraw removal |
| Overdraw.TrimmedLayerCanChange | libhwcomposer/hwc_utils.cpp:586-603 | scaled layers that reach beyond the screen, count as unscaled after trimming and are changed by overdraw removal |
| Overdraw.CutDividesByZeroIff | libhwcomposer/hwc_utils.cpp:941-957 | a cut leaves a frame for which the next trimming divides by zero if and only if the opaque layer hides the whole layer and the lower edge of that is outside the screen |
| PipeControl.NormalizeCropIsLargestEven | liboverlay/overlayMdp.cpp:34-44 | the result is the largest interval with even ends inside the crop, if and only if it is not an empty crop at an odd position |
| PipeControl.SetKeepsValid | liboverlay/overlayMdp.cpp:143-169 | the saved block stays what the driver holds, whatever the ioctl does |
| PipeControl.SetSucceeds | liboverlay/overlayMdp.cpp:143-169 | after success the driver holds the current block if and only if this was not a skipped call on a pipe that the driver has never seen |
| PipeControl.SetFails | liboverlay/overlayMdp.cpp:143-169 | after failure on a pipe with a saved block, the current block, the saved one and the driver's are the old saved one |
| PipeControl.SourcedSetReachesDriver | liboverlay/overlayMdp.cpp:97-109 | with a source, a successful first set gives the pipe an id and the driver the block |
| PipeControl.SetIsIdempotent | liboverlay/overlayMdp.cpp:143-169 | setting again changes nothing and sends nothing, for untransformed pipes without downscaling |
| PipeControl.MdpCtrl.SetSource | liboverlay/overlayMdp.cpp:97-109 | the block takes over all arguments and the fixed transparency mask |
| PipeControl.MdpCtrl.SetTransform | liboverlay/overlayMdp.cpp:119-125 | the block and the stored orientation get the MDP form of the transform |
| PipeControl.MdpCtrl.DoTransform | liboverlay/overlayMdp.cpp:127-134 | the source is pre-rotated and the rotation flag set |
| PipeControl.MdpCtrl.DoDownscale | liboverlay/overlayMdp.cpp:136-141 | the source rectangle is shifted |
| PipeControl.MdpCtrl.Set | liboverlay/overlayMdp.cpp:143-169 | set with its deferred calculations, comparison, save and restore is the specification function on the old object |
| PipeControl.MdpCtrl.Save | liboverlay/overlayMdp.h:284-290 | the current block is saved unless it has no id |
| PipeControl.MdpCtrl.Restore | liboverlay/overlayMdp.h:292-298 | the saved block comes back unless it has no id |
| PipeControl.MdpCtrl.Close | liboverlay/overlayMdp.cpp:75-95 | unset if there is an id, then everything is reset |
| PipeRuns.NextPipeFailsIffNoneLeft | liboverlay/overlay.cpp:84-134 | a typed request fails exactly when no available pipe has the type |
| PipeRuns.AnyRequestFailsIffCountIsZero | liboverlay/overlay.h:166-175 | a request for any type fails exactly when availablePipes is 0 |
| PipeRuns.NextPipeTakesOne | liboverlay/overlay.cpp:84-134 | a success yields an available pipe of the type and lowers the count by exactly one; another display's count falls exactly if the pipe had no owner |
| PipeRuns.NoPipeTwice | liboverlay/overlay.cpp:84-134 | until its display gives up the round, a pipe is not handed out again to any display |
| PipeRequests.FirstFittingIsTaken | liboverlay/overlay.cpp:84-134 | a request takes the first fitting pipe of the display itself, and only if it has none the first one that nobody owns; the pipe object is kept or created and nothing else changes |
| PipeRequests.OwnPipeComesFirst | liboverlay/overlay.cpp:84-118 | a display that has a fitting pipe of its own leaves every unowned slot unowned |
| PipeRuns.NewOwnerNeedsDestroy | liboverlay/overlay.cpp:64-82 | in every run, a pipe that changes its owner was destroyed in between while the first one still owned it |
| PipeRuns.UsedPipeNextRound | liboverlay/overlay.cpp:55-82 | a pipe in use at the end of a round stays its display's through the next one, and is then in use again or destroyed: the early return never leaks a used pipe |
| PipeRuns.BlankFreesAllIff | libhwcomposer/hwc.cpp:341-348 | blanking frees all pipes if and only if one was used last or none was owned |
| PipeRuns.UncommittedPipeIsKept | liboverlay/overlay.cpp:64-82 | a run in which a pipe without commit is kept from another display |
| LayerPipes.AllocLayerPipesIff | libhwcomposer/hwc_mdpcomp.cpp:1009-1078 | for every pool and every order of layers, all layers get pipes if and only if the videos fit the VG pipes and the two entries of yuvIndex, and the others fit the remaining RGB and VG pipes once those that may use DMA pipes have taken them; yuvIndex is overrun if and only if more than two videos meet more than two VG pipes |
| LayerPipes.VideosIff | libhwcomposer/hwc_mdpcomp.cpp:1010-1038 | the first loop, from any layer and counter on, with what it leaves of each pipe type |
| LayerPipes.OthersIff | libhwcomposer/hwc_mdpcomp.cpp:1051-1077 | the second loop, from any layer on |
| LayerPipes.VgComesLast | libhwcomposer/hwc_mdpcomp.cpp:342-371 | a layer that is no video takes a DMA pipe if it may and can, else an RGB pipe, and a VG pipe only if no RGB pipe is left |
| LayerPipes.AllocLayerPipesTakes | libhwcomposer/hwc_mdpcomp.cpp:1009-1078 | what a frame leaves of each type, whatever the order of its layers: videos take VG pipes, layers that may DMA pipes, the rest RGB pipes and VG pipes only when those are used up |
| LayerPipes.TypedRequest | liboverlay/overlay.cpp:84-134 | a request for a type succeeds exactly if such a pipe is left, and lowers the count of that type by one and no other |
| LayerPipes.RequestPipe | libhwcomposer/hwc_mdpcomp.cpp:342-371 | the request with its cases that fall through |
| LayerPipes.AllocAll | libhwcomposer/hwc_mdpcomp.cpp:1009-1078 | both loops in place end as the specification says: granted, refused or beyond the end of yuvIndex |
| LayerPipes.CountIsNotEnough | libhwcomposer/hwc_mdpcomp.cpp:751-766 | a frame with as many available pipes as layers that is refused |
| PipeRuns.LegalRunIsLive | liboverlay/overlay.cpp:136-156 | in every run in which a pipe gets a source before its first commit, a used pipe is open and has a driver id |
| PipeRuns.QueueNeverAborts | liboverlay/pipes/overlayGenPipe.cpp:128-137 | in those runs the aborts of queueBuffer cannot fire, and a used pipe queues to the session that the driver has for it |
| PipeRuns.QueueAfterCommitIff | liboverlay/overlay.cpp:136-168 | after a successful commit a pipe can be queued to if and only if the commit was not skipped on a pipe unknown to the driver |
| PipeRequests.DriverShowsRequest | libhwcomposer/hwc_utils.cpp:1295-1318 | after a request and a successful commit the driver's block has the request's format, sizes, z-order, blending and flags, its position (even-sized for YUV), and a source that shows at every point of any frame what the crop shows under the transform, divided by the downscale factor and, for YUV, trimmed to the largest even part |
| PipeRequests.PlainRequestIsExact | libhwcomposer/hwc_utils.cpp:1302-1310 | untransformed, unscaled and not YUV, the driver's source rectangle is the crop and its destination the position |
| PipeRequests.ShownUntilNextCommit | liboverlay/overlay.cpp:55-82 | whatever is done to a pipe and to others, the driver shows what it showed until the pipe is committed again or destroyed |
| PipeRequests.ClearGivesUp | liboverlay/overlay.cpp:354-365 | clear takes use and allocation from exactly the display's pipes; owners, what the driver shows and all other displays stay |
| PipeRequests.CommitOutcome | liboverlay/overlay.cpp:136-156 | a failed commit does the same to the pipe's display, and a successful one only marks the pipe as used |
| PipeRequests.GivenUpPipeIsResent | liboverlay/overlay.cpp:354-365 | after either, the next commit of each of those pipes is sent to the driver even if nothing changed: it succeeds exactly if the ioctl does |
| PipeRequests.RoundBegins | liboverlay/overlay.cpp:55-62 | a round begins with no pipe in use or allocated, while owners, pipes and the use of the last round stay |
| Overlay.GenericPipe.Commit | liboverlay/pipes/overlayGenPipe.cpp:110-126 | commit sets the control block and opens the pipe exactly on success |
| Overlay.Overlay.NextPipe | liboverlay/overlay.cpp:84-134 | the two searches hand out the display's own free pipe first, else an unowned one, and create its object |
| Overlay.Overlay.AvailablePipes | liboverlay/overlay.h:166-175 | the counting loop counts the unallocated pipes that are unowned or the display's |
| Overlay.Overlay.SetUp | libhwcomposer/hwc_utils.cpp:1295-1310 | the source, transform, crop and position of configMdp reach the pipe's block, crop as source rectangle and position as destination, with the flags of the pipe's type |
| Overlay.Overlay.Commit | liboverlay/overlay.cpp:136-156 | sets the use bit on success; on failure all pipes of the display lose use and allocation and are forced |
| Overlay.Overlay.Clear | liboverlay/overlay.cpp:354-365 | the same for clear |
| Overlay.Overlay.ConfigBegin | liboverlay/overlay.cpp:55-62 | no pipe is used or allocated, owners stay |
| Overlay.Overlay.ConfigDone | liboverlay/overlay.cpp:64-82 | unused pipes are destroyed and the use saved, unless it is unchanged |
| Overlay.Overlay.QueueBuffer | liboverlay/overlay.cpp:158-168 | queues only if the use bit is set; the three ways to abort |
| HotPlug.HandshakeHolds | libhwcomposer/hwc_uevents.cpp:142-184 | in every interleaving, when the wait of OFFLINE, PAUSE or the dropping of the virtual display returns, a whole round began and ended since the flags changed, no pipe in use belongs to the display, and each pipe it had in the saved use bitmap was destroyed |
| HotPlug.GoneDisplayHasNoPipes | libhwcomposer/hwc.cpp:176-285 | in every reachable state a display that is disconnected or paused has no pipe in use, except while it is told to leave |
| HotPlug.ConnectedIffCompositor | libhwcomposer/hwc_uevents.cpp:260-264 | in every reachable state an external or virtual display is connected exactly if its compositor exists, so no null pointer is followed and setup never drops a compositor |
| HotPlug.ConnectionStaysPending | libhwcomposer/hwc_uevents.cpp:203-208 | while ONLINE or RESUME waits, every round sees the connection pending and does not compose the new display; it goes on only after a whole round; the next rows say how it comes back |
| HotPlugRuns.ResumeShowsAgain | libhwcomposer/hwc_uevents.cpp:310-337 | in every run, when RESUME of a display returns and no blank came in between, the display is active, no longer paused and pending; if it is connected and its id is its own, the next round composes it |
| HotPlugRuns.OnlineConnects | libhwcomposer/hwc_uevents.cpp:186-281 | in every run, once ONLINE of a disconnected display is over, through whatever sections and interleaving, it is connected with a compositor, not paused, and pending |
| HotPlugRuns.HdmiTakesOver | libhwcomposer/hwc_uevents.cpp:211-241 | when the external display is about to be set up, the virtual one is disconnected and does not have its id |
| HotPlugRuns.UnblankedIsShown | libhwcomposer/hwc.cpp:324-425 | in every run, a display that was set up and not taken away since is composed after the unblanking of the id that is mapped to it |
| HotPlugRuns.VirtualIsShown | libhwcomposer/hwc_uevents.cpp:243-264 | a virtual display of the platform's own kind is composed as soon as it is set up; one of the other kind takes over the external display's id |
| HotPlugRuns.BorrowedIdIsHidden | libhwcomposer/hwc.cpp:255-284 | as long as the virtual display has the external one's id, that one is not composed |
| HotPlugRuns.ComposedGoesOn | libhwcomposer/hwc.cpp:176-285 | in every run, a display that is composed stays so until a blank, OFFLINE, PAUSE, the dropping of the virtual display or its taking over of the id takes it away |
| HotPlugRuns.UnblankShows | libhwcomposer/hwc.cpp:324-425 | unblanking shows the display that the id is mapped to if it is set up, and with the primary display a virtual one, and darkens none |
| HotPlugRuns.BlankHides | libhwcomposer/hwc.cpp:324-425 | blanking hides the display that the id is mapped to, and with the primary display a virtual one, and no other; no pipe stays in use, and those that were in use are destroyed |
| HotPlugRuns.GoneStaysDark | libhwcomposer/hwc_uevents.cpp:142-184 | in every run, after OFFLINE or making way for HDMI a display stays dark until it is unblanked (a virtual one only while connected), paused, resumed or set up as a virtual one |
| HotPlugRuns.GoneStays | libhwcomposer/hwc_uevents.cpp:142-337 | a display that is disconnected or paused is not composed until it is set up again or RESUME returns |
| HotPlugRuns.PauseHides | libhwcomposer/hwc_uevents.cpp:282-308 | PAUSE leaves the display active but hidden |
| HotPlugRuns.RoundEndsWait | libhwcomposer/hwc_uevents.cpp:142-337 | the end of a round lets every waiting section go on |
| HotPlugRuns.PendingEndsIff | libhwcomposer/hwc.cpp:187 | a pending connection ends exactly with the round that composes the display |
| HotPlugRuns.PendingBeginsIff | libhwcomposer/hwc_uevents.cpp:186-337 | and begins exactly with ONLINE, the set up, and RESUME |
| HotPlugRuns.EventIsTakenIff | libhwcomposer/hwc_uevents.cpp:142-337 | an event starts its section exactly if it asks for a change |
| HotPlug.StepKeepsInv | libhwcomposer/hwc.cpp:255-284 | every step of either thread keeps the handshake's invariant |
| HotPlug.RoundWithout | libhwcomposer/hwc.cpp:255-284 | after a round in which a display is not composed it has no pipe in use, and those it had are destroyed |
| HotPlug.WaitNeedsSignal | libgralloc/gr.h:85-86 | a reachable state in which OFFLINE waits while its display still has a pipe in use, so returning without a signal would break the handshake |
| Yv12Converter.InterleavePadded | libcopybit/software_converter.cpp:97-121 | the loop with two pairs of cursors ends and writes, as pair k, the k-th V and U sample that is not padding, and nothing else; its cursors move as `Pass` says |
| Yv12Converter.PaddedLoopEndsIff | libcopybit/software_converter.cpp:97-121 | after some number of passes the cursors have left the rows if and only if there is no row or there are two columns or more |
| Yv12Converter.InterleavePlain | libcopybit/software_converter.cpp:81-89 | the loop for rows without padding meets the same specification |
| Yv12Converter.InterleaveBlocks | libcopybit/software_converter.cpp:63-80 | the loop that moves blocks of eight samples meets the same specification |
| Yv12Converter.PlaneIsBlocks | libcopybit/software_converter.cpp:57-59 | a chroma plane is a whole number of blocks of eight |
| Yv12Converter.EvenHeightIsWhole | libcopybit/software_converter.cpp:54-61 | for even heights each form writes every sample that is not padding |
| Yv12Converter.SampleInPlane | libcopybit/software_converter.cpp:97-121 | every sample read lies in its plane |
| Yv12Converter.FormsAgree | libcopybit/software_converter.cpp:63-121 | the specification determines the result, so the forms agree byte for byte |
| Yv12Converter.ConvertYv12 | libcopybit/software_converter.cpp:35-124 | null handles fail and change nothing; otherwise luma is copied, chroma interleaved and the rest kept |
| YuvImages.ConversionShowsTheSameIff | libcopybit/software_converter.cpp:35-124 | whatever the bytes of an even YV12 image are, every luma, Cb and Cr sample at its gralloc address is the byte at the address of that sample in the planes of the YCrCb_420_SP result, if and only if no row is padded or there is one row of chroma |
| C2dConverter.CopyRows | libcopybit/software_converter.cpp:153-168 | rows of any length and strides: each byte that the next row does not overrun is copied, and bytes between rows are kept |
| C2dConverter.CopySourceToDestination | libcopybit/software_converter.cpp:138-170 | luma rows and whole chroma rows are copied, the chroma copy leaves luma alone, all other bytes are kept, null buffers fail |
| C2dConverter.ToAndroidLayouts | libcopybit/software_converter.cpp:192-211 | towards Android, the source has rows of the least multiple of 32 and the destination of 16 that hold the image's width, with the chroma behind the luma, for NV12_ENCODEABLE at the least multiple of 2048; other formats are refused |
| C2dConverter.ToC2dLayouts | libcopybit/software_converter.cpp:237-257 | towards C2D, the source rows have the handle's width and the destination rows the image's |
| C2dConverter.ConvertToAndroid | libcopybit/software_converter.cpp:181-215 | the copy with C2D and Android strides and plane offsets, or failure without change |
| C2dConverter.ConvertToC2d | libcopybit/software_converter.cpp:225-262 | the same in the other direction |
| C2dConverter.RoundTrip | libcopybit/software_converter.cpp:138-262 | Android to C2D and back, in buffers that are large enough, restores every visible luma byte and every byte of every chroma row, although each chroma row overruns into the next on the way |
| C2dBuffers.RoundTripInGralloc | libcopybit/software_converter.cpp:138-262 | the same for every odd or even size that overflows neither the allocation nor the conversion, in an Android buffer of exactly the size that gralloc computes, with the stride it reports |
| C2dBuffers.ConversionsFit | libcopybit/software_converter.cpp:181-262 | both conversions stay inside that Android buffer, although the last chroma row that is written back has the width of a C2D row |
| C2dBuffers.OrdinaryIsConvertible | libgralloc/alloc_controller.cpp:318-339 | every image of up to 8192 by 8192, odd or even, overflows neither, so the round trip covers it |
| C2dBuffers.RoomEncodeable | libgralloc/alloc_controller.cpp:318-334 | the chroma part of NV12_ENCODEABLE has room for a last row of C2D width, since twice its aligned half width is that width |
| C2dBuffers.Room420 | libgralloc/alloc_controller.cpp:335-339 | the page-rounded size of the 4:2:0 formats has room for a last chroma row of C2D width, for odd and even heights |
| Rotator.AbortsIff | liboverlay/overlayMdpRot.cpp:206-257 | a call aborts if and only if it needs no memory, or memory of another size while the previous memory is still there or none can be had |
| Rotator.PreviousStaysIff | liboverlay/overlayMdpRot.cpp:240-271 | the previous memory outlives a call if and only if it was there or replaced, and rotating or freeing failed |
| Rotator.ReportsIff | liboverlay/overlayMdpRot.cpp:240-271 | nothing is written exactly if rotating fails; a window is written but the call fails exactly if the previous memory was there and could not be freed |
| Rotator.NewSizeMovesOn | liboverlay/overlayMdpRot.cpp:206-238 | a call of another size writes into the new allocation, in the other slot, and the old one is kept until it is freed; a call of the same size stays where it is |
| Rotator.WindowsTakeTurns | liboverlay/overlayMdpRot.cpp:240-257 | the two windows of a slot are used in turn, also across allocations and failed rotations, and the other slot's turn does not change |
| Rotator.DisabledDoesNothing | liboverlay/overlayMdpRot.cpp:240-242 | exactly the calls while the session is disabled do nothing |
| Rotator.WindowIsInside | liboverlay/overlayMdpRot.cpp:206-257 | the destination window lies in the current allocation, which has the size asked for |
| Rotator.ConsecutiveWindowsAreDisjoint | liboverlay/overlayMdpRot.cpp:240-257 | two calls of equal size in a row write disjoint windows |
| Rotator.WorkingRunNeverAborts | liboverlay/overlayMdpRot.cpp:206-271 | while allocation, rotation and freeing work, no call aborts and the previous memory is free at every entry, across any size changes |
| Rotator.FailedRotationAborts | liboverlay/overlayMdpRot.cpp:206-271 | three calls in which a failed rotation makes the next size change abort |
| Rotator.MdpRot.Remap | liboverlay/overlayMdpRot.cpp:164-227 | the slots change places and the new current one gets the allocation and the offsets of its windows |
| Rotator.MdpRot.QueueBuffer | liboverlay/overlayMdpRot.cpp:240-271 | queueBuffer on the two slots is the specification function on the old object |
| RotSessions.ApplyKeepsCounts | liboverlay/overlayRotator.h:238 | in whatever order displays are configured and whatever fails, the maps hold at most mUseCount, which is at most 3, and giving back never underflows |
| RotSessions.RoundKeepsRotators | liboverlay/overlayRotator.cpp:132-158 | after every round, including failed configurations, each rotator that a layer holds is alive and held by that layer only |
| RotSessions.ApplyKeepsHeld | libhwcomposer/hwc_utils.cpp:1565-1583 | an operation of one display, also clear, leaves the rotators of the others in use and alive |
| RotSessions.RequestsAreServed | liboverlay/overlayRotator.cpp:147-158 | each request of a display uses up a session while one is left, also if it fails; the k-th one gets a rotator exactly if it exists or can be made, and the display holds it exactly if it was configured, too |
| RotSessions.RotatorSurvivesIff | liboverlay/overlayRotator.cpp:132-145 | a rotator survives a round exactly if as many sessions are used in it |
| RotSessions.InterleavingSharesRotators | libhwcomposer/hwc_utils.cpp:1580-1583 | why displays must be configured one after the other: interleaved, two layers get one rotator |
| RotSessions.RotMgr.GetNext | liboverlay/overlayRotator.cpp:147-158 | the next rotator of the stack, made if necessary, or none after three |
| RotSessions.RotMgr.ConfigDone | liboverlay/overlayRotator.cpp:137-145 | exactly the rotators above the used ones are deleted |
| RotSessions.LayerRotMap.Add | libhwcomposer/hwc_utils.cpp:1565-1570 | the rotator is appended unless the map is full |
| RotSessions.LayerRotMap.Clear | libhwcomposer/hwc_utils.cpp:1580-1583 | the map gives its count back to the stack and is empty |
| RotSessions.ConfigureRotator | libhwcomposer/hwc_utils.cpp:1408-1423 | a layer gets the next rotator only if there is one and it can be configured; a failure uses up a session |
| Bits.AlignIsLeastMultipleIff | libgralloc/gr.h:41-43 | bit-mask ALIGN to a power of two is the least multiple not below its argument if and only if the sum does not overflow |
| Bits.AlignComputes | libgralloc/gr.h:41-43 | what ALIGN yields for every 32-bit argument: the rounded value, or 0 after an overflow |
| Bits.RoundUpToPageSizeIsLeastMultipleIff | libgralloc/gr.h:37-39 | the same for roundUpToPageSize |
| Bits.AndMask | libgralloc/gr.h:41-43 | masking with ones above position k subtracts the rest modulo 2^k |
| FbSlots.WindowsStayDisjointIff | libgralloc/gpu.cpp:187-228 | in every sequence of allocations and frees, what is handed out lies in the mapped framebuffer and overlaps no live window, if and only if free takes no slot for another one |
| FbSlots.TakenForOtherIff | libgralloc/gpu.cpp:313-315 | free takes slot k for another one if and only if the rounding before it is a whole buffer or more and its offset is less than numBuffers unrounded buffers |
| FbSlots.FoundSlotsDoNotMix | libgralloc/gpu.cpp:313-315 | no slot is taken for another one if all but the last are found |
| FbSlots.AllocFailsWhenTakenIff | libgralloc/gpu.cpp:203-206 | in every sequence of allocations and frees, allocation fails exactly while every slot is taken, if and only if free finds every slot |
| FbSlots.AllocOutcomes | libgralloc/gpu.cpp:187-206 | -EINVAL exactly for heap buffers, an ordinary buffer exactly with one buffer, -ENOMEM exactly with every bit set, and nothing changes unless a buffer is handed out |
| FbSlots.FullIffAllSet | libgralloc/gpu.cpp:203-206 | comparing the mask with 2^n-1 tests whether all n bits are set |
| FbSlots.FreeClearsItsBit | libgralloc/gpu.cpp:310-315 | freeing a live window clears exactly the bit that its allocation set |
| FbSlots.IndexIsSlotIff | libgralloc/gpu.cpp:313-315 | dividing by the unrounded size finds slot k if and only if k times the rounding is less than one buffer |
| FbSlots.AllSlotsFoundIff | libgralloc/gpu.cpp:313-315 | every slot is found if and only if (numBuffers-1) times the rounding is less than one buffer |
| FbSlots.HalfPagesCollide | libgralloc/gpu.cpp:310-315 | three buffers of 2048 bytes: a run in which a live window is handed out again |
| FbSlots.LargerBuffersOnlyLeak | libgralloc/gpu.cpp:310-315 | three buffers of 2500 bytes never overlap, but the last slot is lost when it is freed |
| FbSlots.PrivateModule.AllocFramebuffer | libgralloc/gpu.cpp:172-229 | the slot search sets the first clear bit and returns its window, with the error cases |
| FbSlots.PrivateModule.FreeFramebuffer | libgralloc/gpu.cpp:310-315 | free clears the bit of the computed index |
| YuvPlanes.PlanesFitTheirBuffer | libgralloc/alloc_controller.cpp:276-448 | for every even size that does not overflow, the computed size is the unbounded one, and each format that both functions accept has all its luma and chroma samples below it |
| YuvImages.PairsAreNamed | libgralloc/alloc_controller.cpp:377-436 | in every semi-planar format, the Cb and Cr samples of a column are the two bytes of a pair behind the luma rows, in the order of the format's name |
| YuvImages.PartnersExchangeChroma | libgralloc/alloc_controller.cpp:384-412 | each Cb-first format is its Cr-first partner with the two chroma planes exchanged |
| YuvImages.SamplesAreDistinct | libgralloc/alloc_controller.cpp:377-436 | in every format with planes and for every even size that does not overflow, no two samples of the image share a byte, within a plane or between planes |
| YuvImages.InvalidIff | libgralloc/alloc_controller.cpp:276-374 | -EINVAL exactly for odd sizes of YV12, odd widths of the 4:2:2 formats, and a BLOB of more or less than one row |
| YuvImages.NoPlanesIff | libgralloc/alloc_controller.cpp:437-444 | the formats that have no planes: interleaved 4:2:2, the tiled one and BLOB |
| YuvImages.OtherSizesAreFull | libgralloc/alloc_controller.cpp:304-360 | the formats without planes get their full size, too |
| YuvPlanes.PlanesFitIff | libgralloc/alloc_controller.cpp:318-355 | for 4:2:0 and 4:2:2 semi-planar, NV12_ENCODEABLE and YV12 and every even size, all samples lie in the buffer if and only if the size does not overflow, in unsigned and, where it is halved, in signed arithmetic |
| YuvPlanes.PlanesFit420Iff | libgralloc/alloc_controller.cpp:335-339 | for 4:2:0 semi-planar that is the case if and only if the aligned luma size is below 2^31 |
| YuvPlanes.EncoderFindsChromaIff | libgralloc/alloc_controller.cpp:325-328 | for every even size whose luma does not overflow, the chroma offset reported for NV12_ENCODEABLE is the 2K-aligned one that the encoder and the C2D conversion use if and only if the luma size is a multiple of 2048 |
| YuvPlanes.PaddingCanHideOverflow | libgralloc/alloc_controller.cpp:294-297 | with padded rows the converse fails: a raw image whose size overflows to one that gralloc accepts, and whose planes fit |
| YuvPlanes.FitsYv12 | libgralloc/alloc_controller.cpp:415-426 | the three planes of YV12 with their aligned chroma stride fit |
| YuvPlanes.FitsAdreno | libgralloc/alloc_controller.cpp:300-303 | the Adreno layout with separately aligned planes covers the samples addressed with the luma stride |

## Left out

- `MDPCompHighRes`, `FBUpdateHighRes`, `configureHighRes`: their pipe list is indexed by list position and would need a second model without a stronger theorem.
- `isValidDimension` and the per-layer configuration are outcomes given with each frame, and so is the result of `allocLayerPipes`, which `LayerPipes` determines from the pool; `mDMAInUse` is an input of a frame.
- LayerPipes.AllocLayerPipesIff: the previous video sizes that `allocLayerPipes` resets are not modelled; the loop over `yuvIndices` is one over the layers that skips what is no video.
- The picture and cache theorems leave out the order of video-only frames, which put the framebuffer above the videos and always redraw; their counts and stages are covered.
- The rotator pointer of a `PipeLayerPair` and the fences of its draw step are not modelled.
- Double rounding in the crop ratios: ratios are exact reals, so a product that rounds just below a whole number in the source is whole here.
- A layer has one whole-number crop, although the code reads `sourceCrop` in one place and `sourceCropf` in another.
- Geometry.CropAndRotationCommute: rectangles with an empty crop or an empty remaining frame are not covered, since the source divides by the frame size.
- The fields of pipe blocks that only post-processing parameters change, `mPPChanged`, and the 3D pipes.
- Overlay.Overlay.NextPipe: opening the framebuffer device in the pipe's constructor is taken to work.
- PipeRequests.DriverShowsRequest: a crop that reaches beyond its buffer is left out, for which the source wraps around (`Geometry.Compute`), and so is a buffer of 2^32-1 columns or rows; a YUV source that is empty at an odd position is the exception of `NormalizeCropIsLargestEven`. What visual parameters add to the block is not modelled.
- LayerPipes.AllocLayerPipesTakes: which layer gets which pipe is not recorded, only what is left of each type.
- HotPlugRuns.ResumeShowsAgain: that rounds and steps happen at all is not claimed.
- HotPlug: the order of display lists, refresh callbacks, device configuration and teardown, and liveness; a section that runs entirely under the lock is one step.
- HotPlug.HandshakeHolds: a spurious wake-up of the condition variable is excluded, as the source has no loop against it; `WaitNeedsSignal` shows the difference.
- Yv12Converter.InterleavePadded: an image of fewer than two columns with padded rows is excluded, since the loop does not end for it (`PaddedLoopEndsIff`); the cursors of that theorem are unbounded, while with one column the reads leave every buffer long before a 32-bit cursor could wrap around.
- Image and stride sizes beyond 32 bits: the converters are stated for sizes whose products do not overflow.
- YuvPlanes.PlanesFitTheirBuffer: odd and negative sizes, RGB surfaces (their stride comes from a GPU library) and the Venus format are left out; for the four formats with padded rows the condition is sufficient only (`PaddingCanHideOverflow`).
- YuvPlanes: products of `int` wrap around modulo 2^32, where C++ leaves the overflow undefined; `alloc_impl` also rejects sizes from 2^31 on (libgralloc/gpu.cpp:274).
- YuvImages.SamplesAreDistinct: odd sizes are left out, and so are sizes that overflow.
- YuvImages.ConversionShowsTheSameIff: odd sizes, and images whose planes 32-bit offsets cannot address, are left out.
- C2dBuffers.RoundTripInGralloc: the size of the C2D buffer comes from the C2D library and is assumed to be large enough.
- FbSlots: duplication of file descriptors, the module lock and the single-buffer path through the ordinary allocator; a computed index of 32 or more clears no bit in the model, where C++ leaves the shift undefined.
- Rotator: `MdssRot` has the same memory handling with other ioctls; release fences are left out.
- RotSessions: the clearing of all rotators on blank, after which maps are reset before their next use.
- The C2D blitter and its thread, `hwc_copybit.cpp`, `copybit.cpp`: they depend on a library that is not part of the source.
- ioctls, sysfs, properties, binder service, vsync, idle timer, dumps, GL rendering, lights, HDMI mode tables, ION: plumbing around the modelled state.
