# sprinkle editing core, in Dafny

This project models the editing core of sprinkle, a pixel-art editor written in Rust
on the Bevy engine, and proves properties of that model. Every image is a row-major
RGBA8 byte buffer of `width*height*4` bytes, and pixel `(x, y)` starts at byte
`(y*width + x)*4`. The model covers five parts.

- **Brush scratch-buffer engine** (`brush.dfy`, module `Brush`). The class `BrushState`
  has the same fields as the source, including the scratch buffer, the pre-stroke
  snapshot, the mode and the cleared flag. It models:
  - clearing the buffer and plotting one pixel;
  - the all-octant, integer-only Bresenham line loop, with its loop invariants;
  - compositing the marks over the snapshot: the eraser rule, the blend and the
    saturating alpha add;
  - the per-tick stroke step of the `painting` system;
  - starting and stopping a stroke.

  The line is specified by a pure function `LinePoints`, and proved to run from start
  to end one 8-connected, monotone step at a time.
- **Stack-driven flood fill** (`bucket.dfy`, module `Bucket`).
  - `span_fill_step` works in place on an `array<byte>`.
  - The `while let` loop of `start_filling` is proved against a pure, terminating
    `FloodFill`.
  - `compare_color` is modelled exactly as written: the absolute value of the sum of
    signed differences, truncated to a byte.
- **Sparse paint buffer** (`buffer.dfy`, module `Buffer`). The class `ImageBuffer`
  holds the `changed` map and the bytes of its scratch image. Its three operations are:
  - `paint`, which records a colour and mirrors it into the scratch image;
  - `apply_to_image`, which is proved equal to a pure, order-independent `Overlay`;
  - `clear`.
- **Operations** (`paintcmd.dfy` for `Paint` and `StopPaint`, `fillcmd.dfy` for `Fill`).
  - The editor resources the operations touch are gathered in one class, `Editor.World`
    (`world.dfy`).
  - Each operation's effect is a pure function on a `Scene` value, and the methods on
    `World` are proved equal to it.
  - Undo and redo are the same snapshot swap.
  - One growth iteration of the animated fill is the pure `Sweep`. It is proved to paint
    exactly the frontier and to admit only neighbours that pass the colour tests, with
    each diagonal gated as the source gates it.
- **Two command centres.**
  - `commands.dfy` (module `Commands`) models `src/commands/mod.rs` with
    `src/commands/undo.rs`. The FIFO drain, the `history` and `undo_history` stacks, and
    Undo and Redo delegating to `perform_undo` and `perform_redo` are specified by a
    pure `Drain`.
  - `legacy.dfy` (module `Legacy`) models the older `src/command.rs`, which records every
    processed command and swaps whole buffers with a length assertion.

Resources the framework locates (`Res`, `Query`, asset handles) are plain fields of
`Editor.World` or plain parameters:
- the canvas size and cursor;
- the bytes of the active layer's first frame;
- the pending operation state;
- the brush colour;
- the sparse buffer;
- the animated fill's state.

`Editor.World` and `Editor.FillState` stand for these framework resources and model no
source function, so they have no rows in the table below. In particular the
`Transparent` colours and zero speed and clock that `FillState`'s constructor starts
with stand for no default in the source, because no source type declares those fields.

A panic in the source (an index out of range, an `unwrap` on `None`, an `assert`)
becomes `None` in the pure models. The matching method then requires that result to be
`Some`.

Points where the source is not self-consistent, and what the model does there:
- `canvas_fill` reads and writes fields (`alive_pixels`, `fill_in_color`, `color`,
  `speed`, `elapsed`) that the declared `BucketState` in `src/tools/bucket.rs` lacks.
  They are modelled as a separate class, `Editor.FillState`.
- `src/commands/mod.rs:93-95` wraps `Fill` as a command with one argument, while
  `src/commands/fill.rs:14` and `:24` define it as an operation with two. It is modelled
  as an operation.
- `Paint::process` resets the scratch image but not the `changed` map. The model does
  the same, so recorded pixels outlive a new stroke until `StopPaint` clears them.
- `Fill::process` with the cursor off the canvas changes nothing. The operation is
  still pushed onto the history with an empty snapshot, so undoing it swaps an empty
  buffer into the layer. `Commands.Step` models exactly that, and
  `Commands.FillOutsideUndo` proves the empty layer after the undo.

`color_distance` is defined outside the modelled files; the model takes it to be the
sum of the absolute channel differences divided by 255. On whole channel values,
`color_distance < 0.01` then means an integer distance of at most 2 (since 3/255 is
above 0.01 and 2/255 below it), and `> 0.01` means at least 3 (`FillCmd.NearOrFar`).
`Image::paint`, `Image::color_at_pos` and `Canvas::in_bounds` are also defined outside
the modelled files. They are modelled by their evident meaning:
- write the four bytes of the pixel;
- read the four bytes of the pixel;
- `0 <= x < width && 0 <= y < height`.

## Model

| member | source | states |
|---|---|---|
| Pixels.SetColor | src/tools/brush.rs:65-68 | writing a pixel's four bytes keeps the length and makes the pixel read back as the colour |
| Pixels.SetColorElsewhere | src/buffer.rs:30-33 | writing a pixel's four bytes leaves every disjoint 4-byte pixel unchanged |
| Pixels.LinInBounds | src/tools/bucket.rs:31 | a pixel on the canvas has its four bytes inside the `width*height*4` buffer |
| Pixels.OffsetsApart | src/buffer.rs:26 | two distinct positions with columns inside the row own disjoint bytes |
| Pixels.SamePixels | src/buffer.rs:44-54 | two buffers of whole pixels that agree on every pixel are equal |
| Brush.BrushState.constructor | src/tools/brush.rs:20-29 | the default brush: no buffer, no snapshot, white, pixel mode, no positions, flags clear |
| Brush.BrushState.IsPixelMode | src/tools/brush.rs:36-47 | pixel mode is exactly "not line mode" |
| Brush.BrushState.Ink | src/tools/brush.rs:32-34 | the colour written is opaque white for the eraser (a colour of alpha 0), the brush colour otherwise |
| Brush.BrushState.ClearBuffer | src/tools/brush.rs:49-52 | the scratch buffer becomes `width*height*4` zeros and is flagged cleared |
| Brush.BrushState.PutColor | src/tools/brush.rs:65-68 | exactly the four bytes at the index take the colour |
| Brush.BrushState.DrawPoint | src/tools/brush.rs:54-69 | exactly the pixel at `(x + y*width)*4` takes the ink colour; the cleared flag is reset |
| Brush.BrushState.DrawLine | src/tools/brush.rs:71-111 | the loop writes exactly the ink colour at every point of `LinePoints(start, end)`, in order, and stops after the end point |
| Brush.BrushState.AdvanceStep | src/tools/brush.rs:101-109 | the loop's step updates (x, y, err) as the reference `Advance` says, both tests reading `e2` before either update |
| Brush.AdvanceTracks | src/tools/brush.rs:89-109 | away from the end, one step moves 0 or `sx` in x and 0 or `sy` in y, never neither; it strictly shrinks the distance left and keeps the error term in step |
| Brush.LineFrom | src/tools/brush.rs:90-100 | the points from the current loop state start there and end at the end point |
| Brush.LinePoints | src/tools/brush.rs:80-100 | the line starts at the start point and ends at the end point |
| Brush.LinePointsShape | src/tools/brush.rs:83-109 | the line is `[start]` when start equals end; consecutive points are one 8-connected step toward the end; every point lies in the bounding box |
| Brush.LineInBounds | src/tools/brush.rs:91 | a line between two canvas pixels stays on the canvas, so every byte index it writes is in range |
| Brush.PlotAll | src/tools/brush.rs:90-96 | plotting a sequence of points keeps the buffer's length |
| Brush.PlotAllPixel | src/tools/brush.rs:74-96 | after plotting, a pixel has the ink colour if it is one of the points and its old colour otherwise |
| Brush.Lerp | src/tools/brush.rs:133-141 | the blended channel equals the snapshot's at alpha 0 and the mark's at alpha 255, and lies between the two |
| Brush.Composite | src/tools/brush.rs:117-124 | the output has one 4-byte pixel per zipped pair of snapshot and scratch pixels |
| Brush.CompositeAt | src/tools/brush.rs:120-148 | each output pixel is the per-pixel composite of the snapshot pixel and the scratch pixel at the same place |
| Brush.CompositeErases | src/tools/brush.rs:126-131 | eraser: a pixel whose mark has alpha 255 becomes `(0,0,0,0)`, any other keeps its snapshot bytes |
| Brush.CompositeBlends | src/tools/brush.rs:133-145 | alpha is the saturating sum `min(a1+a2, 255)`; RGB lies between snapshot and mark; mark alpha 0 passes the snapshot through; mark alpha 255 yields the mark's RGB |
| Brush.CompositeCleared | src/tools/brush.rs:117-149 | compositing an all-zero scratch buffer gives back the snapshot, for the eraser and for the brush |
| Brush.BrushState.GetUpdatedBuffer | src/tools/brush.rs:117-149 | None without a snapshot, otherwise the composite of snapshot and scratch buffer |
| Brush.BrushState.ApplyBufferToLayer | src/tools/brush.rs:162-176 | the snapshot is taken from the layer only when none exists; the layer becomes the composite |
| Brush.BrushState.StartPainting | src/tools/brush.rs:179-207 | the mode follows the shift key; the snapshot is the layer; the buffer is cleared; with the cursor inside, its pixel is marked and composited over the layer, and the start and last positions are the cursor or None |
| Brush.BrushState.StopPainting | src/tools/brush.rs:209-214 | the snapshot is handed over and dropped; the last position is forgotten |
| Brush.BrushState.SwitchMode | src/tools/brush.rs:225-239 | shift pressed: line mode, buffer cleared and re-applied, switch to line recorded; shift released: pixel mode, switch to pixel recorded |
| Brush.BrushState.FollowCursor | src/tools/brush.rs:241-266 | redraws only when the cursor is inside, a last position exists and the cursor moved (or line mode was just entered); the last position follows the cursor |
| Brush.BrushState.PrepareRedraw | src/tools/brush.rs:247-256 | pixel mode starts from the last position and clears only after a switch to pixel mode; line mode clears and starts from the stroke's start |
| Brush.BrushState.Redraw | src/tools/brush.rs:247-261 | the buffer becomes the line from the chosen start plotted over the chosen base; the layer is the composite; both switch flags are reset |
| Brush.BrushState.Painting | src/tools/brush.rs:216-267 | the whole tick: the new mode, the last position, and either the redrawn line with its composite or the untouched buffer and layer |
| Brush.RedrawnLine | src/tools/brush.rs:254-258 | after a redraw over a cleared buffer, a canvas pixel shows the ink exactly when it lies on the line |
| Bucket.CompareSelf | src/tools/bucket.rs:23-29 | a colour compares 0 with itself, and the comparison is symmetric |
| Bucket.CompareCancels | src/tools/bucket.rs:23-29 | two distinct colours whose differences cancel compare 0 |
| Bucket.CompareWraps | src/tools/bucket.rs:28 | a summed difference of 256 truncates to 0 |
| Bucket.Neighbours | src/tools/bucket.rs:81-84 | four positions are pushed after a successful step |
| Bucket.StepShrinks | src/tools/bucket.rs:46-51 | a successful step lowers the count of pixels not equal to the fill colour (the loop's termination measure) |
| Bucket.FloodFill | src/tools/bucket.rs:77-86 | the stack-driven fill keeps the image's length and terminates, measured by unfilled pixels, then stack length |
| Bucket.FloodFillPop | src/tools/bucket.rs:79-85 | popping a position: on a successful step the pixel is filled and its four neighbours pushed, otherwise it is dropped |
| Bucket.FloodFillOnlyFills | src/tools/bucket.rs:46-51 | every pixel the fill changes now equals the fill colour and passed both colour tests |
| Bucket.FloodFillKeeps | src/tools/bucket.rs:41-44 | a pixel already of the fill colour is never changed |
| Bucket.FloodFillFrontier | src/tools/bucket.rs:77-86 | when the stack empties, no neighbour of a changed pixel is still fillable |
| Bucket.FloodFillSeed | src/tools/bucket.rs:77-86 | from one seed: nothing changes when the seed is not fillable; otherwise the seed is filled; only fill-coloured, test-passing pixels change; no fillable neighbour of a changed pixel remains |
| Bucket.PaintFillable | src/tools/bucket.rs:41-51 | after a pixel is painted it is no longer fillable, and every other pixel's fillability is unchanged |
| Bucket.BucketState.constructor | src/tools/bucket.rs:9-14 | the default resource: no snapshot, white fill and target colours |
| Bucket.BucketState.SpanFillStep | src/tools/bucket.rs:17-52 | true exactly when the pixel is on the canvas, compares 0 with the target and not 0 with the fill colour; then exactly its four bytes take the fill colour, otherwise no byte changes |
| Bucket.BucketState.StartFilling | src/tools/bucket.rs:55-90 | tool goes Idle in every case; with the cursor inside, the target becomes the seed's colour, the snapshot the image, and the image the flood fill from the seed |
| Bucket.BucketState.StopFilling | src/tools/bucket.rs:92-96 | the snapshot is handed over and dropped |
| Buffer.Overlay | src/buffer.rs:44-54 | applying the recorded colours keeps the image's length |
| Buffer.OverlayAt | src/buffer.rs:47-54 | a recorded pixel takes its recorded colour; every other pixel keeps its bytes |
| Buffer.OverlayIdentity | src/buffer.rs:47 | an empty record leaves the image unchanged |
| Buffer.OverlayAdd | src/buffer.rs:47-54 | recording one more position adds exactly that pixel's write |
| Buffer.OverlayIdempotent | src/buffer.rs:47-54 | applying twice equals applying once |
| Buffer.MirroredPaint | src/buffer.rs:22-33 | recording a colour and writing it at its pixel keeps the scratch image showing every recorded colour |
| Buffer.ImageBuffer.constructor | src/buffer.rs:97-109 | the buffer starts with no record and a 128x128 all-zero scratch image |
| Buffer.ImageBuffer.Paint | src/buffer.rs:15-36 | records `changed[pos] = color` in every case; false and no byte written when it was already recorded with that colour; otherwise exactly that pixel is written; preserves the mirror invariant |
| Buffer.ImageBuffer.ApplyToImage | src/buffer.rs:38-55 | the loop over the map yields `Overlay(image, changed)`, whatever the order of the map |
| Buffer.ImageBuffer.Clear | src/buffer.rs:57-63 | the record is emptied and the scratch image is `width*height*4` zeros |
| PaintCmd.NewPaint | src/commands/paint.rs:11-16 | a new operation stores the colour and an empty snapshot |
| PaintCmd.ProcessSnapshots | src/commands/paint.rs:30-53 | processing snapshots the layer into the operation, leaves the layer as it is, sets Painting and the brush colour, and makes the scratch image `width*height*4` zeros |
| PaintCmd.SwapTwice | src/commands/paint.rs:56-80 | undo followed by redo (the same swap) restores both the snapshot and the layer |
| PaintCmd.StopPaint | src/commands/paint.rs:85-104 | defined exactly when every recorded pixel fits in the layer (the source indexes out of range otherwise) |
| PaintCmd.StopPaintWrites | src/commands/paint.rs:85-104 | ending the stroke sets Idle, writes each recorded pixel's colour into the layer, keeps every other pixel, and empties the record |
| PaintCmd.ProcessPaint | src/commands/paint.rs:30-54 | the editor after `Paint::process` is exactly the pure `Process` of the editor before it |
| PaintCmd.UndoPaint | src/commands/paint.rs:56-67 | the editor after `undo` is exactly the snapshot swap |
| PaintCmd.RedoPaint | src/commands/paint.rs:69-80 | the editor after `redo` is exactly the same snapshot swap |
| PaintCmd.ProcessStopPaint | src/commands/paint.rs:85-104 | the editor after `StopPaint::process` is exactly the pure `StopPaint` of the editor before it |
| PaintCmd.CanvasPaint | src/commands/paint.rs:111-128 | nothing changes with the cursor outside; inside, the cursor pixel is painted into the sparse buffer in the brush colour, with `paint`'s outcome |
| FillCmd.NewFill | src/commands/fill.rs:14-21 | defined exactly when `speed > 0`, and then an empty snapshot with the colour and speed |
| FillCmd.ProcessSeeds | src/commands/fill.rs:30-53 | cursor outside: nothing changes; inside: the layer is snapshotted, the frontier is the seed, the target is the seed's colour, colour and speed are copied, the clock is 0, the state is Filling |
| FillCmd.SwapTwice | src/commands/fill.rs:55-70 | undo followed by redo (the same swap) restores both the snapshot and the layer |
| FillCmd.NearOrFar | src/commands/fill.rs:104-105 | on whole channel values the near test is exactly "not far", is exactly "distance at most 2", and a colour is near itself |
| FillCmd.GatherSound | src/commands/fill.rs:116-136 | a position the moves add passed the test made for it |
| FillCmd.GatherCorners | src/commands/fill.rs:121-136 | a corner is added exactly when its gate is set, both adjacent axis moves succeeded, and its own test passed |
| FillCmd.ExpandSound | src/commands/fill.rs:98-136 | every pixel admitted by one pixel's moves is one of its eight neighbours, is on the canvas, matches the target colour and does not match the fill colour |
| FillCmd.ExpandAxis | src/commands/fill.rs:116-119 | an axis neighbour is admitted exactly when it passes `move_pos`'s tests |
| FillCmd.ExpandCorners | src/commands/fill.rs:121-136 | a diagonal neighbour is admitted exactly when its gate bit is set and both adjacent axis moves and its own test succeed |
| FillCmd.Painted | src/commands/fill.rs:96 | painting a frontier pixel keeps the layer's length |
| FillCmd.PaintedAt | src/commands/fill.rs:96 | painting writes the fill colour at that pixel and no other |
| FillCmd.Sweep | src/commands/fill.rs:95-137 | one growth pass keeps the layer's length |
| FillCmd.SweepPaints | src/commands/fill.rs:95-96 | after a pass a pixel has the fill colour if it is in the frontier and its old colour otherwise: no pixel outside the frontier is written |
| FillCmd.SweepKeeps | src/commands/fill.rs:93-137 | a pass only adds to the new frontier |
| FillCmd.SweepSound | src/commands/fill.rs:98-112 | every pixel a pass admits is adjacent to a frontier pixel and, in the image before the pass, is on the canvas, matches the target and does not match the fill colour |
| FillCmd.SweepComplete | src/commands/fill.rs:116-119 | every axis neighbour of a frontier pixel that is outside the frontier and passes the tests enters the new frontier |
| FillCmd.SweepClosedGates | src/commands/fill.rs:121-136 | with every gate closed, each admitted pixel is an axis neighbour of a frontier pixel |
| FillCmd.ProcessFill | src/commands/fill.rs:30-53 | the editor after `Fill::process` is exactly the pure `Process` of the editor before it |
| FillCmd.UndoFill | src/commands/fill.rs:55-66 | the editor after `undo` is exactly the snapshot swap |
| FillCmd.RedoFill | src/commands/fill.rs:68-70 | `redo` is `undo`: the same swap |
| FillCmd.Move | src/commands/fill.rs:98-112 | `move_pos` reports success exactly when the pixel is on the canvas, near the target and far from the fill colour, and then adds it to the new frontier |
| FillCmd.MoveIf | src/commands/fill.rs:122-136 | a gated corner move adds the corner only when attempted and admitted |
| FillCmd.ExpandPixel | src/commands/fill.rs:116-136 | the eight moves from one pixel add exactly what `Expand` admits over the current layer |
| FillCmd.GrowOnce | src/commands/fill.rs:93-137 | one growth iteration over the frontier in the given order yields exactly the layer and new frontier of `Sweep` |
| FillCmd.Enumerate | src/commands/fill.rs:95 | the frontier is visited as a sequence that lists each of its pixels exactly once |
| FillCmd.CanvasFill | src/commands/fill.rs:73-146 | the clock advances by `delta`; an empty new frontier sets Idle and stops the tick; otherwise the new frontier replaces the old, stays on the canvas and is non-empty; every pixel ends as it was or of the fill colour |
| Commands.IsOperation | src/commands/mod.rs:46-51 | true exactly for the `Operation` variant |
| Commands.ProcessOp | src/commands/mod.rs:34-45 | processing a paint (fill) operation yields a paint (fill) operation |
| Commands.SwapOp | src/commands/mod.rs:59-61 | undo and redo of any operation exchange its snapshot with the layer and change nothing else |
| Commands.SwapOpTwice | src/commands/mod.rs:115-129 | swapping twice restores the operation and the editor |
| Commands.AfterUndo | src/commands/mod.rs:115-121 | empty history: no change; otherwise the top of the history is popped, undone and pushed onto the undone stack; the total of both stacks is kept |
| Commands.AfterRedo | src/commands/mod.rs:123-129 | empty undone stack: no change; otherwise its top is popped, redone and pushed onto the history; the total of both stacks is kept |
| Commands.UndoThenRedo | src/commands/mod.rs:115-129 | redo right after an undo restores both stacks and the editor |
| Commands.RedoThenUndo | src/commands/mod.rs:115-129 | undo right after a redo restores both stacks and the editor |
| Commands.Step | src/commands/mod.rs:98-103 | processing one item keeps the centre's invariant: editor invariant, whole-pixel snapshots |
| Commands.Drain | src/commands/mod.rs:97-105 | draining the queue keeps the centre's invariant |
| Commands.UndoRedoDelegate | src/commands/undo.rs:6-8 | processing Undo has exactly the effect of `perform_undo`, and Redo (undo.rs:18-20) that of `perform_redo`; neither is pushed onto the history |
| Commands.DrainAppend | src/commands/mod.rs:97-105 | draining a queue in two parts equals draining it whole: FIFO order |
| Commands.DrainCounts | src/commands/mod.rs:101-103 | draining adds one stack entry per operation; commands never enter the history |
| Commands.DrainPair | src/commands/mod.rs:97-105 | draining two items processes the first and then the second |
| Commands.StrokeUndoRedo | src/commands/mod.rs:97-129 | after a stroke (Paint then StopPaint), Undo restores the layer and the history, and Undo followed by Redo restores the post-stroke state |
| Commands.Undos | src/commands/mod.rs:115-121 | `k` Undo items in a row keep the total of both stacks |
| Commands.UndosLayer | src/commands/mod.rs:115-121 | undoing the latest `k` operations pops exactly them off the history and leaves the snapshot of the earliest of them in the layer |
| Commands.DrainOperationsKeep | src/commands/mod.rs:97-105 | draining only operations pushes one entry per operation on top of the existing history, which is kept |
| Commands.FirstSnapshot | src/commands/paint.rs:30-53 | a processed paint, or a fill processed with the cursor on the canvas, enters the history holding the layer it was processed on |
| Commands.OperationsUndone | src/commands/mod.rs:97-121 | `k` operations (the first a paint or an on-canvas fill) followed by `k` undos give back the layer from before the run and the history as it was |
| Commands.FillOutsideUndo | src/commands/fill.rs:30-53 | a new fill processed with the cursor off the canvas is still pushed, with its empty snapshot, so undoing it leaves an empty layer |
| Commands.CanvasCommands.constructor | src/commands/mod.rs:70-76 | the default centre: empty queue and stacks |
| Commands.CanvasCommands.Add | src/commands/mod.rs:79-84 | appends to the back of the queue; clears the undone stack exactly when the item is an operation |
| Commands.CanvasCommands.StartPainting | src/commands/mod.rs:86-88 | queues a new paint operation in the colour, which clears the undone stack |
| Commands.CanvasCommands.StopPainting | src/commands/mod.rs:89-91 | queues StopPaint; the stacks are kept |
| Commands.CanvasCommands.RequestUndo | src/commands/mod.rs:107-109 | only queues Undo; the undone stack is kept |
| Commands.CanvasCommands.RequestRedo | src/commands/mod.rs:111-113 | only queues Redo; the undone stack is kept |
| Commands.CanvasCommands.PerformUndo | src/commands/mod.rs:115-121 | the stacks and editor after `perform_undo` are exactly `AfterUndo` of those before |
| Commands.CanvasCommands.PerformRedo | src/commands/mod.rs:123-129 | the stacks and editor after `perform_redo` are exactly `AfterRedo` of those before |
| Commands.CanvasCommands.Run | src/commands/mod.rs:98-103 | processing one popped item gives exactly the pure `Step` |
| Commands.CanvasCommands.Call | src/commands/mod.rs:97-105 | the queue ends empty, and the stacks and editor are exactly the pure `Drain` of the queue from the state before |
| Legacy.PaintWith | src/command.rs:15-17 | builds a paint command holding the buffer |
| Legacy.DoStuff | src/command.rs:61-73 | defined exactly for a paint command whose buffer has the layer's length (the `assert_eq!`); then the buffer and the layer trade places |
| Legacy.DoStuffTwice | src/command.rs:76-86 | processing and then undoing (both `do_stuff`) restores the command and the layer |
| Legacy.Drain | src/command.rs:105-110 | draining pushes every processed command onto the history (it grows by the queue's length) and keeps the undone stack and the layer's length |
| Legacy.DrainRecords | src/command.rs:105-110 | the k-th queued command is a paint of the right length, and the k-th new history entry is that command after processing: a paint holding the layer as it was when the command came up |
| Legacy.DrainAppend | src/command.rs:105-110 | the queue is drained front to back: draining two queues joined is draining the first and then the second |
| Legacy.DrainOne | src/command.rs:105-110 | draining one paint command of the layer's length pushes that command holding the old layer and leaves its buffer in the layer |
| Legacy.DrainKeeps | src/command.rs:105-110 | draining keeps the existing history entries |
| Legacy.AfterUndo | src/command.rs:112-120 | empty history: no change; otherwise the total of both stacks is kept |
| Legacy.AfterRedo | src/command.rs:122-130 | empty undone stack: no change; otherwise the total of both stacks is kept |
| Legacy.UndoThenRedo | src/command.rs:112-130 | redo right after an undo restores both stacks and the layer |
| Legacy.ProcessThenUndo | src/command.rs:76-86 | processing a paint command and then undoing it restores the layer and the history, leaving the command on the undone stack |
| Legacy.Undos | src/command.rs:112-120 | `k` undos in a row keep the total of both stacks when none panics |
| Legacy.UndosLayer | src/command.rs:112-120 | when the latest `k` entries are paints of the layer's length, `k` undos succeed, pop exactly them and leave in the layer the buffer of the earliest |
| Legacy.DrainUndone | src/command.rs:105-120 | draining a queue and then undoing as many commands succeeds and gives back the layer and the history from before the queue |
| Legacy.CanvasCommands.constructor | src/command.rs:88-94 | the default centre: empty queue and stacks |
| Legacy.CanvasCommands.Add | src/command.rs:97-99 | appends to the back of the queue and never touches the undone stack |
| Legacy.CanvasCommands.QueuePaint | src/command.rs:101-103 | queues a paint command holding the buffer |
| Legacy.CanvasCommands.Exchange | src/command.rs:61-73 | the command's buffer and the layer are exactly swapped |
| Legacy.CanvasCommands.Call | src/command.rs:105-110 | the queue ends empty, and the stacks and layer are exactly the pure `Drain` |
| Legacy.CanvasCommands.Undo | src/command.rs:112-120 | returns whether the history was non-empty; the state after is exactly `AfterUndo` |
| Legacy.CanvasCommands.Redo | src/command.rs:122-130 | returns whether the undone stack was non-empty; the state after is exactly `AfterRedo` |

## Left out

- The Bevy application, camera, window-to-canvas transform, layers, timeline and
  texture setup are not modelled. The active layer's first frame is a plain `seq<byte>`
  field.
- Keyboard input is not modelled. The shift key becomes boolean parameters:
  pressed, just pressed, just released.
- Logging (`info!`, `println!`) is not modelled.
- `brush_preview`, `draw_line_thickness` (`todo!`), `BlendMode`, the commented-out
  `filling` system and the `rand`/`thread` imports are not modelled.
- `History`, `HistoryItem` and `ToolState` are not part of this model. `stop_painting`
  and `stop_filling` return the snapshot they push.
- `Image::paint`, `Image::color_at_pos`, `Canvas::in_bounds` and `color_distance` are
  not part of this model. They are modelled by their evident meaning, as described
  above.
- `AddLayer` and `DeleteLayer` in `src/command.rs` are `todo!`. They are `None` (a
  panic) in `Legacy.DoStuff`.
- The `fill` helper of `src/commands/mod.rs:93-95` is not modelled, because it does not
  match `Fill`'s two-argument constructor.
- `max_history` is not modelled; it is never read.
- Integer widths are not modelled.
  - Positions are unbounded integers, so the `i32`/`u32` arithmetic in index
    computations cannot overflow in the model.
  - The cursor is an integer point (the source's `as_uvec2`/`as_ivec2` truncations of
    an `f32` position).
  - `compare_color` does model its `i16` sum and its truncation to `u8`.
- Brush.Lerp: the `f32` lerp and float-to-`u8` cast of `src/tools/brush.rs:133-141`
  become an exact integer lerp, floored. Only the endpoint and betweenness properties
  are claimed.
- FillCmd.CanvasFill: the iteration budget `times` (an `f32` product of the frame time,
  speed and clock) is a natural-number parameter. The clock and speed are `real`.
- FillCmd.CanvasFill: the four corner gates (the parity of the scaled `f32` clock) are
  boolean parameters, fixed for the tick.
- FillCmd.CanvasFill: its contract does not chain iterations into one pure
  multi-iteration function, because each iteration visits the `HashSet` frontier in an
  unspecified order. It states each iteration exactly (`GrowOnce` against `Sweep`, over
  an order chosen by `Enumerate`) and the tick-level invariants.
- The `HashMap`/`HashSet` iteration order becomes a nondeterministic choice.
  `ApplyToImage` is shown to be order-independent; `canvas_fill`'s result can depend on
  the order.
- Buffer.ImageBuffer.Paint: it requires the position's column to lie inside a row
  (`x < width`), which is stronger than the source's "index inside the image". Only
  `canvas_paint` calls it, always with a cursor position on the canvas.
- FillCmd.FillOp: the fill colour is assumed to be byte-valued. In the source it is an
  `f32` `Color`, and the far test of `src/commands/fill.rs:105` compares against that
  unrounded value while the paint of `src/commands/fill.rs:96` rounds it to bytes; fill
  colours that are not exact bytes are not modelled.
- Concurrency is not modelled: the systems run one at a time.
