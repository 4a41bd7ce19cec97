/** The command centre (commands/mod.rs, commands/undo.rs): a FIFO queue of commands and
    operations drained once per call, a history of processed operations and a stack of
    undone ones. Undo and Redo are themselves queued commands. */
module Commands {
  import opened Pixels
  import opened Buffer
  import opened Editor
  import PaintCmd
  import FillCmd

  /** An undoable edit. */
  datatype Operation = PaintOperation(paint: PaintCmd.PaintOp) | FillOperation(fill: FillCmd.FillOp)

  /** A queued action that is not recorded in the history. */
  datatype Command = StopPaint | Undo | Redo

  datatype CommandType = Command(command: Command) | Operation(operation: Operation)

  function IsOperation(c: CommandType): (b: bool)
    ensures b <==> c.Operation?
  {
    match c
    case Operation(_) => true
    case Command(_) => false
  }

  function SnapshotOf(op: Operation): seq<byte> {
    match op
    case PaintOperation(p) => p.buffer
    case FillOperation(f) => f.buffer
  }

  /** An operation whose snapshot holds whole pixels. */
  predicate Whole(op: Operation) {
    |SnapshotOf(op)| % 4 == 0
  }

  predicate AllWhole(ops: seq<Operation>) {
    forall k :: 0 <= k < |ops| ==> Whole(ops[k])
  }

  /** An item that is not an operation, or one whose snapshot holds whole pixels. */
  predicate Fine(item: CommandType) {
    item.Operation? ==> Whole(item.operation)
  }

  /** Every queued operation has a snapshot of whole pixels (new ones have none). */
  predicate Queued(queue: seq<CommandType>) {
    forall k :: 0 <= k < |queue| ==> Fine(queue[k])
  }

  /** The state the queue's items act on: both stacks and the editor. */
  datatype Centre = Centre(history: seq<Operation>, undone: seq<Operation>, scene: Scene)

  ghost predicate Sound(c: Centre) {
    Good(c.scene) && AllWhole(c.history) && AllWhole(c.undone)
  }

  /** Processing an operation; None where the source would panic. */
  function ProcessOp(op: Operation, v: Scene): (r: Option<(Operation, Scene)>)
    ensures r.Some? && op.PaintOperation? ==> r.value.0.PaintOperation?
    ensures r.Some? && op.FillOperation? ==> r.value.0.FillOperation?
  {
    match op
    case PaintOperation(p) =>
      var (p', v') := PaintCmd.Process(p, v);
      Some((PaintOperation(p'), v'))
    case FillOperation(f) =>
      match FillCmd.Process(f, v)
      case None => None
      case Some((f', v')) => Some((FillOperation(f'), v'))
  }

  /** Undo, and redo, of either operation: its snapshot and the layer trade places. */
  function SwapOp(op: Operation, v: Scene): (r: (Operation, Scene))
    ensures r.1.layer == SnapshotOf(op) && SnapshotOf(r.0) == v.layer
    ensures r.1 == v.(layer := SnapshotOf(op))
  {
    match op
    case PaintOperation(p) =>
      var (p', v') := PaintCmd.Swap(p, v);
      (PaintOperation(p'), v')
    case FillOperation(f) =>
      var (f', v') := FillCmd.Swap(f, v);
      (FillOperation(f'), v')
  }

  /** Swapping twice gives back the operation and the scene. */
  lemma SwapOpTwice(op: Operation, v: Scene)
    ensures SwapOp(SwapOp(op, v).0, SwapOp(op, v).1) == (op, v)
  {
    match op
    case PaintOperation(p) => PaintCmd.SwapTwice(p, v);
    case FillOperation(f) => FillCmd.SwapTwice(f, v);
  }

  /** `perform_undo`: the latest operation is undone and moved to the undone stack;
      nothing happens when the history is empty. */
  function AfterUndo(c: Centre): (r: Centre)
    ensures |r.history| + |r.undone| == |c.history| + |c.undone|
    ensures c.history == [] ==> r == c
    ensures c.history != [] ==> r.history == c.history[..|c.history| - 1] && |r.undone| == |c.undone| + 1
  {
    if c.history == [] then c
    else
      var (op, v) := SwapOp(c.history[|c.history| - 1], c.scene);
      Centre(c.history[..|c.history| - 1], c.undone + [op], v)
  }

  /** `perform_redo`: the latest undone operation is redone and moved back to the
      history; nothing happens when nothing was undone. */
  function AfterRedo(c: Centre): (r: Centre)
    ensures |r.history| + |r.undone| == |c.history| + |c.undone|
    ensures c.undone == [] ==> r == c
    ensures c.undone != [] ==> r.undone == c.undone[..|c.undone| - 1] && |r.history| == |c.history| + 1
  {
    if c.undone == [] then c
    else
      var (op, v) := SwapOp(c.undone[|c.undone| - 1], c.scene);
      Centre(c.history + [op], c.undone[..|c.undone| - 1], v)
  }

  /** Redo right after an undo restores the stacks and the layer. */
  lemma UndoThenRedo(c: Centre)
    requires c.history != []
    ensures AfterRedo(AfterUndo(c)) == c
  {
    var n := |c.history|;
    SwapOpTwice(c.history[n - 1], c.scene);
    var u := AfterUndo(c);
    assert u.undone[..|u.undone| - 1] == c.undone;
    assert c.history[..n - 1] + [c.history[n - 1]] == c.history;
  }

  /** Undo right after a redo restores the stacks and the layer. */
  lemma RedoThenUndo(c: Centre)
    requires c.undone != []
    ensures AfterUndo(AfterRedo(c)) == c
  {
    var n := |c.undone|;
    SwapOpTwice(c.undone[n - 1], c.scene);
    var r := AfterRedo(c);
    assert r.history[..|r.history| - 1] == c.history;
    assert c.undone[..n - 1] + [c.undone[n - 1]] == c.undone;
  }

  /** Processing one queued item: an operation is processed and pushed onto the history;
      StopPaint ends the stroke; Undo and Redo act on the stacks. None where the source
      would panic. */
  function Step(item: CommandType, c: Centre): (r: Option<Centre>)
    requires Sound(c) && Fine(item)
    ensures r.Some? ==> Sound(r.value)
  {
    match item
    case Operation(op) =>
      (match ProcessOp(op, c.scene)
       case None => None
       case Some((op', v')) => Some(Centre(c.history + [op'], c.undone, v')))
    case Command(StopPaint) =>
      (match PaintCmd.StopPaint(c.scene)
       case None => None
       case Some(v') => Some(c.(scene := v')))
    case Command(Undo) => Some(AfterUndo(c))
    case Command(Redo) => Some(AfterRedo(c))
  }

  /** Draining the queue: its items are processed front to back. */
  function Drain(queue: seq<CommandType>, c: Centre): (r: Option<Centre>)
    requires Sound(c) && Queued(queue)
    ensures r.Some? ==> Sound(r.value)
    decreases |queue|
  {
    if queue == [] then Some(c)
    else
      match Step(queue[0], c)
      case None => None
      case Some(c') => Drain(queue[1..], c')
  }

  /** Processing Undo and Redo is exactly perform_undo and perform_redo, and neither
      enters the history as an item. */
  lemma UndoRedoDelegate(c: Centre)
    requires Sound(c)
    ensures Step(Command(Undo), c) == Some(AfterUndo(c))
    ensures Step(Command(Redo), c) == Some(AfterRedo(c))
  {
  }

  /** Draining one queue after another is draining them joined, front first. */
  lemma {:induction false} DrainAppend(q1: seq<CommandType>, q2: seq<CommandType>, c: Centre)
    requires Sound(c) && Queued(q1) && Queued(q2)
    ensures Queued(q1 + q2)
    ensures Drain(q1 + q2, c) ==
      match Drain(q1, c)
      case None => None
      case Some(c') => Drain(q2, c')
    decreases |q1|
  {
    assert Queued(q1 + q2) by {
      forall k | 0 <= k < |q1 + q2|
        ensures Fine((q1 + q2)[k])
      {
        if k >= |q1| {
          assert (q1 + q2)[k] == q2[k - |q1|];
        }
      }
    }
    if q1 == [] {
      assert q1 + q2 == q2;
    } else {
      assert (q1 + q2)[0] == q1[0];
      assert (q1 + q2)[1..] == q1[1..] + q2;
      match Step(q1[0], c)
      case None =>
      case Some(c') => DrainAppend(q1[1..], q2, c');
    }
  }

  /** The number of operations in a queue. */
  function Operations(queue: seq<CommandType>): nat {
    if queue == [] then 0 else (if queue[0].Operation? then 1 else 0) + Operations(queue[1..])
  }

  /** Draining adds one history entry per operation; commands (StopPaint, Undo, Redo)
      move operations between the stacks at most, never adding any. */
  lemma {:induction false} DrainCounts(queue: seq<CommandType>, c: Centre)
    requires Sound(c) && Queued(queue) && Drain(queue, c).Some?
    ensures |Drain(queue, c).value.history| + |Drain(queue, c).value.undone| ==
      |c.history| + |c.undone| + Operations(queue)
    decreases |queue|
  {
    if queue != [] {
      var c' := Step(queue[0], c).value;
      DrainCounts(queue[1..], c');
    }
  }

  lemma DrainPair(a: CommandType, b: CommandType, c: Centre)
    requires Sound(c) && Fine(a) && Fine(b)
    ensures Queued([a, b])
    ensures Drain([a, b], c) ==
      match Step(a, c)
      case None => None
      case Some(c') => Step(b, c')
  {
    assert [a, b][1..] == [b];
    match Step(a, c)
    case None =>
    case Some(c') =>
      assert Drain([b], c') == Step(b, c') by {
        assert [b][1..] == [];
      }
  }

  /** A stroke that is ended and then undone gives back the layer as it was before the
      stroke, with the history as before; redoing it then gives back the stroke. */
  lemma StrokeUndoRedo(op: PaintCmd.PaintOp, c: Centre)
    requires Sound(c) && |op.buffer| % 4 == 0
    requires Drain([Operation(PaintOperation(op)), Command(StopPaint)], c).Some?
    ensures
      var stroked := Drain([Operation(PaintOperation(op)), Command(StopPaint)], c).value;
      && Drain([Command(Undo)], stroked).Some?
      && Drain([Command(Undo)], stroked).value.scene.layer == c.scene.layer
      && Drain([Command(Undo)], stroked).value.history == c.history
      && Drain([Command(Undo), Command(Redo)], stroked) == Some(stroked)
  {
    var item := Operation(PaintOperation(op));
    var processed := Step(item, c).value;
    var entry := PaintOperation(op.(buffer := c.scene.layer));
    assert processed.history == c.history + [entry];
    DrainPair(item, Command(StopPaint), c);
    var stroked := Step(Command(StopPaint), processed).value;
    assert stroked.history == c.history + [entry];
    assert (c.history + [entry])[..|c.history|] == c.history;
    assert Drain([Command(Undo)], stroked) == Some(AfterUndo(stroked)) by {
      assert [Command(Undo)][1..] == [];
    }
    DrainPair(Command(Undo), Command(Redo), stroked);
    UndoThenRedo(stroked);
  }

  /** `k` Undo items in a row. */
  function Undos(c: Centre, k: nat): (r: Centre)
    ensures |r.history| + |r.undone| == |c.history| + |c.undone|
    decreases k
  {
    if k == 0 then c else Undos(AfterUndo(c), k - 1)
  }

  /** Undoing the latest `k` operations pops them off the history and leaves in the layer
      the snapshot of the earliest of them. */
  lemma {:induction false} UndosLayer(c: Centre, k: nat)
    requires 0 < k <= |c.history|
    ensures Undos(c, k).scene.layer == SnapshotOf(c.history[|c.history| - k])
    ensures Undos(c, k).history == c.history[..|c.history| - k]
    decreases k
  {
    var n := |c.history|;
    var u := AfterUndo(c);
    if k > 1 {
      UndosLayer(u, k - 1);
      assert u.history[|u.history| - (k - 1)] == c.history[n - k];
      assert u.history[..|u.history| - (k - 1)] == c.history[..n - k];
    }
  }

  /** Every item of the queue is an operation. */
  predicate AllOperations(queue: seq<CommandType>) {
    forall k :: 0 <= k < |queue| ==> queue[k].Operation?
  }

  /** The rest of a queue of operations is again a queue of operations. */
  lemma OperationsTail(queue: seq<CommandType>)
    requires Queued(queue) && AllOperations(queue) && queue != []
    ensures Queued(queue[1..]) && AllOperations(queue[1..])
  {
    forall k | 0 <= k < |queue| - 1
      ensures Fine(queue[1..][k]) && queue[1..][k].Operation?
    {
      assert queue[1..][k] == queue[k + 1];
    }
  }

  /** Draining only operations pushes one history entry per operation on top of the
      history it started with. */
  lemma {:induction false} DrainOperationsKeep(queue: seq<CommandType>, c: Centre)
    requires Sound(c) && Queued(queue) && AllOperations(queue) && Drain(queue, c).Some?
    ensures |Drain(queue, c).value.history| == |c.history| + |queue|
    ensures Drain(queue, c).value.history[..|c.history|] == c.history
    decreases |queue|
  {
    if queue != [] {
      var c' := Step(queue[0], c).value;
      assert |c'.history| == |c.history| + 1 && c'.history[..|c.history|] == c.history;
      OperationsTail(queue);
      DrainOperationsKeep(queue[1..], c');
      var h := Drain(queue, c).value.history;
      assert h[..|c.history|] == h[..|c'.history|][..|c.history|];
    }
  }

  /** Processing a paint, or a fill with the cursor on the canvas, pushes an entry whose
      snapshot is the layer it was processed on. */
  lemma FirstSnapshot(item: CommandType, c: Centre)
    requires Sound(c) && Fine(item) && item.Operation?
    requires item.operation.PaintOperation? || c.scene.cursor.Inside?
    requires Step(item, c).Some?
    ensures |Step(item, c).value.history| == |c.history| + 1
    ensures SnapshotOf(Step(item, c).value.history[|c.history|]) == c.scene.layer
  {
    match item.operation {
      case PaintOperation(p) => PaintCmd.ProcessSnapshots(p, c.scene);
      case FillOperation(f) =>
    }
  }

  /** A run of operations followed by as many Undo items gives back the layer from
      before the run and the history as it was, provided the first operation takes its
      snapshot: a paint, or a fill started with the cursor on the canvas. */
  lemma OperationsUndone(queue: seq<CommandType>, c: Centre)
    requires Sound(c) && Queued(queue) && queue != [] && AllOperations(queue)
    requires queue[0].operation.PaintOperation? || c.scene.cursor.Inside?
    requires Drain(queue, c).Some?
    ensures Undos(Drain(queue, c).value, |queue|).scene.layer == c.scene.layer
    ensures Undos(Drain(queue, c).value, |queue|).history == c.history
  {
    var d := Drain(queue, c).value;
    var c1 := Step(queue[0], c).value;
    FirstSnapshot(queue[0], c);
    OperationsTail(queue);
    assert d == Drain(queue[1..], c1).value;
    DrainOperationsKeep(queue[1..], c1);
    assert d.history[|c.history|] == d.history[..|c1.history|][|c.history|];
    DrainOperationsKeep(queue, c);
    UndosLayer(d, |queue|);
  }

  /** A fill processed with the cursor off the canvas still enters the history, holding
      its empty snapshot, so undoing it leaves an empty layer. */
  lemma FillOutsideUndo(color: Rgba, speed: real, c: Centre)
    requires Sound(c) && c.scene.cursor.Outside? && speed > 0.0
    ensures
      var item := Operation(FillOperation(FillCmd.NewFill(color, speed).value));
      && Fine(item) && Step(item, c).Some?
      && AfterUndo(Step(item, c).value).scene.layer == []
  {
  }

  class CanvasCommands {
    var queue: seq<CommandType>
    var history: seq<Operation>
    var undoHistory: seq<Operation>

    function CentreOf(w: World): Centre
      reads this, w, w.brush, w.buffer, w.fill
    {
      Centre(history, undoHistory, w.Current())
    }

    constructor ()
      ensures queue == [] && history == [] && undoHistory == []
    {
      queue := [];
      history := [];
      undoHistory := [];
    }

    /** `add`: the item joins the back of the queue; a new operation discards whatever
        was undone. */
    method Add(item: CommandType)
      modifies this
      ensures queue == old(queue) + [item] && history == old(history)
      ensures undoHistory == if IsOperation(item) then [] else old(undoHistory)
    {
      if IsOperation(item) {
        undoHistory := [];
      }
      queue := queue + [item];
    }

    /** `start_painting`: queues a new paint operation in the given colour. */
    method StartPainting(color: Rgba)
      modifies this
      ensures queue == old(queue) + [Operation(PaintOperation(PaintCmd.NewPaint(color)))]
      ensures history == old(history) && undoHistory == []
    {
      Add(Operation(PaintOperation(PaintCmd.NewPaint(color))));
    }

    /** `stop_painting`: queues the end of the stroke. */
    method StopPainting()
      modifies this
      ensures queue == old(queue) + [Command(StopPaint)]
      ensures history == old(history) && undoHistory == old(undoHistory)
    {
      Add(Command(StopPaint));
    }

    /** `undo`: only queues an Undo; the undone stack is kept. */
    method RequestUndo()
      modifies this
      ensures queue == old(queue) + [Command(Undo)]
      ensures history == old(history) && undoHistory == old(undoHistory)
    {
      Add(Command(Undo));
    }

    /** `redo`: only queues a Redo; the undone stack is kept. */
    method RequestRedo()
      modifies this
      ensures queue == old(queue) + [Command(Redo)]
      ensures history == old(history) && undoHistory == old(undoHistory)
    {
      Add(Command(Redo));
    }

    method PerformUndo(w: World)
      modifies this`history, this`undoHistory, w`layer
      ensures CentreOf(w) == AfterUndo(old(CentreOf(w)))
    {
      if history != [] {
        var op := history[|history| - 1];
        history := history[..|history| - 1];
        match op {
          case PaintOperation(p) =>
            var p' := PaintCmd.UndoPaint(p, w);
            op := PaintOperation(p');
          case FillOperation(f) =>
            var f' := FillCmd.UndoFill(f, w);
            op := FillOperation(f');
        }
        undoHistory := undoHistory + [op];
      }
    }

    method PerformRedo(w: World)
      modifies this`history, this`undoHistory, w`layer
      ensures CentreOf(w) == AfterRedo(old(CentreOf(w)))
    {
      if undoHistory != [] {
        var op := undoHistory[|undoHistory| - 1];
        undoHistory := undoHistory[..|undoHistory| - 1];
        match op {
          case PaintOperation(p) =>
            var p' := PaintCmd.RedoPaint(p, w);
            op := PaintOperation(p');
          case FillOperation(f) =>
            var f' := FillCmd.RedoFill(f, w);
            op := FillOperation(f');
        }
        history := history + [op];
      }
    }

    /** Processes one item taken off the queue. */
    method Run(item: CommandType, w: World)
      requires Sound(CentreOf(w)) && Fine(item)
      requires Step(item, CentreOf(w)).Some?
      modifies this`history, this`undoHistory, w, w.brush`color, w.buffer, w.fill
      ensures CentreOf(w) == Step(item, old(CentreOf(w))).value
    {
      match item {
        case Operation(op) =>
          match op {
            case PaintOperation(p) =>
              var p' := PaintCmd.ProcessPaint(p, w);
              history := history + [PaintOperation(p')];
            case FillOperation(f) =>
              var f' := FillCmd.ProcessFill(f, w);
              history := history + [FillOperation(f')];
          }
        case Command(StopPaint) =>
          PaintCmd.ProcessStopPaint(w);
        case Command(Undo) =>
          PerformUndo(w);
        case Command(Redo) =>
          PerformRedo(w);
      }
    }

    /** `call`: drains the queue front to back. */
    method Call(w: World)
      requires Sound(CentreOf(w)) && Queued(queue) && Drain(queue, CentreOf(w)).Some?
      modifies this, w, w.brush`color, w.buffer, w.fill
      ensures queue == [] && CentreOf(w) == Drain(old(queue), old(CentreOf(w))).value
    {
      while queue != []
        invariant Sound(CentreOf(w)) && Queued(queue)
        invariant Drain(queue, CentreOf(w)) == Drain(old(queue), old(CentreOf(w)))
        decreases |queue|
      {
        var item := queue[0];
        queue := queue[1..];
        Run(item, w);
      }
    }
  }
}
