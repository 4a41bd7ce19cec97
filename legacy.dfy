/** The older command centre (command.rs): every queued command is processed and recorded
    in the history; undo and redo are called directly and report whether there was
    anything to undo or redo. Its one working command, Paint, swaps a whole buffer with
    the layer both to do and to undo. */
module Legacy {
  import opened Pixels
  import opened Editor

  /** The commands; only Paint has an implementation (the others are `todo!`). */
  datatype Command = Paint(buffer: seq<byte>) | AddLayer | DeleteLayer

  /** `Command::paint`. */
  function PaintWith(buffer: seq<byte>): (c: Command)
    ensures c.Paint? && c.buffer == buffer
  {
    Paint(buffer)
  }

  /** `do_stuff`: the command's buffer and the layer trade places; None where the
      source panics (buffers of different lengths, or a command left unimplemented).
      Used both to process and to undo a command. */
  function DoStuff(c: Command, layer: seq<byte>): (r: Option<(Command, seq<byte>)>)
    ensures r.Some? <==> c.Paint? && |c.buffer| == |layer|
    ensures r.Some? ==> r.value == (Paint(layer), c.buffer)
  {
    match c
    case Paint(buffer) => if |buffer| == |layer| then Some((Paint(layer), buffer)) else None
    case AddLayer => None
    case DeleteLayer => None
  }

  /** Processing and then undoing a command (or the reverse) gives back the command and
      the layer. */
  lemma DoStuffTwice(c: Command, layer: seq<byte>)
    requires DoStuff(c, layer).Some?
    ensures DoStuff(DoStuff(c, layer).value.0, DoStuff(c, layer).value.1) == Some((c, layer))
  {
  }

  /** The state the commands act on: both stacks and the layer. */
  datatype Centre = Centre(history: seq<Command>, undone: seq<Command>, layer: seq<byte>)

  /** `call`: every queued command is processed and then pushed onto the history, front
      to back. */
  function Drain(queue: seq<Command>, c: Centre): (r: Option<Centre>)
    ensures r.Some? ==> |r.value.history| == |c.history| + |queue| && r.value.undone == c.undone
    ensures r.Some? ==> |r.value.layer| == |c.layer|
    decreases |queue|
  {
    if queue == [] then Some(c)
    else
      match DoStuff(queue[0], c.layer)
      case None => None
      case Some((cmd, layer)) => Drain(queue[1..], Centre(c.history + [cmd], c.undone, layer))
  }

  /** Each processed command joins the history in queue order: the k-th new history
      entry is the k-th queued command after processing, a paint holding the layer as it
      was when that command came up. */
  lemma {:induction false} DrainRecords(queue: seq<Command>, c: Centre, k: nat)
    requires Drain(queue, c).Some? && k < |queue|
    ensures queue[k].Paint?
    ensures Drain(queue[..k], c).Some? && |queue[k].buffer| == |Drain(queue[..k], c).value.layer|
    ensures Drain(queue, c).value.history[|c.history| + k] == Paint(Drain(queue[..k], c).value.layer)
    decreases |queue|
  {
    var (cmd, layer) := DoStuff(queue[0], c.layer).value;
    var c' := Centre(c.history + [cmd], c.undone, layer);
    if k == 0 {
      assert queue[..0] == [];
      if |queue| > 1 {
        DrainKeeps(queue[1..], c', |c.history|);
      } else {
        assert queue[1..] == [];
      }
    } else {
      DrainRecords(queue[1..], c', k - 1);
      assert queue[..k][0] == queue[0];
      assert queue[..k][1..] == queue[1..][..k - 1];
    }
  }

  /** Draining one queue after another is draining them joined, front to back. */
  lemma {:induction false} DrainAppend(q1: seq<Command>, q2: seq<Command>, c: Centre)
    ensures Drain(q1 + q2, c) ==
      match Drain(q1, c)
      case None => None
      case Some(c') => Drain(q2, c')
    decreases |q1|
  {
    if q1 == [] {
      assert q1 + q2 == q2;
    } else {
      assert (q1 + q2)[0] == q1[0];
      assert (q1 + q2)[1..] == q1[1..] + q2;
      match DoStuff(q1[0], c.layer)
      case None =>
      case Some((cmd, layer)) => DrainAppend(q1[1..], q2, Centre(c.history + [cmd], c.undone, layer));
    }
  }

  /** Draining a single paint command of the layer's length pushes that command, now
      holding the old layer, and puts its buffer in the layer. */
  lemma DrainOne(b: seq<byte>, c: Centre)
    requires |b| == |c.layer|
    ensures Drain([Paint(b)], c) == Some(Centre(c.history + [Paint(c.layer)], c.undone, b))
  {
    assert [Paint(b)][1..] == [];
  }

  /** Draining keeps what the history already held. */
  lemma {:induction false} DrainKeeps(queue: seq<Command>, c: Centre, k: nat)
    requires Drain(queue, c).Some? && k < |c.history|
    ensures Drain(queue, c).value.history[k] == c.history[k]
    decreases |queue|
  {
    if queue != [] {
      var (cmd, layer) := DoStuff(queue[0], c.layer).value;
      DrainKeeps(queue[1..], Centre(c.history + [cmd], c.undone, layer), k);
    }
  }

  /** `undo`: the latest command is undone and moved to the undone stack; None where
      the source panics. Nothing happens when the history is empty. */
  function AfterUndo(c: Centre): (r: Option<Centre>)
    ensures c.history == [] ==> r == Some(c)
    ensures r.Some? ==> |r.value.history| + |r.value.undone| == |c.history| + |c.undone|
  {
    if c.history == [] then Some(c)
    else
      match DoStuff(c.history[|c.history| - 1], c.layer)
      case None => None
      case Some((cmd, layer)) => Some(Centre(c.history[..|c.history| - 1], c.undone + [cmd], layer))
  }

  /** `redo`: the latest undone command is processed again and moved back to the
      history; None where the source panics. Nothing happens when nothing was undone. */
  function AfterRedo(c: Centre): (r: Option<Centre>)
    ensures c.undone == [] ==> r == Some(c)
    ensures r.Some? ==> |r.value.history| + |r.value.undone| == |c.history| + |c.undone|
  {
    if c.undone == [] then Some(c)
    else
      match DoStuff(c.undone[|c.undone| - 1], c.layer)
      case None => None
      case Some((cmd, layer)) => Some(Centre(c.history + [cmd], c.undone[..|c.undone| - 1], layer))
  }

  /** Redo right after an undo restores the stacks and the layer. */
  lemma UndoThenRedo(c: Centre)
    requires c.history != [] && AfterUndo(c).Some?
    ensures AfterRedo(AfterUndo(c).value) == Some(c)
  {
    var n := |c.history|;
    DoStuffTwice(c.history[n - 1], c.layer);
    var u := AfterUndo(c).value;
    assert u.undone[..|u.undone| - 1] == c.undone;
    assert c.history[..n - 1] + [c.history[n - 1]] == c.history;
  }

  /** Processing a paint command and then undoing it restores the layer. */
  lemma ProcessThenUndo(buffer: seq<byte>, c: Centre)
    requires |buffer| == |c.layer|
    ensures Drain([PaintWith(buffer)], c).Some?
    ensures AfterUndo(Drain([PaintWith(buffer)], c).value) ==
      Some(Centre(c.history, c.undone + [PaintWith(buffer)], c.layer))
  {
    assert [PaintWith(buffer)][1..] == [];
    var d := Centre(c.history + [Paint(c.layer)], c.undone, buffer);
    assert Drain([PaintWith(buffer)], c) == Some(d);
    assert d.history[..|d.history| - 1] == c.history;
  }

  /** `k` undos in a row; None where one of them panics. */
  function Undos(c: Centre, k: nat): (r: Option<Centre>)
    ensures r.Some? ==> |r.value.history| + |r.value.undone| == |c.history| + |c.undone|
    decreases k
  {
    if k == 0 then Some(c)
    else
      match AfterUndo(c)
      case None => None
      case Some(u) => Undos(u, k - 1)
  }

  /** The latest `k` entries are paints of the layer's length. */
  predicate PaintsOnTop(c: Centre, k: nat)
    requires k <= |c.history|
  {
    forall j :: |c.history| - k <= j < |c.history| ==>
      c.history[j].Paint? && |c.history[j].buffer| == |c.layer|
  }

  /** Undoing the latest `k` paints pops them off the history and leaves in the layer
      the buffer of the earliest of them. */
  lemma {:induction false} UndosLayer(c: Centre, k: nat)
    requires 0 < k <= |c.history| && PaintsOnTop(c, k)
    ensures Undos(c, k).Some?
    ensures Undos(c, k).value.layer == c.history[|c.history| - k].buffer
    ensures Undos(c, k).value.history == c.history[..|c.history| - k]
    decreases k
  {
    var n := |c.history|;
    assert c.history[n - 1].Paint? && |c.history[n - 1].buffer| == |c.layer|;
    var u := AfterUndo(c).value;
    if k > 1 {
      assert PaintsOnTop(u, k - 1) by {
        forall j | |u.history| - (k - 1) <= j < |u.history|
          ensures u.history[j].Paint? && |u.history[j].buffer| == |u.layer|
        {
          assert u.history[j] == c.history[j];
        }
      }
      UndosLayer(u, k - 1);
      assert u.history[|u.history| - (k - 1)] == c.history[n - k];
      assert u.history[..|u.history| - (k - 1)] == c.history[..n - k];
    }
  }

  /** Draining a queue and then undoing as many commands gives back the layer from
      before the queue and the history as it was. */
  lemma DrainUndone(queue: seq<Command>, c: Centre)
    requires queue != [] && Drain(queue, c).Some?
    ensures Undos(Drain(queue, c).value, |queue|).Some?
    ensures Undos(Drain(queue, c).value, |queue|).value.layer == c.layer
    ensures Undos(Drain(queue, c).value, |queue|).value.history == c.history
  {
    var d := Drain(queue, c).value;
    var n := |c.history|;
    assert PaintsOnTop(d, |queue|) by {
      forall j | n <= j < |d.history|
        ensures d.history[j].Paint? && |d.history[j].buffer| == |d.layer|
      {
        DrainRecords(queue, c, j - n);
      }
    }
    DrainRecords(queue, c, 0);
    assert queue[..0] == [];
    assert d.history[..n] == c.history by {
      forall k | 0 <= k < n
        ensures d.history[k] == c.history[k]
      {
        DrainKeeps(queue, c, k);
      }
    }
    UndosLayer(d, |queue|);
  }

  class CanvasCommands {
    var queue: seq<Command>
    var history: seq<Command>
    var undoHistory: seq<Command>

    function CentreOf(w: World): Centre
      reads this, w
    {
      Centre(history, undoHistory, w.layer)
    }

    constructor ()
      ensures queue == [] && history == [] && undoHistory == []
    {
      queue := [];
      history := [];
      undoHistory := [];
    }

    /** `add`: the command joins the back of the queue; nothing else changes (unlike the
        newer centre, the undone stack is kept). */
    method Add(c: Command)
      modifies this`queue
      ensures queue == old(queue) + [c]
    {
      queue := queue + [c];
    }

    /** `paint`: queues a paint command holding `buffer`. */
    method QueuePaint(buffer: seq<byte>)
      modifies this`queue
      ensures queue == old(queue) + [Paint(buffer)]
    {
      Add(PaintWith(buffer));
    }

    /** `do_stuff` on the editor. */
    static method Exchange(c: Command, w: World) returns (r: Command)
      requires DoStuff(c, w.layer).Some?
      modifies w`layer
      ensures (r, w.layer) == DoStuff(c, old(w.layer)).value
    {
      var buffer := c.buffer;
      r := Paint(w.layer);
      w.layer := buffer;
    }

    /** `call`: processes every queued command front to back, recording each. */
    method Call(w: World)
      requires Drain(queue, CentreOf(w)).Some?
      modifies this, w`layer
      ensures queue == [] && CentreOf(w) == Drain(old(queue), old(CentreOf(w))).value
    {
      while queue != []
        invariant Drain(queue, CentreOf(w)) == Drain(old(queue), old(CentreOf(w)))
        decreases |queue|
      {
        var c := queue[0];
        queue := queue[1..];
        c := Exchange(c, w);
        history := history + [c];
      }
    }

    /** `undo`: reports whether there was a command to undo. */
    method Undo(w: World) returns (done: bool)
      requires AfterUndo(CentreOf(w)).Some?
      modifies this`history, this`undoHistory, w`layer
      ensures done == (old(history) != [])
      ensures CentreOf(w) == AfterUndo(old(CentreOf(w))).value
    {
      done := false;
      if history != [] {
        var c := history[|history| - 1];
        history := history[..|history| - 1];
        c := Exchange(c, w);
        undoHistory := undoHistory + [c];
        done := true;
      }
    }

    /** `redo`: reports whether there was a command to redo. */
    method Redo(w: World) returns (done: bool)
      requires AfterRedo(CentreOf(w)).Some?
      modifies this`history, this`undoHistory, w`layer
      ensures done == (old(undoHistory) != [])
      ensures CentreOf(w) == AfterRedo(old(CentreOf(w))).value
    {
      done := false;
      if undoHistory != [] {
        var c := undoHistory[|undoHistory| - 1];
        undoHistory := undoHistory[..|undoHistory| - 1];
        c := Exchange(c, w);
        history := history + [c];
        done := true;
      }
    }
  }
}
