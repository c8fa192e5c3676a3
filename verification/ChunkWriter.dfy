/** The Arrow IPC chunk writer: small writes are gathered and shipped in large chunks over a
    channel whose receiver may go away. */
module ChunkWriter {
  import opened Wrappers

  type Byte = nat

  const TARGET: nat := 65536

  datatype Item = Chunk(bytes: seq<Byte>) | Error(message: string)

  /** `shipped` is what the channel accepted; a send fails once the receiver is gone. */
  datatype Writer = Writer(buf: seq<Byte>, shipped: seq<Item>, open: bool)

  datatype Op = Write(bytes: seq<Byte>) | Flush | SendError(message: string) | Drop | ReceiverGone

  // ----------------------------------------------------------------- specification

  /** Ship the buffer as one chunk; the buffer is gone whether or not the send succeeds. */
  function Sent(w: Writer): Writer {
    if w.buf == [] then w
    else if w.open then Writer([], w.shipped + [Chunk(w.buf)], true)
    else w.(buf := [])
  }

  function After(w: Writer, op: Op): Writer {
    match op
    case Write(bytes) =>
      var grown := w.(buf := w.buf + bytes);
      if |grown.buf| >= TARGET then Sent(grown) else grown
    case Flush => Sent(w)
    case Drop => Sent(w)
    case SendError(message) => if w.open then Writer([], w.shipped + [Error(message)], true) else w.(buf := [])
    case ReceiverGone => w.(open := false)
  }

  function RunOps(w: Writer, ops: seq<Op>): Writer {
    if ops == [] then w else After(RunOps(w, ops[..|ops| - 1]), ops[|ops| - 1])
  }

  // --------------------------------------------------------------------- the class

  class ArrowIpcChunkWriter {
    var buf: seq<Byte>
    var shipped: seq<Item>
    var open: bool

    function State(): Writer
      reads this
    {
      Writer(buf, shipped, open)
    }

    constructor ()
      ensures State() == Writer([], [], true)
    {
      buf, shipped, open := [], [], true;
    }

    method SendBuffered() returns (ok: bool)
      modifies this`buf, this`shipped
      ensures State() == Sent(old(State()))
      ensures ok <==> old(buf) == [] || open
    {
      if buf == [] { return true; }
      var chunk := buf;
      buf := [];
      if open { shipped := shipped + [Chunk(chunk)]; }
      return open;
    }

    method Write(bytes: seq<Byte>) returns (written: Option<nat>)
      modifies this`buf, this`shipped
      ensures State() == After(old(State()), Op.Write(bytes))
      ensures written == if open || |old(buf)| + |bytes| < TARGET then Some(|bytes|) else None
    {
      buf := buf + bytes;
      if |buf| >= TARGET {
        var ok := SendBuffered();
        if !ok { return None; }
      }
      return Some(|bytes|);
    }

    method Flush() returns (ok: bool)
      modifies this`buf, this`shipped
      ensures State() == After(old(State()), Op.Flush)
      ensures ok <==> old(buf) == [] || open
    {
      ok := SendBuffered();
    }

    /** Drop any partial chunk so that it cannot trail the error. */
    method SendError(message: string)
      modifies this`buf, this`shipped
      ensures State() == After(old(State()), Op.SendError(message))
    {
      buf := [];
      if open { shipped := shipped + [Error(message)]; }
    }

    /** Going out of scope ships the tail; a failed send is not observable. */
    method Drop()
      modifies this`buf, this`shipped
      ensures State() == After(old(State()), Op.Drop)
    {
      var _ := SendBuffered();
    }
  }

  // ------------------------------------------------------------- plain appending

  /** The bytes of the chunks shipped after the last error. */
  function Carried(items: seq<Item>): seq<Byte> {
    if items == [] then []
    else
      match items[|items| - 1]
      case Chunk(bytes) => Carried(items[..|items| - 1]) + bytes
      case Error(_) => []
  }

  /** The bytes written since the last error. */
  function Written(ops: seq<Op>): seq<Byte> {
    if ops == [] then []
    else
      match ops[|ops| - 1]
      case Write(bytes) => Written(ops[..|ops| - 1]) + bytes
      case SendError(_) => []
      case _ => Written(ops[..|ops| - 1])
  }

  ghost predicate ReceiverStays(ops: seq<Op>) {
    forall i :: 0 <= i < |ops| ==> !ops[i].ReceiverGone?
  }

  lemma SentCarries(w: Writer)
    requires w.open
    ensures Carried(Sent(w).shipped) + Sent(w).buf == Carried(w.shipped) + w.buf
  {
    if w.buf != [] {
      assert (w.shipped + [Chunk(w.buf)])[..|w.shipped|] == w.shipped;
      assert Carried(Sent(w).shipped) + [] == Carried(w.shipped) + w.buf;
    }
  }

  /** The writer refines plain appending: while the receiver lives, what was shipped since the last
      error followed by the buffer is exactly what was written since then, in order. */
  lemma {:induction false} RefinesAppending(ops: seq<Op>)
    requires ReceiverStays(ops)
    ensures var w := RunOps(Writer([], [], true), ops); w.open && Carried(w.shipped) + w.buf == Written(ops)
  {
    if ops != [] {
      var front, op := ops[..|ops| - 1], ops[|ops| - 1];
      RefinesAppending(front);
      var w := RunOps(Writer([], [], true), front);
      match op
      case Write(bytes) =>
        var grown := w.(buf := w.buf + bytes);
        assert Carried(w.shipped) + (w.buf + bytes) == (Carried(w.shipped) + w.buf) + bytes;
        SentCarries(grown);
      case SendError(message) =>
        assert (w.shipped + [Error(message)])[..|w.shipped|] == w.shipped;
      case _ =>
        SentCarries(w);
    }
  }

  /** Over every run, receiver or no receiver: no chunk is empty, and the buffer that a write leaves
      behind is always below the target, so writes ship only chunks of at least the target. */
  lemma {:induction false} ChunksAreSized(ops: seq<Op>)
    ensures var w := RunOps(Writer([], [], true), ops);
            |w.buf| < TARGET && forall i :: 0 <= i < |w.shipped| && w.shipped[i].Chunk? ==> w.shipped[i].bytes != []
  {
    if ops != [] { ChunksAreSized(ops[..|ops| - 1]); }
  }

  /** A write ships nothing, or all that is buffered as one chunk once that is 64 KiB or more. */
  lemma WriteShipsFullChunks(w: Writer, bytes: seq<Byte>)
    ensures var t, all := After(w, Write(bytes)), w.buf + bytes;
            && t.shipped == (if w.open && |all| >= 65536 then w.shipped + [Chunk(all)] else w.shipped)
            && t.buf == (if |all| >= 65536 then [] else all)
  {
  }

  /** Flushing or dropping ships the rest: what was shipped since the last error is then all that was
      written since. */
  lemma FlushShipsAll(ops: seq<Op>, op: Op)
    requires ReceiverStays(ops) && (op.Flush? || op.Drop?)
    ensures var w := RunOps(Writer([], [], true), ops + [op]); w.buf == [] && Carried(w.shipped) == Written(ops)
  {
    RefinesAppending(ops);
    var w := RunOps(Writer([], [], true), ops);
    assert (ops + [op])[..|ops|] == ops;
    SentCarries(w);
    assert Carried(Sent(w).shipped) + [] == Carried(Sent(w).shipped);
  }

  /** The messages of the errors shipped, and of those sent. */
  function ErrorsIn(items: seq<Item>): seq<string> {
    if items == [] then []
    else
      var n := |items| - 1;
      ErrorsIn(items[..n]) + if items[n].Error? then [items[n].message] else []
  }

  function ErrorsSent(ops: seq<Op>): seq<string> {
    if ops == [] then []
    else
      var n := |ops| - 1;
      ErrorsSent(ops[..n]) + if ops[n].SendError? then [ops[n].message] else []
  }

  /** While the receiver lives every error sent is shipped, with its message, in order. */
  lemma {:induction false} ErrorsAreShipped(ops: seq<Op>)
    requires ReceiverStays(ops)
    ensures ErrorsIn(RunOps(Writer([], [], true), ops).shipped) == ErrorsSent(ops)
  {
    if ops != [] {
      var front := ops[..|ops| - 1];
      ErrorsAreShipped(front);
      RefinesAppending(front);
      var w, t := RunOps(Writer([], [], true), front), RunOps(Writer([], [], true), ops);
      if t.shipped != w.shipped { assert t.shipped[..|w.shipped|] == w.shipped; }
    }
  }

  /** Once the receiver is gone nothing more is shipped. */
  lemma {:induction false} NothingAfterReceiverGone(w: Writer, ops: seq<Op>)
    ensures RunOps(After(w, ReceiverGone), ops).shipped == w.shipped && !RunOps(After(w, ReceiverGone), ops).open
  {
    if ops != [] { NothingAfterReceiverGone(w, ops[..|ops| - 1]); }
  }

  /** After an error, flushing and dropping ship nothing more until something is written again. */
  lemma {:induction false} NothingTrailsAnError(w: Writer, message: string, ops: seq<Op>)
    requires forall i :: 0 <= i < |ops| ==> ops[i].Flush? || ops[i].Drop? || ops[i].ReceiverGone?
    ensures var e := After(w, SendError(message));
            && e.shipped == (if w.open then w.shipped + [Error(message)] else w.shipped)
            && RunOps(e, ops).shipped == e.shipped && RunOps(e, ops).buf == []
  {
    if ops != [] { NothingTrailsAnError(w, message, ops[..|ops| - 1]); }
  }
}
