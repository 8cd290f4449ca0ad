/** The growing writer and the streaming reader on top of it: crates/buffers/src/writer.rs and streaming_reader.rs. */
module Buffers {
  import opened Common
  import opened Bytes

  class Writer {
    var uint8: array<Byte>
    /** Where the last flush or reset left off. */
    var x0: nat
    var x: nat
    const allocSize: nat

    ghost predicate Valid()
      reads this
    {
      x0 <= x <= uint8.Length
    }

    /** The bytes written since the last flush or reset. */
    ghost function Pending(): seq<Byte>
      requires Valid()
      reads this, uint8
    {
      uint8[x0..x]
    }

    constructor (allocSize: nat)
      ensures Valid() && fresh(uint8) && Pending() == [] && this.allocSize == allocSize
    {
      this.allocSize := allocSize;
      uint8 := new Byte[allocSize](_ => 0);
      x0, x := 0, 0;
    }

    /** Room for `capacity` more bytes, if need be in a new array that starts with the pending ones. */
    method EnsureCapacity(capacity: nat)
      requires Valid()
      modifies this
      ensures Valid() && x + capacity <= uint8.Length && Pending() == old(Pending())
      ensures if old(uint8.Length - x) >= capacity then uint8 == old(uint8) && x0 == old(x0) && x == old(x)
              else fresh(uint8) && x0 == 0
    {
      var remaining := uint8.Length - x;
      if remaining < capacity {
        var total := uint8.Length - x0;
        var required := capacity - remaining;
        var totalRequired := total + required;
        var newSize := if totalRequired <= allocSize then allocSize else totalRequired * 2;
        Grow(newSize);
      }
    }

    method Grow(newSize: nat)
      requires Valid() && x - x0 <= newSize
      modifies this
      ensures Valid() && fresh(uint8) && uint8.Length == newSize && x0 == 0 && x == old(x - x0) && Pending() == old(Pending())
    {
      var newBuf := new Byte[newSize](_ => 0);
      forall i | 0 <= i < x - x0 { newBuf[i] := uint8[x0 + i]; }
      uint8 := newBuf;
      x := x - x0;
      x0 := 0;
    }

    method Reset()
      requires Valid()
      modifies this`x0
      ensures Valid() && Pending() == [] && x0 == x
    {
      x0 := x;
    }

    method Flush() returns (result: seq<Byte>)
      requires Valid()
      modifies this`x0
      ensures Valid() && result == old(Pending()) && Pending() == [] && x0 == x
    {
      result := uint8[x0..x];
      x0 := x;
    }

    method U8(val: Byte)
      requires Valid()
      modifies this, uint8
      ensures Valid() && Pending() == old(Pending()) + [val]
      ensures uint8 == old(uint8) || fresh(uint8)
    {
      EnsureCapacity(1);
      uint8[x] := val;
      x := x + 1;
    }

    method Buf(buf: seq<Byte>)
      requires Valid()
      modifies this, uint8
      ensures Valid() && Pending() == old(Pending()) + buf
      ensures if old(uint8.Length - x) >= |buf| then uint8 == old(uint8) && x0 == old(x0) else fresh(uint8) && x0 == 0
    {
      EnsureCapacity(|buf|);
      ghost var before := Pending();
      forall i | 0 <= i < |buf| { uint8[x + i] := buf[i]; }
      assert uint8[x..x + |buf|] == buf;
      assert uint8[x0..x] == before;
      x := x + |buf|;
    }

    /** The integer writers, `width` bytes of two's complement most significant first. */
    method Integer(val: nat, width: nat)
      requires Valid() && val < Pow256(width)
      modifies this, uint8
      ensures Valid() && Pending() == old(Pending()) + BigEndian(val, width)
      ensures uint8 == old(uint8) || fresh(uint8)
    {
      Buf(BigEndian(val, width));
    }
  }

  // ---------------------------------------------------------------- runs of the writer

  datatype WriteOp = Put(bytes: seq<Byte>) | Flushed | Discard

  /** What each flush of a run returns, and what is pending at its end. */
  ghost function Flushes(pending: seq<Byte>, ops: seq<WriteOp>): (seq<seq<Byte>>, seq<Byte>)
    decreases ops
  {
    if ops == [] then ([], pending) else
    var r := Flushes(Kept(pending, ops[0]), ops[1..]);
    (Emitted(pending, ops[0]) + r.0, r.1)
  }

  ghost function Emitted(pending: seq<Byte>, op: WriteOp): seq<seq<Byte>> {
    if op.Flushed? then [pending] else []
  }

  ghost function Kept(pending: seq<Byte>, op: WriteOp): seq<Byte> {
    if op.Put? then pending + op.bytes else []
  }

  ghost function Concat(parts: seq<seq<Byte>>): seq<Byte> {
    if parts == [] then [] else parts[0] + Concat(parts[1..])
  }

  ghost function AllPut(ops: seq<WriteOp>): seq<Byte> {
    if ops == [] then [] else (if ops[0].Put? then ops[0].bytes else []) + AllPut(ops[1..])
  }

  /** Without a discard, the flushes of a run and what is pending make up exactly what was put, in order. */
  lemma {:induction false} FlushesConserve(pending: seq<Byte>, ops: seq<WriteOp>)
    requires forall i :: 0 <= i < |ops| ==> !ops[i].Discard?
    ensures var r := Flushes(pending, ops); Concat(r.0) + r.1 == pending + AllPut(ops)
    decreases ops
  {
    if ops == [] {
      assert [] + pending == pending + [];
    } else {
      assert !ops[0].Discard?;
      var kept, more := Kept(pending, ops[0]), if ops[0].Put? then ops[0].bytes else [];
      FlushesConserve(kept, ops[1..]);
      var r := Flushes(kept, ops[1..]);
      if ops[0].Put? {
        assert [] + r.0 == r.0;
        ConcatAssoc(pending, more, AllPut(ops[1..]));
      } else {
        assert ([pending] + r.0)[1..] == r.0;
        ConcatAssoc(pending, Concat(r.0), r.1);
        assert [] + AllPut(ops[1..]) == AllPut(ops[1..]);
      }
    }
  }

  method StepWriter(w: Writer, op: WriteOp) returns (out: seq<seq<Byte>>)
    requires w.Valid()
    modifies w, w.uint8
    ensures w.Valid() && out == Emitted(old(w.Pending()), op) && w.Pending() == Kept(old(w.Pending()), op)
    ensures w.uint8 == old(w.uint8) || fresh(w.uint8)
  {
    out := [];
    match op {
      case Put(b) =>
        w.Buf(b);
      case Discard =>
        w.Reset();
      case Flushed =>
        var result := w.Flush();
        out := [result];
    }
  }

  lemma FlushesStep(out: seq<seq<Byte>>, was: seq<Byte>, ops: seq<WriteOp>, i: nat)
    requires i < |ops|
    ensures out + Flushes(was, ops[i..]).0 == out + Emitted(was, ops[i]) + Flushes(Kept(was, ops[i]), ops[i + 1..]).0
    ensures Flushes(was, ops[i..]).1 == Flushes(Kept(was, ops[i]), ops[i + 1..]).1
  {
    assert ops[i..][0] == ops[i] && ops[i..][1..] == ops[i + 1..];
    ConcatAssoc(out, Emitted(was, ops[i]), Flushes(Kept(was, ops[i]), ops[i + 1..]).0);
  }

  method RunWriter(w: Writer, ops: seq<WriteOp>) returns (out: seq<seq<Byte>>)
    requires w.Valid()
    modifies w, w.uint8
    ensures w.Valid() && (out, w.Pending()) == Flushes(old(w.Pending()), ops)
    ensures w.uint8 == old(w.uint8) || fresh(w.uint8)
  {
    hide Flushes;
    out := [];
    var i := 0;
    ghost var total := Flushes(w.Pending(), ops);
    assert ops[0..] == ops;
    while i < |ops|
      invariant 0 <= i <= |ops| && w.Valid()
      invariant w.uint8 == old(w.uint8) || fresh(w.uint8)
      invariant total.0 == out + Flushes(w.Pending(), ops[i..]).0
      invariant total.1 == Flushes(w.Pending(), ops[i..]).1
    {
      FlushesStep(out, w.Pending(), ops, i);
      var emitted := StepWriter(w, ops[i]);
      out := out + emitted;
      i := i + 1;
    }
    NothingToDo(w.Pending(), ops[i..]);
    assert out + [] == out;
  }

  lemma NothingToDo(pending: seq<Byte>, ops: seq<WriteOp>)
    requires ops == []
    ensures Flushes(pending, ops) == ([], pending)
  {
  }

  // ---------------------------------------------------------------- streaming reader

  class StreamingReader {
    const writer: Writer
    /** How far reading is past the writer's x0. */
    var dx: nat

    ghost predicate Valid()
      reads this, writer
    {
      writer.Valid() && writer.x0 + dx <= writer.x
    }

    ghost function Unread(): seq<Byte>
      requires Valid()
      reads this, writer, writer.uint8
    {
      writer.uint8[writer.x0 + dx..writer.x]
    }

    constructor (allocSize: nat)
      ensures Valid() && fresh(writer) && fresh(writer.uint8) && Unread() == [] && dx == 0
    {
      writer := new Writer(allocSize);
      dx := 0;
    }

    function X(): nat
      reads this, writer
    {
      writer.x0 + dx
    }

    function Size(): (r: nat)
      requires Valid()
      reads this, writer, writer.uint8
      ensures r == |Unread()|
    {
      writer.x - X()
    }

    /**
     The pushed bytes go behind the unread ones, also when the array is replaced. A position saved
     before the push still names the same byte unless the array was replaced with bytes consumed.
     */
    method Push(data: seq<Byte>)
      requires Valid()
      modifies writer, writer.uint8
      ensures Valid() && Unread() == old(Unread()) + data && dx == old(dx)
      ensures writer.Pending() == old(writer.Pending()) + data
      ensures X() == old(X()) <==> old(writer.uint8.Length - writer.x) >= |data| || old(writer.x0) == 0
      ensures writer.uint8 == old(writer.uint8) || fresh(writer.uint8)
    {
      assert Unread() == writer.Pending()[dx..];
      writer.Buf(data);
      assert Unread() == writer.Pending()[dx..];
    }

    method Consume()
      requires Valid()
      modifies this, writer`x0
      ensures Valid() && Unread() == old(Unread()) && X() == old(X()) && dx == 0
    {
      writer.x0 := writer.x0 + dx;
      dx := 0;
    }

    /** Back or forth to a position among the bytes not consumed. */
    method SetX(x: nat)
      requires Valid() && writer.x0 <= x <= writer.x
      modifies this
      ensures Valid() && X() == x && Unread() == writer.Pending()[x - writer.x0..]
    {
      dx := x - writer.x0;
    }

    method Peek() returns (r: Option<Byte>)
      requires Valid()
      ensures r == if Unread() == [] then None else Some(Unread()[0])
    {
      if 1 > Size() { return None; }
      r := Some(writer.uint8[X()]);
    }

    /** None where the source panics, the reader unchanged. */
    method Skip(length: nat) returns (ok: bool)
      requires Valid()
      modifies this
      ensures Valid() && ok == (length <= |old(Unread())|)
      ensures Unread() == if ok then old(Unread())[length..] else old(Unread())
    {
      ok := length <= Size();
      if ok { dx := dx + length; }
    }

    method Buf(size: nat) returns (r: Option<seq<Byte>>)
      requires Valid()
      modifies this
      ensures Valid()
      ensures if size <= |old(Unread())| then r == Some(old(Unread())[..size]) && Unread() == old(Unread())[size..]
              else r.None? && Unread() == old(Unread())
    {
      if size > Size() { return None; }
      var x := X();
      var end := x + size;
      r := Some(writer.uint8[x..end]);
      assert r.value == Unread()[..size];
      dx := dx + size;
    }

    /** The integer readers, over `width` bytes. */
    method Integer(width: nat) returns (r: Option<nat>)
      requires Valid()
      modifies this
      ensures Valid()
      ensures if width <= |old(Unread())| then r == Some(FromBigEndian(old(Unread())[..width])) && Unread() == old(Unread())[width..]
              else r.None? && Unread() == old(Unread())
    {
      var b := Buf(width);
      r := if b.Some? then Some(FromBigEndian(b.value)) else None;
    }

    method Reset(data: seq<Byte>)
      requires Valid()
      modifies this, writer, writer.uint8
      ensures Valid() && Unread() == data
      ensures writer.uint8 == old(writer.uint8) || fresh(writer.uint8)
    {
      dx := 0;
      writer.Reset();
      Push(data);
    }
  }

  // ---------------------------------------------------------------- runs of the reader

  datatype ReadOp = Pushed(data: seq<Byte>) | Take(size: nat) | Drop(count: nat) | Consumed

  /** How many bytes a step takes off the front: as many as it asks for, or none if there are not so many. */
  ghost function Given(queue: seq<Byte>, op: ReadOp): (n: nat)
    ensures n <= |queue|
  {
    var asked := match op case Take(n) => n case Drop(n) => n case Pushed(_) => 0 case Consumed => 0;
    if asked <= |queue| then asked else 0
  }

  ghost function Left(queue: seq<Byte>, op: ReadOp): seq<Byte> {
    if op.Pushed? then queue + op.data else queue[Given(queue, op)..]
  }

  /** The bytes each step of a run takes off the front of a plain queue, and the queue at its end. */
  ghost function Fifo(queue: seq<Byte>, ops: seq<ReadOp>): (seq<seq<Byte>>, seq<Byte>)
    decreases ops
  {
    if ops == [] then ([], queue) else
    var r := Fifo(Left(queue, ops[0]), ops[1..]);
    ([queue[..Given(queue, ops[0])]] + r.0, r.1)
  }

  ghost function AllPushed(ops: seq<ReadOp>): seq<Byte> {
    if ops == [] then [] else (if ops[0].Pushed? then ops[0].data else []) + AllPushed(ops[1..])
  }

  /** Nothing is lost, repeated or reordered: what was taken and what is left is what was there and what was pushed. */
  lemma {:induction false} FifoConserves(queue: seq<Byte>, ops: seq<ReadOp>)
    ensures var r := Fifo(queue, ops); Concat(r.0) + r.1 == queue + AllPushed(ops)
    decreases ops
  {
    if ops == [] {
      assert [] + queue == queue + [];
    } else {
      var taken, rest := Given(queue, ops[0]), Left(queue, ops[0]);
      var more := if ops[0].Pushed? then ops[0].data else [];
      FifoConserves(rest, ops[1..]);
      var r := Fifo(rest, ops[1..]);
      assert Concat([queue[..taken]] + r.0) == queue[..taken] + Concat(r.0) by { assert ([queue[..taken]] + r.0)[1..] == r.0; }
      ConcatAssoc(queue[..taken], Concat(r.0), r.1);
      ConcatAssoc(queue[..taken], rest, AllPushed(ops[1..]));
      ConcatAssoc(queue, more, AllPushed(ops[1..]));
      assert queue[..taken] + rest == queue + more;
    }
  }

  lemma StepOfRun(out: seq<seq<Byte>>, taken: seq<Byte>, was: seq<Byte>, ops: seq<ReadOp>, now: seq<Byte>)
    requires ops != [] && taken == was[..Given(was, ops[0])] && now == Left(was, ops[0])
    ensures out + Fifo(was, ops).0 == out + [taken] + Fifo(now, ops[1..]).0
    ensures Fifo(was, ops).1 == Fifo(now, ops[1..]).1
  {
  }

  method StepReader(q: StreamingReader, op: ReadOp) returns (taken: seq<Byte>)
    requires q.Valid()
    modifies q, q.writer, q.writer.uint8
    ensures q.Valid() && taken == old(q.Unread())[..Given(old(q.Unread()), op)] && q.Unread() == Left(old(q.Unread()), op)
    ensures q.writer.uint8 == old(q.writer.uint8) || fresh(q.writer.uint8)
  {
    taken := [];
    ghost var was := q.Unread();
    assert was[..0] == [] && was[0..] == was;
    assert Given(was, op) == if op.Take? && op.size <= |was| then op.size else if op.Drop? && op.count <= |was| then op.count else 0;
    match op {
      case Pushed(data) =>
        q.Push(data);
      case Take(n) =>
        var b := q.Buf(n);
        if b.Some? { taken := b.value; }
      case Drop(n) =>
        if n <= q.Size() {
          taken := q.writer.uint8[q.X()..q.X() + n];
          assert taken == was[..n];
        }
        var _ := q.Skip(n);
      case Consumed =>
        q.Consume();
    }
  }

  /** The reader is that queue, whatever the pushes do to the array behind it. */
  method RunReader(q: StreamingReader, ops: seq<ReadOp>) returns (out: seq<seq<Byte>>)
    requires q.Valid()
    modifies q, q.writer, q.writer.uint8
    ensures q.Valid() && (out, q.Unread()) == Fifo(old(q.Unread()), ops)
    ensures Concat(out) + q.Unread() == old(q.Unread()) + AllPushed(ops)
  {
    out := [];
    var i := 0;
    assert ops[0..] == ops;
    while i < |ops|
      invariant 0 <= i <= |ops| && q.Valid()
      invariant q.writer.uint8 == old(q.writer.uint8) || fresh(q.writer.uint8)
      invariant Fifo(old(q.Unread()), ops).0 == out + Fifo(q.Unread(), ops[i..]).0
      invariant Fifo(old(q.Unread()), ops).1 == Fifo(q.Unread(), ops[i..]).1
    {
      assert ops[i..][0] == ops[i] && ops[i..][1..] == ops[i + 1..];
      ghost var was := q.Unread();
      var taken := StepReader(q, ops[i]);
      StepOfRun(out, taken, was, ops[i..], q.Unread());
      out := out + [taken];
      i := i + 1;
    }
    assert ops[|ops|..] == [];
    assert out + [] == out;
    FifoConserves(old(q.Unread()), ops);
  }
}
