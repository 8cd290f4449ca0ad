/** The reader over a queue of chunks, and WebSocket unmasking: crates/buffers/src/streaming_octet_reader.rs. */
module OctetReader {
  import opened Common

  type Octet = bv8

  ghost function Flatten(chunks: seq<seq<Octet>>): seq<Octet> {
    if chunks == [] then [] else chunks[0] + Flatten(chunks[1..])
  }

  lemma {:induction false} FlattenAppend(a: seq<seq<Octet>>, b: seq<seq<Octet>>)
    ensures Flatten(a + b) == Flatten(a) + Flatten(b)
  {
    if a == [] {
      assert a + b == b;
    } else {
      FlattenAppend(a[1..], b);
      assert (a + b)[0] == a[0] && (a + b)[1..] == a[1..] + b;
      ConcatAssoc(a[0], Flatten(a[1..]), Flatten(b));
    }
  }

  lemma FlattenOne(chunk: seq<Octet>)
    ensures Flatten([chunk]) == chunk
  {
    assert [chunk][1..] == [] && chunk + [] == chunk;
  }

  /** From position `x` of the first chunk on, what is left starts with the rest of that chunk. */
  lemma FlattenDrop(chunks: seq<seq<Octet>>, x: nat, n: nat)
    requires chunks != [] && x <= |chunks[0]|
    ensures Flatten(chunks)[x..] == chunks[0][x..] + Flatten(chunks[1..])
    ensures x + n <= |chunks[0]| ==> Flatten(chunks)[x..][..n] == chunks[0][x..x + n] && Flatten(chunks)[x..][n..] == Flatten(chunks)[x + n..]
    ensures n >= |chunks[0]| - x && n <= |Flatten(chunks)| - x ==>
              Flatten(chunks)[x..][n..] == Flatten(chunks[1..])[n - (|chunks[0]| - x)..]
  {
    var all := Flatten(chunks);
    assert all == chunks[0] + Flatten(chunks[1..]);
  }

  ghost predicate NoEmptyChunks(chunks: seq<seq<Octet>>) {
    forall i :: 0 <= i < |chunks| ==> chunks[i] != []
  }

  function Assemble(b0: Octet, b1: Octet, b2: Octet, b3: Octet): bv32 {
    ((b0 as bv32) << 24) | ((b1 as bv32) << 16) | ((b2 as bv32) << 8) | (b3 as bv32)
  }

  /** `dst` with `bytes` from `pos` on. */
  function Over(dst: seq<Octet>, pos: nat, bytes: seq<Octet>): (r: seq<Octet>)
    requires pos + |bytes| <= |dst|
    ensures |r| == |dst|
  {
    dst[..pos] + bytes + dst[pos + |bytes|..]
  }

  lemma OverNothing(dst: seq<Octet>, pos: nat)
    requires pos <= |dst|
    ensures Over(dst, pos, []) == dst
  {
  }

  lemma OverOne(dst: seq<Octet>, pos: nat, a: seq<Octet>, b: Octet)
    requires pos + |a| < |dst|
    ensures Over(dst, pos, a)[pos + |a| := b] == Over(dst, pos, a + [b])
  {
  }

  lemma OverTwice(dst: seq<Octet>, pos: nat, a: seq<Octet>, b: seq<Octet>)
    requires pos + |a| + |b| <= |dst|
    ensures Over(Over(dst, pos, a), pos + |a|, b) == Over(dst, pos, a + b)
  {
  }

  class StreamingOctetReader {
    var chunks: seq<seq<Octet>>
    /** Position in the first chunk. */
    var x: nat
    /** Bytes in all chunks together. */
    var chunkSize: nat

    ghost predicate Valid()
      reads this
    {
      x <= chunkSize == |Flatten(chunks)| && if chunks == [] then x == 0 else x <= |chunks[0]| && (x == |chunks[0]| ==> x == 0)
    }

    ghost function Unread(): seq<Octet>
      requires Valid()
      reads this
    {
      Flatten(chunks)[x..]
    }

    /** The first chunk has no bytes: only then does a read within bounds go wrong. */
    predicate Stuck()
      reads this
    {
      chunks != [] && chunks[0] == []
    }

    constructor ()
      ensures Valid() && Unread() == [] && chunks == []
    {
      chunks, x, chunkSize := [], 0, 0;
    }

    function Size(): (r: nat)
      requires Valid()
      reads this
      ensures r == |Unread()|
    {
      chunkSize - x
    }

    method Push(chunk: seq<Octet>)
      requires Valid()
      modifies this
      ensures Valid() && Unread() == old(Unread()) + chunk && chunks == old(chunks) + [chunk]
    {
      FlattenAppend(chunks, [chunk]);
      FlattenOne(chunk);
      chunkSize := chunkSize + |chunk|;
      chunks := chunks + [chunk];
      assert old(chunks) != [] ==> chunks[0] == old(chunks)[0];
    }

    /** None where the source panics: out of bounds, or an empty chunk at the front. */
    method U8() returns (r: Option<Octet>)
      requires Valid()
      modifies this
      ensures Valid() && r.Some? == (old(Unread()) != [] && !old(Stuck()))
      ensures if r.Some? then r.value == old(Unread())[0] && Unread() == old(Unread())[1..] else Unread() == old(Unread())
      ensures old(NoEmptyChunks(chunks)) ==> NoEmptyChunks(chunks)
    {
      if 1 > Size() { return None; }
      var chunk := chunks[0];
      if x >= |chunk| { return None; }
      FlattenDrop(chunks, x, 1);
      var octet := chunk[x];
      x := x + 1;
      if x >= |chunk| {
        chunkSize := chunkSize - |chunk|;
        chunks := chunks[1..];
        x := 0;
      }
      r := Some(octet);
    }

    /** Four bytes, most significant first. With fewer it takes what there is before it panics. */
    method U32() returns (r: Option<bv32>)
      requires Valid()
      modifies this
      ensures Valid()
      ensures old(NoEmptyChunks(chunks)) ==> NoEmptyChunks(chunks) && r.Some? == (|old(Unread())| >= 4)
      ensures old(NoEmptyChunks(chunks)) && r.None? ==> Unread() == []
      ensures r.Some? ==> |old(Unread())| >= 4 && Unread() == old(Unread())[4..] && r.value == Assemble(old(Unread())[0], old(Unread())[1], old(Unread())[2], old(Unread())[3])
    {
      ghost var was := Unread();
      var octet0 := U8();
      if octet0.None? { return None; }
      var octet1 := U8();
      if octet1.None? { return None; }
      var octet2 := U8();
      if octet2.None? { return None; }
      var octet3 := U8();
      if octet3.None? { return None; }
      assert Unread() == was[1..][1..][1..][1..];
      r := Some(Assemble(octet0.value, octet1.value, octet2.value, octet3.value));
    }

    method Peek() returns (r: Option<Octet>)
      requires Valid()
      ensures r == if Unread() != [] && !Stuck() then Some(Unread()[0]) else None
    {
      if 1 > Size() || x >= |chunks[0]| { return None; }
      FlattenDrop(chunks, x, 1);
      r := Some(chunks[0][x]);
    }

    /** Drops chunks from the front until `size` bytes are gone. */
    method SkipUnsafe(size: nat)
      requires Valid() && size <= |Unread()|
      modifies this
      ensures Valid() && Unread() == old(Unread())[size..]
      ensures old(NoEmptyChunks(chunks)) ==> NoEmptyChunks(chunks)
    {
      ghost var was := Unread();
      var n := size;
      assert was[0..] == was;
      while n > 0 && chunks != []
        invariant Valid() && 0 <= n <= size && n <= |Unread()|
        invariant Unread()[n..] == was[size..]
        invariant old(NoEmptyChunks(chunks)) ==> NoEmptyChunks(chunks)
        decreases |chunks|
      {
        var chunk := chunks[0];
        var remaining := |chunk| - x;
        FlattenDrop(chunks, x, n);
        if remaining > n {
          assert Flatten(chunks)[x..][n..] == Flatten(chunks)[x + n..];
          x := x + n;
          return;
        }
        n := n - remaining;
        chunkSize := chunkSize - |chunk|;
        chunks := chunks[1..];
        x := 0;
      }
    }

    method Skip(n: nat) returns (ok: bool)
      requires Valid()
      modifies this
      ensures Valid() && ok == (n <= |old(Unread())|)
      ensures Unread() == if ok then old(Unread())[n..] else old(Unread())
      ensures old(NoEmptyChunks(chunks)) ==> NoEmptyChunks(chunks)
    {
      ok := n <= Size();
      if ok { SkipUnsafe(n); }
    }

    method CopyTo(size: nat, dst: array<Octet>, pos: nat) returns (ok: bool)
      requires Valid() && pos + size <= dst.Length
      modifies this, dst
      ensures Valid() && ok == (size <= |old(Unread())|)
      ensures Unread() == if ok then old(Unread())[size..] else old(Unread())
      ensures dst[..] == if ok then Over(old(dst[..]), pos, old(Unread())[..size]) else old(dst[..])
      ensures old(NoEmptyChunks(chunks)) ==> NoEmptyChunks(chunks)
    {
      if size == 0 { return true; }
      ok := size <= Size();
      if !ok { return; }
      CopyChunks(size, dst, pos);
      SkipUnsafe(size);
    }

    method CopyChunks(size: nat, dst: array<Octet>, pos: nat)
      requires Valid() && pos + size <= dst.Length && size <= |Unread()|
      modifies dst
      ensures dst[..] == Over(old(dst[..]), pos, Unread()[..size])
    {
      hide Flatten, Over;
      ghost var unread, before := Unread(), dst[..];
      OverNothing(before, pos);
      var remaining := size;
      var dstPos := pos;
      var chunkIdx := 0;
      var localX := x;
      assert chunks[0..] == chunks && unread[0..] == unread;
      while remaining > 0
        invariant 0 <= remaining <= size && dstPos == pos + (size - remaining)
        invariant 0 <= chunkIdx <= |chunks| && 0 <= localX <= |Flatten(chunks[chunkIdx..])|
        invariant chunkIdx < |chunks| ==> localX <= |chunks[chunkIdx]|
        invariant Flatten(chunks[chunkIdx..])[localX..] == unread[size - remaining..]
        invariant dst[..] == Over(before, pos, unread[..size - remaining])
        decreases |chunks| - chunkIdx, remaining
      {
        if chunkIdx == |chunks| { NoneLeft(chunks, chunkIdx); }
        var chunk := chunks[chunkIdx];
        var available := |chunk| - localX;
        var toCopy := if available <= remaining then available else remaining;
        CopyStep(chunks, chunkIdx, localX, toCopy, unread, size - remaining);
        OverTwice(before, pos, unread[..size - remaining], chunk[localX..localX + toCopy]);
        Blit(dst, dstPos, chunk[localX..localX + toCopy]);
        dstPos := dstPos + toCopy;
        remaining := remaining - toCopy;
        if toCopy == available {
          chunkIdx := chunkIdx + 1;
          localX := 0;
        } else {
          localX := localX + toCopy;
        }
      }
    }

    method Buf(size: nat) returns (r: Option<seq<Octet>>)
      requires Valid()
      modifies this
      ensures Valid()
      ensures if size <= |old(Unread())| then r == Some(old(Unread())[..size]) && Unread() == old(Unread())[size..]
              else r.None? && Unread() == old(Unread())
      ensures old(NoEmptyChunks(chunks)) ==> NoEmptyChunks(chunks)
    {
      if size > Size() { return None; }
      var result := new Octet[size](_ => 0);
      var _ := CopyTo(size, result, 0);
      assert result[..] == old(Unread())[..size];
      r := Some(result[..]);
    }

    method BufXor(size: nat, mask: seq<Octet>, offset: nat) returns (r: Option<seq<Octet>>)
      requires Valid() && |mask| == 4
      modifies this
      ensures Valid()
      ensures if size <= |old(Unread())| then r == Some(Masked(old(Unread())[..size], mask, offset)) && Unread() == old(Unread())[size..]
              else r.None? && Unread() == old(Unread())
      ensures old(NoEmptyChunks(chunks)) ==> NoEmptyChunks(chunks)
    {
      var raw := Buf(size);
      r := if raw.Some? then Some(Masked(raw.value, mask, offset)) else None;
    }

    method CopyXor(size: nat, dst: array<Octet>, pos: nat, mask: seq<Octet>, alreadyRead: nat) returns (ok: bool)
      requires Valid() && |mask| == 4 && pos + size <= dst.Length
      modifies this, dst
      ensures Valid() && ok == (size <= |old(Unread())|)
      ensures Unread() == if ok then old(Unread())[size..] else old(Unread())
      ensures dst[..] == if ok then Over(old(dst[..]), pos, Masked(old(Unread())[..size], mask, alreadyRead)) else old(dst[..])
      ensures old(NoEmptyChunks(chunks)) ==> NoEmptyChunks(chunks)
    {
      var raw := Buf(size);
      if raw.None? { return false; }
      MaskInto(dst, pos, raw.value, mask, alreadyRead);
      ok := true;
    }
  }

  lemma NoneLeft(chunks: seq<seq<Octet>>, i: nat)
    requires i == |chunks|
    ensures Flatten(chunks[i..]) == []
  {
  }

  /** Copying from one chunk moves a reader of all the rest along. */
  lemma CopyStep(chunks: seq<seq<Octet>>, i: nat, x: nat, n: nat, unread: seq<Octet>, done: nat)
    requires i < |chunks| && x + n <= |chunks[i]| && done <= |unread| && x <= |Flatten(chunks[i..])|
    requires Flatten(chunks[i..])[x..] == unread[done..]
    ensures done + n <= |unread| && x + n <= |Flatten(chunks[i..])|
    ensures unread[..done + n] == unread[..done] + chunks[i][x..x + n]
    ensures Flatten(chunks[i..])[x + n..] == unread[done + n..]
    ensures x + n == |chunks[i]| ==> Flatten(chunks[i + 1..]) == unread[done + n..]
  {
    var all := Flatten(chunks[i..]);
    assert chunks[i..][1..] == chunks[i + 1..];
    assert all == chunks[i] + Flatten(chunks[i + 1..]);
    assert all[x..][..n] == chunks[i][x..x + n] && all[x..][n..] == all[x + n..];
    assert unread[done..][..n] == unread[done..done + n] && unread[done..][n..] == unread[done + n..];
  }

  /** One byte more of the masked payload. */
  lemma MaskedMore(data: seq<Octet>, mask: seq<Octet>, offset: nat, i: nat, dst: seq<Octet>, pos: nat)
    requires |mask| == 4 && i < |data| && pos + |data| <= |dst|
    ensures var masked := Masked(data, mask, offset);
            masked[i] == data[i] ^ mask[(offset + i) % 4] && Over(dst, pos, masked[..i])[pos + i := masked[i]] == Over(dst, pos, masked[..i + 1])
  {
    var masked := Masked(data, mask, offset);
    OverOne(dst, pos, masked[..i], masked[i]);
    assert masked[..i] + [masked[i]] == masked[..i + 1];
  }

  /** The bytes go to their place one by one, each masked. */
  method MaskInto(dst: array<Octet>, pos: nat, data: seq<Octet>, mask: seq<Octet>, offset: nat)
    requires |mask| == 4 && pos + |data| <= dst.Length
    modifies dst
    ensures dst[..] == Over(old(dst[..]), pos, Masked(data, mask, offset))
  {
    ghost var masked, before := Masked(data, mask, offset), dst[..];
    OverNothing(before, pos);
    hide Over, Masked;
    var i := 0;
    assert masked[..0] == [];
    while i < |data|
      invariant 0 <= i <= |data| && dst[..] == Over(before, pos, masked[..i])
    {
      ghost var now := dst[..];
      MaskedMore(data, mask, offset, i, before, pos);
      dst[pos + i] := data[i] ^ mask[(offset + i) % 4];
      assert dst[..] == now[pos + i := masked[i]];
      i := i + 1;
    }
    assert masked[..|data|] == masked;
  }

  method Blit(dst: array<Octet>, at: nat, bytes: seq<Octet>)
    requires at + |bytes| <= dst.Length
    modifies dst
    ensures dst[..] == Over(old(dst[..]), at, bytes)
  {
    forall i | 0 <= i < |bytes| { dst[at + i] := bytes[i]; }
  }

  // ---------------------------------------------------------------- masking

  /** Section 5.3 of RFC 6455: octet `i` of the payload against octet `(offset + i) mod 4` of the mask. */
  function Masked(data: seq<Octet>, mask: seq<Octet>, offset: nat): (r: seq<Octet>)
    requires |mask| == 4
    ensures |r| == |data|
  {
    seq(|data|, (i: nat) requires i < |data| => data[i] ^ mask[(offset + i) % 4])
  }

  /** Section 5.3 of RFC 6455: each byte is exclusive-ored with the byte of the mask that its place in the payload, taken modulo four, says. */
  lemma MaskedAt(data: seq<Octet>, mask: seq<Octet>, offset: nat, i: nat, j: nat)
    requires |mask| == 4 && i < |data| && j < 4 && exists k: nat :: offset + i == 4 * k + j
    ensures |Masked(data, mask, offset)| == |data| && Masked(data, mask, offset)[i] == data[i] ^ mask[j]
  {
    var k: nat :| offset + i == 4 * k + j;
    assert (offset + i) % 4 == j;
  }

  /** A word is the sum of its bytes times powers of 256, the first byte highest. */
  lemma WordIsSum(b0: Octet, b1: Octet, b2: Octet, b3: Octet)
    ensures Assemble(b0, b1, b2, b3) == (b0 as bv32) * 0x100_0000 + (b1 as bv32) * 0x1_0000 + (b2 as bv32) * 0x100 + (b3 as bv32)
  {
  }

  lemma MaskedInParts(a: seq<Octet>, b: seq<Octet>, mask: seq<Octet>, offset: nat)
    requires |mask| == 4
    ensures Masked(a + b, mask, offset) == Masked(a, mask, offset) + Masked(b, mask, offset + |a|)
  {
  }

  /** Masking twice with the same offset gives the payload back. */
  lemma MaskedTwice(data: seq<Octet>, mask: seq<Octet>, offset: nat)
    requires |mask| == 4
    ensures Masked(Masked(data, mask, offset), mask, offset) == data
  {
    forall i | 0 <= i < |data| ensures Masked(Masked(data, mask, offset), mask, offset)[i] == data[i] {
      XorTwice(data[i], mask[(offset + i) % 4]);
    }
  }

  lemma XorTwice(a: Octet, b: Octet)
    ensures (a ^ b) ^ b == a
  {
  }

  ghost function Sum(sizes: seq<nat>): nat {
    if sizes == [] then 0 else sizes[0] + Sum(sizes[1..])
  }

  /** A payload unmasked in consecutive reads that carry the offset along is the payload unmasked in one. */
  method UnmaskInPieces(q: StreamingOctetReader, sizes: seq<nat>, mask: seq<Octet>) returns (payload: seq<Octet>)
    requires q.Valid() && |mask| == 4 && Sum(sizes) <= |q.Unread()|
    modifies q
    ensures q.Valid() && q.Unread() == old(q.Unread())[Sum(sizes)..]
    ensures payload == Masked(old(q.Unread())[..Sum(sizes)], mask, 0)
  {
    ghost var was := q.Unread();
    payload := [];
    var i := 0;
    assert sizes[0..] == sizes;
    while i < |sizes|
      invariant 0 <= i <= |sizes| && q.Valid()
      invariant |payload| + Sum(sizes[i..]) == Sum(sizes) && |payload| <= |was|
      invariant q.Unread() == was[|payload|..]
      invariant payload == Masked(was[..|payload|], mask, 0)
    {
      assert sizes[i..][0] == sizes[i] && sizes[i..][1..] == sizes[i + 1..];
      var piece := q.BufXor(sizes[i], mask, |payload|);
      ghost var a, b := was[..|payload|], was[|payload|..][..sizes[i]];
      assert was[..|payload| + sizes[i]] == a + b;
      MaskedInParts(a, b, mask, 0);
      assert was[|payload|..][sizes[i]..] == was[|payload| + sizes[i]..];
      payload := payload + piece.value;
      i := i + 1;
    }
  }

  // ---------------------------------------------------------------- any order of calls

  datatype Op =
    | Pushed(chunk: seq<Octet>)
    | Length
    | Next
    | Word
    | Look
    | Jump(count: nat)
    | Take(size: nat)
    | TakeMasked(size: nat, mask: seq<Octet>, offset: nat)
    | CopyInto(dst: seq<Octet>, pos: nat, size: nat)
    | CopyMasked(dst: seq<Octet>, pos: nat, size: nat, mask: seq<Octet>, offset: nat)

  datatype Reply = Panic | Done | Count(n: nat) | Bytes(bytes: seq<Octet>) | Integer(word: bv32)

  /** Chunks have bytes, masks four, and destinations room. */
  predicate Legal(op: Op) {
    match op
    case Pushed(chunk) => chunk != []
    case TakeMasked(_, mask, _) => |mask| == 4
    case CopyInto(dst, pos, size) => pos + size <= |dst|
    case CopyMasked(dst, pos, size, mask, _) => pos + size <= |dst| && |mask| == 4
    case _ => true
  }

  /** How many bytes of the queue a call needs, or it panics. */
  function Needs(op: Op): nat {
    match op
    case Pushed(_) => 0
    case Length => 0
    case Next => 1
    case Word => 4
    case Look => 1
    case Jump(n) => n
    case Take(n) => n
    case TakeMasked(n, _, _) => n
    case CopyInto(_, _, n) => n
    case CopyMasked(_, _, n, _, _) => n
  }

  /** What each call returns on a plain queue; copies return the destination. */
  ghost function Answer(queue: seq<Octet>, op: Op): Reply
    requires Legal(op)
  {
    if Needs(op) > |queue| then Panic else
    match op
    case Pushed(_) => Done
    case Length => Count(|queue|)
    case Next => Bytes([queue[0]])
    case Word => Integer(Assemble(queue[0], queue[1], queue[2], queue[3]))
    case Look => Bytes([queue[0]])
    case Jump(_) => Done
    case Take(n) => Bytes(queue[..n])
    case TakeMasked(n, mask, offset) => Bytes(Masked(queue[..n], mask, offset))
    case CopyInto(dst, pos, n) => Bytes(Over(dst, pos, queue[..n]))
    case CopyMasked(dst, pos, n, mask, offset) => Bytes(Over(dst, pos, Masked(queue[..n], mask, offset)))
  }

  /** A call that panics leaves the queue as it was, except for a word, which takes its bytes one by one. */
  ghost function After(queue: seq<Octet>, op: Op): seq<Octet> {
    match op
    case Pushed(chunk) => queue + chunk
    case Look => queue
    case Word => if |queue| < 4 then [] else queue[4..]
    case _ => if Needs(op) > |queue| then queue else queue[Needs(op)..]
  }

  ghost function Answers(queue: seq<Octet>, ops: seq<Op>): seq<Reply>
    requires forall i :: 0 <= i < |ops| ==> Legal(ops[i])
    decreases ops
  {
    if ops == [] then [] else [Answer(queue, ops[0])] + Answers(After(queue, ops[0]), ops[1..])
  }

  method Step(q: StreamingOctetReader, op: Op) returns (r: Reply)
    requires q.Valid() && NoEmptyChunks(q.chunks) && Legal(op)
    modifies q
    ensures q.Valid() && NoEmptyChunks(q.chunks)
    ensures r == Answer(old(q.Unread()), op) && q.Unread() == After(old(q.Unread()), op)
  {
    r := Panic;
    match op {
      case Pushed(chunk) =>
        q.Push(chunk);
        r := Done;
      case Length => r := Count(q.Size());
      case Next =>
        var o := q.U8();
        if o.Some? { r := Bytes([o.value]); }
      case Word =>
        var o := q.U32();
        if o.Some? { r := Integer(o.value); }
      case Look =>
        var o := q.Peek();
        if o.Some? { r := Bytes([o.value]); }
      case Jump(n) =>
        var ok := q.Skip(n);
        if ok { r := Done; }
      case Take(n) =>
        var o := q.Buf(n);
        if o.Some? { r := Bytes(o.value); }
      case TakeMasked(n, mask, offset) =>
        var o := q.BufXor(n, mask, offset);
        if o.Some? { r := Bytes(o.value); }
      case CopyInto(_, _, _) => r := StepCopy(q, op);
      case CopyMasked(_, _, _, _, _) => r := StepCopy(q, op);
    }
  }

  method StepCopy(q: StreamingOctetReader, op: Op) returns (r: Reply)
    requires q.Valid() && NoEmptyChunks(q.chunks) && Legal(op) && (op.CopyInto? || op.CopyMasked?)
    modifies q
    ensures q.Valid() && NoEmptyChunks(q.chunks)
    ensures r == Answer(old(q.Unread()), op) && q.Unread() == After(old(q.Unread()), op)
  {
    ghost var was := q.Unread();
    var dst := new Octet[|op.dst|](i requires 0 <= i < |op.dst| => op.dst[i]);
    assert dst[..] == op.dst;
    var ok;
    if op.CopyInto? { ok := q.CopyTo(op.size, dst, op.pos); } else { ok := q.CopyXor(op.size, dst, op.pos, op.mask, op.offset); }
    r := if ok then Bytes(dst[..]) else Panic;
  }

  /** With no empty chunks pushed, calls in any order answer as a plain queue does. */
  method Run(q: StreamingOctetReader, ops: seq<Op>) returns (out: seq<Reply>)
    requires q.Valid() && NoEmptyChunks(q.chunks) && forall i :: 0 <= i < |ops| ==> Legal(ops[i])
    modifies q
    ensures q.Valid() && NoEmptyChunks(q.chunks) && out == Answers(old(q.Unread()), ops)
  {
    out := [];
    ghost var total := Answers(q.Unread(), ops);
    var i := 0;
    assert ops[0..] == ops;
    while i < |ops|
      invariant 0 <= i <= |ops| && q.Valid() && NoEmptyChunks(q.chunks)
      invariant total == out + Answers(q.Unread(), ops[i..])
    {
      assert ops[i..][0] == ops[i] && ops[i..][1..] == ops[i + 1..];
      var r := Step(q, ops[i]);
      ConcatAssoc(out, [r], Answers(q.Unread(), ops[i + 1..]));
      out := out + [r];
      i := i + 1;
    }
    assert ops[i..] == [];
  }

  /** An empty chunk in front of others: there are bytes to read, and reading one panics. */
  method EmptyChunkPanics(chunk: seq<Octet>) returns (size: nat, r: Option<Octet>)
    requires chunk != []
    ensures size == |chunk| && r.None?
  {
    var q := new StreamingOctetReader();
    q.Push([]);
    q.Push(chunk);
    size := q.Size();
    r := q.U8();
  }
}
