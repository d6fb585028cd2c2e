/** The flow-controlled in-memory byte stream: its bounded-FIFO meaning, and the
    chunked representation that implements it. */
module ByteStreams {
  import opened Bytes

  /** The meaning of a stream: everything ever written, and how much of it was read. */
  datatype Stream = Stream(capacity: nat, history: seq<byte>, read: nat, ended: bool, error: bool) {

    predicate Valid() {
      read <= |history| <= read + capacity
    }

    function Buffered(): int { |history| - read }

    predicate BufferEmpty() { Buffered() == 0 }

    predicate Eof() { ended && BufferEmpty() }

    function RemainingCapacity(): int { capacity - Buffered() }

    function Accepts(data: seq<byte>): seq<byte>
      requires Valid()
    {
      data[..Min(|data|, RemainingCapacity())]
    }

    function Write(data: seq<byte>): (s: Stream)
      requires Valid()
      ensures s.Valid()
    {
      this.(history := history + Accepts(data))
    }

    function Peek(len: nat): seq<byte>
      requires Valid()
    {
      history[read..read + Min(len, Buffered())]
    }

    function Pop(len: nat): (s: Stream)
      requires Valid()
      ensures s.Valid()
    {
      this.(read := read + Min(len, Buffered()))
    }

    function EndInput(): Stream { this.(ended := true) }

    function SetError(): Stream { this.(error := true) }
  }

  function NewStream(capacity: nat): Stream {
    Stream(capacity, [], 0, false, false)
  }

  // ---- Runs ---------------------------------------------------------------------

  datatype Use = Put(data: seq<byte>) | Take(len: nat) | Close

  /** A stream, everything it has taken from its writer, and everything it has given its reader. */
  datatype Used = Used(stream: Stream, taken: seq<byte>, given: seq<byte>)

  function Serve(u: Used, use: Use): (u': Used)
    requires u.stream.Valid()
    ensures u'.stream.Valid()
  {
    match use
    case Put(data) => u.(stream := u.stream.Write(data), taken := u.taken + u.stream.Accepts(data))
    case Take(len) => u.(stream := u.stream.Pop(len), given := u.given + u.stream.Peek(len))
    case Close => u.(stream := u.stream.EndInput())
  }

  function ServeAll(capacity: nat, uses: seq<Use>): (u: Used)
    ensures u.stream.Valid()
  {
    if uses == [] then Used(NewStream(capacity), [], [])
    else Serve(ServeAll(capacity, uses[..|uses| - 1]), uses[|uses| - 1])
  }

  lemma {:induction false} ServedInOrder(capacity: nat, uses: seq<Use>)
    ensures var u := ServeAll(capacity, uses);
            && u.stream.capacity == capacity
            && u.taken == u.stream.history && u.given == u.taken[..u.stream.read]
  {
    if uses != [] {
      ServedInOrder(capacity, uses[..|uses| - 1]);
    }
  }

  lemma ServedOne(u: Used, use: Use)
    requires u.stream.Valid() && u.taken == u.stream.history && u.given == u.taken[..u.stream.read]
    ensures var u', held := Serve(u, use), |u.taken| - |u.given|;
            && u'.taken == u.taken + (if use.Put? then use.data[..Min(|use.data|, u.stream.capacity - held)] else [])
            && |u'.given| == |u.given| + (if use.Take? then Min(use.len, held) else 0)
            && u'.given <= u'.taken
  {
    if use.Take? {
      assert u.taken[..u.stream.read] + u.stream.Peek(use.len) == u.taken[..u.stream.Pop(use.len).read];
    }
  }

  /** A bounded queue: whatever the mix of writing and reading, the bytes come out in the order in
      which they went in; no more than the capacity is held; a write takes as much as there is room
      for, a read gives as much as is held. */
  lemma BoundedFifo(capacity: nat, uses: seq<Use>, use: Use)
    ensures var u := ServeAll(capacity, uses);
            var u', held := Serve(u, use), |u.taken| - |u.given|;
            && u.given <= u.taken && held <= capacity
            && u'.taken == u.taken + (if use.Put? then use.data[..Min(|use.data|, capacity - held)] else [])
            && |u'.given| == |u.given| + (if use.Take? then Min(use.len, held) else 0)
            && u'.given <= u'.taken
  {
    ServedInOrder(capacity, uses);
    hide ServeAll;
    var u := ServeAll(capacity, uses);
    ServedOne(u, use);
  }

  // ---- The representation -------------------------------------------------------

  function Concat(chunks: seq<seq<byte>>): seq<byte> {
    if chunks == [] then [] else chunks[0] + Concat(chunks[1..])
  }

  lemma {:induction false} ConcatAppend(chunks: seq<seq<byte>>, last: seq<byte>)
    ensures Concat(chunks + [last]) == Concat(chunks) + last
  {
    if chunks == [] {
      assert Concat([last]) == last + Concat([]);
    } else {
      ConcatAppend(chunks[1..], last);
      assert (chunks + [last])[1..] == chunks[1..] + [last];
    }
  }

  lemma TakeConcat(chunks: seq<seq<byte>>, n: nat)
    requires chunks != [] && n <= |Concat(chunks)|
    ensures Concat(chunks)[..n] ==
            if n >= |chunks[0]| then chunks[0] + Concat(chunks[1..])[..n - |chunks[0]|] else chunks[0][..n]
  {
  }

  class ByteStream {
    var buffer: seq<seq<byte>>
    const capacity: nat
    var byteWritten: nat
    var byteRead: nat
    var end: bool
    var error: bool
    ghost var history: seq<byte>

    ghost predicate Valid()
      reads this
    {
      && byteWritten == |history|
      && byteRead <= byteWritten <= byteRead + capacity
      && Concat(buffer) == history[byteRead..]
    }

    ghost function View(): (s: Stream)
      reads this
      requires Valid()
      ensures s.Valid()
    {
      Stream(capacity, history, byteRead, end, error)
    }

    constructor (capacity: nat)
      ensures Valid() && View() == NewStream(capacity)
    {
      this.capacity := capacity;
      buffer := [];
      byteWritten, byteRead := 0, 0;
      end, error := false, false;
      history := [];
    }

    function BufferSize(): (n: int)
      reads this
      ensures Valid() ==> n == View().Buffered() == |Concat(buffer)|
    {
      byteWritten - byteRead
    }

    predicate BufferEmpty()
      reads this
    {
      BufferSize() == 0
    }

    predicate Eof()
      reads this
    {
      end && BufferEmpty()
    }

    function RemainingCapacity(): int
      reads this
    {
      capacity - BufferSize()
    }

    method Write(data: seq<byte>) returns (accepted: nat)
      requires Valid()
      modifies this
      ensures Valid() && View() == old(View()).Write(data)
      ensures accepted == |old(View()).Accepts(data)|
    {
      accepted := Min(|data|, capacity - BufferSize());
      ConcatAppend(buffer, data[..accepted]);
      buffer := buffer + [data[..accepted]];
      byteWritten := byteWritten + accepted;
      history := history + data[..accepted];
    }

    method PeekOutput(len: nat) returns (ret: seq<byte>)
      requires Valid()
      ensures ret == View().Peek(len)
    {
      var trueLen: nat := Min(len, BufferSize());
      ret := [];
      var i := 0;
      ghost var wanted := View().Peek(len);
      assert wanted == Concat(buffer)[..trueLen];
      while i < |buffer|
        invariant 0 <= i <= |buffer|
        invariant trueLen <= |Concat(buffer[i..])|
        invariant ret + Concat(buffer[i..])[..trueLen] == wanted
        invariant i == |buffer| ==> trueLen == 0
      {
        assert buffer[i..][1..] == buffer[i + 1..];
        TakeConcat(buffer[i..], trueLen);
        if trueLen >= |buffer[i]| {
          ret := ret + buffer[i];
          trueLen := trueLen - |buffer[i]|;
          if trueLen <= 0 {
            assert ret == wanted;
            break;
          }
        } else {
          ret := ret + buffer[i][..trueLen];
          assert ret == wanted;
          break;
        }
        i := i + 1;
      }
    }

    method PopOutput(len: nat)
      requires Valid()
      modifies this
      ensures Valid() && View() == old(View()).Pop(len)
    {
      var deltaLen: nat := Min(len, BufferSize());
      if deltaLen <= 0 { return; }
      byteRead := byteRead + deltaLen;
      while deltaLen > 0
        invariant byteWritten == |history| && byteRead <= byteWritten <= byteRead + capacity
        invariant deltaLen <= |Concat(buffer)| && Concat(buffer)[deltaLen..] == history[byteRead..]
        invariant Stream(capacity, history, byteRead, end, error) == old(View()).Pop(len)
        decreases deltaLen, |buffer|
      {
        if deltaLen >= |buffer[0]| {
          deltaLen := deltaLen - |buffer[0]|;
          buffer := buffer[1..];
        } else {
          buffer := [buffer[0][deltaLen..]] + buffer[1..];
          break;
        }
      }
    }

    method Read(len: nat) returns (ret: seq<byte>)
      requires Valid()
      modifies this
      ensures Valid() && View() == old(View()).Pop(len)
      ensures ret == old(View()).Peek(len)
    {
      var deltaLen: nat := Min(len, BufferSize());
      ret := PeekOutput(deltaLen);
      PopOutput(deltaLen);
    }

    method EndInput()
      requires Valid()
      modifies `end
      ensures Valid() && View() == old(View()).EndInput()
    {
      end := true;
    }

    method SetError()
      requires Valid()
      modifies `error
      ensures Valid() && View() == old(View()).SetError()
    {
      error := true;
    }
  }
}
