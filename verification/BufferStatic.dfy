// The byte ring of common/BufferStatic.h, proved against a plain byte queue.
module ByteQueue {
  import opened Bytes

  datatype Result = Ok | NoData | BufferFull | InvalidLen | InvalidUsage

  /** What a user can ask of the buffer. */
  datatype Request =
    | Append(data: Text)
    | GetData(len: nat)
    | PeekData(len: nat)
    | SeekData(len: nat)
    | Linearise
    | Clear

  datatype Reply = Reply(held: Text, result: Result, out: Text)

  /** The queue: admission is decided by the number of bytes alone. */
  function Serve(capacity: nat, held: Text, request: Request): Reply {
    match request
    case Append(data) =>
      if |data| > capacity then Reply(held, InvalidLen, [])
      else if |held| == capacity || |data| > capacity - |held| then Reply(held, BufferFull, [])
      else Reply(held + data, Ok, [])
    case GetData(len) => Take(held, len, true, true)
    case PeekData(len) => Take(held, len, false, true)
    case SeekData(len) => Take(held, len, true, false)
    case Linearise => Reply(held, Ok, [])
    case Clear => Reply([], Ok, [])
  }

  function Take(held: Text, len: nat, remove: bool, copy: bool): Reply {
    if held == [] then Reply(held, NoData, [])
    else if |held| < len then Reply(held, InvalidLen, [])
    else Reply(if remove then held[len..] else held, Ok, if copy then held[..len] else [])
  }

  // ---- Runs

  /** What a user does with the buffer: ask it, write into it directly, or only fetch the pointer to do so. */
  datatype Call =
    | Ask(request: Request)
    | WriteDirect(data: Text)
    | FetchPointer

  /** A direct write is granted up to `room`, the linear free space, and up to the total free space. */
  function ServeCall(capacity: nat, room: nat, held: Text, call: Call): Reply {
    match call
    case Ask(request) => Serve(capacity, held, request)
    case WriteDirect(data) =>
      if |data| <= room && |held| + |data| <= capacity then Reply(held + data, Ok, [])
      else Reply(held, BufferFull, [])
    case FetchPointer => Reply(held, Ok, [])
  }

  /** The bytes a call puts in, and the bytes it takes out, whether they are copied or not. */
  function PutIn(capacity: nat, room: nat, held: Text, call: Call): Text {
    if ServeCall(capacity, room, held, call).result != Ok then []
    else if call.WriteDirect? then call.data
    else if call.Ask? && call.request.Append? then call.request.data
    else []
  }

  function TakenOut(held: Text, call: Call): Text {
    match call
    case Ask(GetData(len)) => if held != [] && len <= |held| then held[..len] else []
    case Ask(SeekData(len)) => if held != [] && len <= |held| then held[..len] else []
    case Ask(Clear) => held
    case _ => []
  }

  datatype Answer = Answer(result: Result, out: Text)

  datatype History = History(held: Text, accepted: Text, removed: Text, answers: seq<Answer>)

  /** The queue's own run.  `rooms[i]` is the linear free space that call i found. */
  function Run(capacity: nat, start: Text, rooms: seq<nat>, calls: seq<Call>): (h: History)
    requires |rooms| == |calls|
    ensures |h.answers| == |calls|
  {
    if calls == [] then History(start, [], [], [])
    else
      var last := |calls| - 1;
      var h := Run(capacity, start, rooms[..last], calls[..last]);
      var reply := ServeCall(capacity, rooms[last], h.held, calls[last]);
      History(reply.held,
              h.accepted + PutIn(capacity, rooms[last], h.held, calls[last]),
              h.removed + TakenOut(h.held, calls[last]),
              h.answers + [Answer(reply.result, reply.out)])
  }

  /** While there is space a call finds some of it in one piece, and never more than there is. */
  predicate RoomsFit(capacity: nat, start: Text, rooms: seq<nat>, calls: seq<Call>)
    requires |rooms| == |calls|
  {
    calls != [] ==>
      var last := |calls| - 1;
      var held := Run(capacity, start, rooms[..last], calls[..last]).held;
      && RoomsFit(capacity, start, rooms[..last], calls[..last])
      && (|held| < capacity ==> 1 <= rooms[last] <= capacity - |held|)
  }

  lemma RunOfNone(capacity: nat, start: Text)
    ensures Run(capacity, start, [], []) == History(start, [], [], []) && RoomsFit(capacity, start, [], [])
  {
  }

  lemma RunSnoc(capacity: nat, start: Text, rooms: seq<nat>, calls: seq<Call>, room: nat, call: Call)
    requires |rooms| == |calls|
    ensures var h := Run(capacity, start, rooms, calls);
            var next := Run(capacity, start, rooms + [room], calls + [call]);
            var reply := ServeCall(capacity, room, h.held, call);
            && next.held == reply.held
            && next.answers == h.answers + [Answer(reply.result, reply.out)]
            && (RoomsFit(capacity, start, rooms, calls)
                && (|h.held| < capacity ==> 1 <= room <= capacity - |h.held|) ==>
                  RoomsFit(capacity, start, rooms + [room], calls + [call]))
  {
    assert (rooms + [room])[..|calls|] == rooms && (calls + [call])[..|calls|] == calls;
  }

  lemma StepConserves(capacity: nat, room: nat, held: Text, call: Call)
    requires |held| <= capacity
    ensures held + PutIn(capacity, room, held, call) ==
            TakenOut(held, call) + ServeCall(capacity, room, held, call).held
    ensures |ServeCall(capacity, room, held, call).held| <= capacity
  {
  }

  /** Over every run: what was there and what went in is what came out followed by what is held, in order,
      and no more than the capacity is ever held. */
  lemma {:induction false} RunConserves(capacity: nat, start: Text, rooms: seq<nat>, calls: seq<Call>)
    requires |start| <= capacity && |rooms| == |calls|
    ensures var h := Run(capacity, start, rooms, calls);
            start + h.accepted == h.removed + h.held && |h.held| <= capacity
  {
    hide ServeCall, PutIn, TakenOut;
    if calls == [] {
      assert start + [] == [] + start;
    } else {
      var last := |calls| - 1;
      var h, room, call := Run(capacity, start, rooms[..last], calls[..last]), rooms[last], calls[last];
      RunConserves(capacity, start, rooms[..last], calls[..last]);
      StepConserves(capacity, room, h.held, call);
      Regroup(h.removed, h.held, PutIn(capacity, room, h.held, call), TakenOut(h.held, call),
              ServeCall(capacity, room, h.held, call).held);
      assert start + (h.accepted + PutIn(capacity, room, h.held, call)) ==
             start + h.accepted + PutIn(capacity, room, h.held, call);
    }
  }

  /** What the answers say that went in, and what they say that was read out and removed. */
  function Written(calls: seq<Call>, answers: seq<Answer>): Text
    requires |calls| == |answers|
  {
    if calls == [] then []
    else
      var last := |calls| - 1;
      Written(calls[..last], answers[..last]) +
      (if answers[last].result != Ok then []
       else if calls[last].WriteDirect? then calls[last].data
       else if calls[last].Ask? && calls[last].request.Append? then calls[last].request.data
       else [])
  }

  function ReadOut(calls: seq<Call>, answers: seq<Answer>): Text
    requires |calls| == |answers|
  {
    if calls == [] then []
    else
      var last := |calls| - 1;
      ReadOut(calls[..last], answers[..last]) +
      (if calls[last].Ask? && calls[last].request.GetData? then answers[last].out else [])
  }

  /** No call throws bytes away unread. */
  ghost predicate OnlyReads(calls: seq<Call>) {
    forall i :: 0 <= i < |calls| && calls[i].Ask? ==> !calls[i].request.SeekData? && !calls[i].request.Clear?
  }

  lemma {:induction false} AnswersTell(capacity: nat, start: Text, rooms: seq<nat>, calls: seq<Call>)
    requires |rooms| == |calls|
    ensures var h := Run(capacity, start, rooms, calls);
            && h.accepted == Written(calls, h.answers)
            && (OnlyReads(calls) ==> h.removed == ReadOut(calls, h.answers))
  {
    if calls != [] {
      var last := |calls| - 1;
      var h := Run(capacity, start, rooms[..last], calls[..last]);
      var answers := Run(capacity, start, rooms, calls).answers;
      AnswersTell(capacity, start, rooms[..last], calls[..last]);
      assert answers[..last] == h.answers;
      AnswerTells(capacity, rooms[last], h.held, calls[last]);
      hide ServeCall, PutIn, TakenOut;
    }
  }

  lemma AnswerTells(capacity: nat, room: nat, held: Text, call: Call)
    ensures var reply := ServeCall(capacity, room, held, call);
            && PutIn(capacity, room, held, call) ==
               (if reply.result != Ok then []
                else if call.WriteDirect? then call.data
                else if call.Ask? && call.request.Append? then call.request.data
                else [])
            && (call.Ask? && call.request.GetData? ==> TakenOut(held, call) == reply.out)
            && (!call.Ask? || call.request.Append? || call.request.PeekData? || call.request.Linearise? ==>
                  TakenOut(held, call) == [])
  {
  }

  lemma Regroup(removed: Text, held: Text, put: Text, taken: Text, left: Text)
    requires held + put == taken + left
    ensures (removed + held) + put == (removed + taken) + left
  {
    assert (removed + held) + put == removed + (held + put);
    assert (removed + taken) + left == removed + (taken + left);
  }

  /** A request is granted exactly when the bytes fit, or are there, and a refusal changes nothing. */
  lemma AdmissionIsExact(capacity: nat, held: Text, request: Request)
    requires |held| <= capacity
    ensures request.Append? ==>
              (Serve(capacity, held, request).result == Ok <==>
               |held| < capacity && |request.data| <= capacity - |held|)
    ensures request.GetData? || request.PeekData? || request.SeekData? ==>
              (Serve(capacity, held, request).result == Ok <==> |held| > 0 && request.len <= |held|)
    ensures Serve(capacity, held, request).result != Ok ==>
              Serve(capacity, held, request) == Reply(held, Serve(capacity, held, request).result, [])
  {
  }
}

module Ring {
  import opened Bytes
  import opened ByteQueue

  const TWO_TO_32: nat := 0x1_0000_0000
  const MAX_CAPACITY: nat := 1024 * 100

  /** C++ `unsigned int`. */
  type Uint32 = n: nat | n < TWO_TO_32

  // ---- Cursors.  Both may equal the capacity; a position from there on wraps around.

  function Wrap(capacity: nat, position: nat): nat {
    if position < capacity then position else position - capacity
  }

  /** Data from head to tail without wrapping. */
  predicate Straight(head: nat, tail: nat, size: nat) {
    tail == head + size
  }

  /** Data that reaches the end of the array and goes on (or may go on) at its beginning. */
  predicate Wrapped(capacity: nat, head: nat, tail: nat, size: nat) {
    head > 0 && tail + capacity == head + size
  }

  predicate CursorsOk(capacity: nat, head: nat, tail: nat, size: nat) {
    && 0 < capacity < MAX_CAPACITY
    && head <= capacity && tail <= capacity && size <= capacity
    && (Straight(head, tail, size) || Wrapped(capacity, head, tail, size))
  }

  /** How the code tells the two layouts apart: by comparing the cursors, and it is right to. */
  lemma CursorsTellLayout(capacity: nat, head: nat, tail: nat, size: nat)
    requires CursorsOk(capacity, head, tail, size)
    ensures size > 0 ==> (tail > head <==> Straight(head, tail, size))
    ensures size < capacity ==> (tail >= head <==> Straight(head, tail, size))
    ensures size == capacity ==> head == tail || (head == 0 && tail == capacity)
    ensures size == 0 ==> head == tail || (head == capacity && tail == 0)
  {
  }

  function Room(capacity: nat, head: nat, tail: nat, size: nat): int {
    if Straight(head, tail, size) then capacity - tail else capacity - size
  }

  /** Counting in more bytes keeps the cursors in order exactly when they fit behind the tail. */
  lemma CursorsAfterExpand(capacity: nat, head: nat, tail: nat, size: nat, len: nat)
    requires CursorsOk(capacity, head, tail, size)
    ensures Room(capacity, head, tail, size) <= capacity - size
    ensures len <= capacity - size ==>
              (CursorsOk(capacity, head, tail + len, size + len) <==> len <= Room(capacity, head, tail, size))
  {
  }

  /** Addition of C++ `unsigned int`. */
  function Add32(a: nat, b: nat): Uint32 {
    (a + b) % TWO_TO_32
  }

  lemma Add32Is(a: nat, b: nat)
    ensures Add32(a, b) == (a + b) % 0x1_0000_0000
  {
  }

  lemma Add32Small(a: nat, b: nat)
    requires a + b < TWO_TO_32
    ensures Add32(a, b) == a + b
  {
  }

  /** The bytes held, in queue order. */
  function Held(buf: Text, head: nat, size: nat): (r: Text)
    requires head <= |buf| && size <= |buf|
    ensures |r| == size
  {
    seq(size, k requires 0 <= k < size => buf[Wrap(|buf|, head + k)])
  }

  /** The same bytes as one block, or as a block at the end followed by a block at the beginning. */
  lemma HeldIsBlocks(buf: Text, head: nat, size: nat)
    requires head <= |buf| && size <= |buf|
    ensures Held(buf, head, size) ==
            if head + size <= |buf| then buf[head..head + size]
            else buf[head..] + buf[..head + size - |buf|]
  {
    var r := if head + size <= |buf| then buf[head..head + size] else buf[head..] + buf[..head + size - |buf|];
    assert |r| == size;
    forall k | 0 <= k < size
      ensures Held(buf, head, size)[k] == r[k]
    {
      assert Held(buf, head, size)[k] == buf[Wrap(|buf|, head + k)];
    }
  }

  lemma HeldSplits(buf: Text, head: nat, size: nat, len: nat)
    requires head <= |buf| && len <= size <= |buf|
    ensures Held(buf, head, size)[..len] == Held(buf, head, len)
    ensures head + len <= |buf| ==> Held(buf, head, size)[len..] == Held(buf, head + len, size - len)
    ensures |buf| < head + len ==> Held(buf, head, size)[len..] == Held(buf, head + len - |buf|, size - len)
  {
    var from := if head + len <= |buf| then head + len else head + len - |buf|;
    forall k | 0 <= k < size - len
      ensures Held(buf, head, size)[len..][k] == Held(buf, from, size - len)[k]
    {
      assert Held(buf, head, size)[len + k] == buf[Wrap(|buf|, head + (len + k))];
      assert Held(buf, from, size - len)[k] == buf[Wrap(|buf|, from + k)];
    }
  }

  /** `buf` with `data` written from `at` on, without wrapping. */
  function Write(buf: Text, at: nat, data: Text): (r: Text)
    requires at + |data| <= |buf|
    ensures |r| == |buf|
  {
    buf[..at] + data + buf[at + |data|..]
  }

  lemma WriteAt(buf: Text, at: nat, data: Text, i: nat)
    requires at + |data| <= |buf| && i < |buf|
    ensures Write(buf, at, data)[i] == if at <= i < at + |data| then data[i - at] else buf[i]
  {
  }

  lemma WriteEnds(buf: Text, at: nat, data: Text)
    requires at <= |buf| && |data| <= |buf|
    ensures Write(buf, at, []) == buf
    ensures Write(buf, 0, data)[..|data|] == data
  {
  }

  lemma WriteBack(buf: Text, at: nat, len: nat)
    requires at + len <= |buf|
    ensures Write(buf, at, buf[at..at + len]) == buf
  {
  }

  /** A write to free space behind the data, followed by counting it in, appends. */
  lemma WriteStraightAppends(buf: Text, head: nat, size: nat, at: nat, data: Text)
    requires head <= |buf| && size + |data| <= |buf| && at + |data| <= |buf|
    requires at == head + size || at + |buf| == head + size
    ensures Held(Write(buf, at, data), head, size + |data|) == Held(buf, head, size) + data
  {
    var w, r := Write(buf, at, data), Held(buf, head, size) + data;
    forall k | 0 <= k < size + |data|
      ensures w[Wrap(|buf|, head + k)] == r[k]
    {
      WriteAt(buf, at, data, Wrap(|buf|, head + k));
    }
  }

  /** A write split over the end and the beginning of the array does so too. */
  lemma WriteSplitAppends(buf: Text, head: nat, size: nat, data: Text)
    requires size + |data| <= |buf| && head + size <= |buf| < head + size + |data|
    ensures var first := |buf| - (head + size);
            Held(Write(Write(buf, head + size, data[..first]), 0, data[first..]), head, size + |data|) ==
            Held(buf, head, size) + data
  {
    var first := |buf| - (head + size);
    var w1 := Write(buf, head + size, data[..first]);
    WriteStraightAppends(buf, head, size, head + size, data[..first]);
    WriteStraightAppends(w1, head, size + first, 0, data[first..]);
    assert data[..first] + data[first..] == data;
    assert Held(buf, head, size) + data[..first] + data[first..] == Held(buf, head, size) + data;
  }

  /** The end block moved to the front, then the saved front block behind it. */
  lemma WriteBlocks(buf: Text, head: nat, second: nat)
    requires second <= head <= |buf|
    ensures var first := |buf| - head;
            Write(Write(buf, 0, buf[head..]), first, buf[..second])[..first + second] == buf[head..] + buf[..second]
  {
  }

  /** memcpy: the source is read before anything is written. */
  method CopyInto(a: array<byte>, at: nat, src: Text)
    requires at + |src| <= a.Length
    modifies a
    ensures a[..] == Write(old(a[..]), at, src)
  {
    forall i | 0 <= i < |src| {
      a[at + i] := src[i];
    }
  }

  /** The block from `head` on moved to the front, with the front block behind it. */
  method SwapBlocks(a: array<byte>, head: nat, secondBlockLen: nat)
    requires secondBlockLen <= head <= a.Length
    modifies a
    ensures a[..][..a.Length - head + secondBlockLen] == old(a[head..]) + old(a[..secondBlockLen])
  {
    hide Write;
    ghost var before := a[..];
    WriteBlocks(before, head, secondBlockLen);
    var firstBlockLen := a.Length - head;
    var temp := a[..secondBlockLen];
    CopyInto(a, 0, a[head..head + firstBlockLen]);
    assert before[head..head + firstBlockLen] == before[head..];
    CopyInto(a, firstBlockLen, temp);
  }

  class BufferStatic {
    const capacity: nat
    const buffer: array<byte>
    var size: nat
    var head: nat
    var tail: nat

    ghost predicate Valid()
      reads this
    {
      buffer.Length == capacity && CursorsOk(capacity, head, tail, size)
    }

    ghost function Contents(): Text
      requires Valid()
      reads this, buffer
    {
      Held(buffer[..], head, size)
    }

    constructor (capacity: nat)
      requires 0 < capacity < MAX_CAPACITY
      ensures Valid() && Contents() == [] && this.capacity == capacity && fresh(buffer)
      ensures head == 0 && tail == 0
    {
      this.capacity := capacity;
      buffer := new byte[capacity](_ => 0);
      size, head, tail := 0, 0, 0;
    }

    method AppendData(data: Text) returns (r: Result)
      requires Valid() && |data| < TWO_TO_32
      modifies this, buffer
      ensures Valid()
      ensures Reply(Contents(), r, []) == Serve(capacity, old(Contents()), Append(data))
      ensures r == Ok ==> Contents() == old(Contents()) + data
      ensures r == Ok ==>
                head == old(head)
                && tail == old(tail) + |data| - (if old(tail) + |data| <= capacity then 0 else capacity)
      ensures r == InvalidLen <==> |data| > capacity
      ensures r == BufferFull <==> |data| <= capacity && (old(size) == capacity || |data| > capacity - old(size))
      ensures r in {Ok, InvalidLen, BufferFull}
      ensures r != Ok ==> unchanged(this) && unchanged(buffer)
    {
      hide Held, Write;
      var len := |data|;
      CursorsTellLayout(capacity, head, tail, size);
      if capacity < len {
        return InvalidLen;
      } else if capacity == size {
        return BufferFull;
      }
      ghost var before := buffer[..];
      if tail >= head {
        if tail + len <= capacity {
          WriteStraightAppends(before, head, size, tail, data);
          CopyInto(buffer, tail, data);
          tail := tail + len;
          size := size + len;
        } else {
          if tail > 0 && len - (capacity - tail) <= head {
            WriteSplitAppends(before, head, size, data);
            var firstBlockLen := capacity - tail;
            WriteEnds(before, tail, []);
            if firstBlockLen > 0 {
              CopyInto(buffer, tail, data[..firstBlockLen]);
            }
            var secondBlockLen := len - firstBlockLen;
            CopyInto(buffer, 0, data[firstBlockLen..]);
            tail := secondBlockLen;
            size := size + len;
          } else {
            return BufferFull;
          }
        }
      } else {
        if head - tail >= len {
          WriteStraightAppends(before, head, size, tail, data);
          CopyInto(buffer, tail, data);
          tail := tail + len;
          size := size + len;
        } else {
          return BufferFull;
        }
      }
      return Ok;
    }

    method Get(len: Uint32) returns (r: Result, out: Text)
      requires Valid()
      modifies this
      ensures Valid()
      ensures Reply(Contents(), r, out) == Serve(capacity, old(Contents()), GetData(len))
      ensures r == Ok ==> |out| == len && out + Contents() == old(Contents())
      ensures r == NoData <==> old(size) == 0
      ensures r == InvalidLen <==> 0 < old(size) < len
      ensures r in {Ok, NoData, InvalidLen}
      ensures r == Ok ==>
                tail == old(tail)
                && head == old(head) + len - (if old(head) + len <= capacity then 0 else capacity)
      ensures r != Ok ==> unchanged(this)
    {
      r, out := GetDataWith(len, false, false);
    }

    method Peek(len: Uint32) returns (r: Result, out: Text)
      requires Valid()
      modifies this
      ensures Valid() && unchanged(this)
      ensures Reply(Contents(), r, out) == Serve(capacity, old(Contents()), PeekData(len))
      ensures r == Ok ==> |out| == len && out <= Contents()
      ensures r == NoData <==> size == 0
      ensures r == InvalidLen <==> 0 < size < len
      ensures r in {Ok, NoData, InvalidLen}
    {
      r, out := GetDataWith(len, true, false);
    }

    method Seek(len: Uint32) returns (r: Result)
      requires Valid()
      modifies this
      ensures Valid()
      ensures Reply(Contents(), r, []) == Serve(capacity, old(Contents()), SeekData(len))
      ensures r == Ok ==> len <= old(size) && Contents() == old(Contents())[len..]
      ensures r == NoData <==> old(size) == 0
      ensures r == InvalidLen <==> 0 < old(size) < len
      ensures r in {Ok, NoData, InvalidLen}
      ensures r == Ok ==>
                tail == old(tail)
                && head == old(head) + len - (if old(head) + len <= capacity then 0 else capacity)
      ensures r != Ok ==> unchanged(this)
    {
      var out;
      r, out := GetDataWith(len, false, true);
    }

    /** The private getData behind the three. */
    method GetDataWith(len: Uint32, peek: bool, moveHeadOnly: bool) returns (r: Result, out: Text)
      requires Valid()
      modifies this
      ensures Valid()
      ensures if peek && moveHeadOnly
              then r == InvalidUsage && unchanged(this) && out == []
              else Reply(Contents(), r, out) == Take(old(Contents()), len, !peek, !moveHeadOnly)
      ensures r == Ok ==>
                && len <= old(size)
                && out == (if moveHeadOnly then [] else old(Contents())[..len])
                && Contents() == (if peek then old(Contents()) else old(Contents())[len..])
      ensures r == Ok && !peek ==>
                tail == old(tail)
                && head == old(head) + len - (if old(head) + len <= capacity then 0 else capacity)
      ensures r != Ok || peek ==> unchanged(this)
    {
      hide Held;
      out := [];
      if peek && moveHeadOnly {
        return InvalidUsage, out;
      }
      if size == 0 {
        return NoData, out;
      } else if size < len {
        return InvalidLen, out;
      }
      CursorsTellLayout(capacity, head, tail, size);
      HeldSplits(buffer[..], head, size, len);
      HeldIsBlocks(buffer[..], head, len);
      ghost var front, rest := Held(buffer[..], head, size)[..len], Held(buffer[..], head, size)[len..];
      if tail > head {
        if head + len <= tail {
          if !moveHeadOnly {
            out := buffer[head..head + len];
          }
          if !peek {
            head := head + len;
          }
        } else {
          return InvalidLen, out;
        }
      } else {
        if head + len <= capacity {
          if !moveHeadOnly {
            out := buffer[head..head + len];
          }
          if !peek {
            head := head + len;
          }
        } else {
          var firstBlockLen := capacity - head;
          var secondBlockLen := len - firstBlockLen;
          if tail > 0 && tail >= secondBlockLen {
            if !moveHeadOnly {
              out := buffer[head..head + firstBlockLen];
              out := out + buffer[..secondBlockLen];
            }
            if !peek {
              head := secondBlockLen;
            }
          } else {
            return InvalidLen, out;
          }
        }
      }
      assert !moveHeadOnly ==> out == front;
      if !peek {
        size := size - len;
        assert Contents() == rest;
      }
      r := Ok;
    }

    // ---- Zero-copy writing

    /** How many bytes can be written and counted in at the current tail without wrapping. */
    function RoomAtTail(): int
      requires Valid()
      reads this
    {
      Room(capacity, head, tail, size)
    }

    /** The same once getLinearAppendPtr has had its chance to move the tail. */
    function RoomAtAppendPtr(): int
      requires Valid()
      reads this
    {
      if tail == capacity then capacity - size else RoomAtTail()
    }

    /** The figure is the room behind the append pointer exactly when the buffer is not full, or is full
        with the tail at the end of the array.  While there is any space the figure is not zero. */
    method GetLinearFreeSpace() returns (room: nat)
      requires Valid()
      ensures size < capacity ==> 1 <= room <= capacity - size
      ensures room == RoomAtAppendPtr() <==> size < capacity || tail == capacity
      ensures size == capacity ==> room == capacity - tail
    {
      if tail == capacity {
        room := capacity - size;
      } else if head < tail {
        room := capacity - tail;
      } else if head > tail {
        room := head - tail;
      } else {
        room := capacity - tail;
      }
    }

    /** The pointer is a position in the buffer; what GetLinearFreeSpace said before still holds. */
    method GetLinearAppendPtr() returns (at: nat)
      requires Valid()
      modifies this
      ensures Valid() && head == old(head) && size == old(size)
      ensures Contents() == old(Contents())
      ensures at == tail
      ensures RoomAtTail() == old(RoomAtAppendPtr())
      ensures tail == if old(tail) == capacity && size < capacity then 0 else old(tail)
    {
      if tail == capacity {
        if capacity != size {
          tail := 0;
        }
      }
      return tail;
    }

    /** The sum is taken modulo 2^32, so an absurd length can slip through; a length within the room at
        the tail is always accepted and appends what was written there, and no other length up to the
        free space leaves a valid buffer. */
    method ExpandSize(len: Uint32) returns (r: Result)
      requires Valid()
      modifies this
      ensures head == old(head)
      ensures r == if (old(size) + len) % 0x1_0000_0000 > capacity then InvalidLen else Ok
      ensures r != Ok ==> unchanged(this)
      ensures r == Ok ==>
                size == (old(size) + len) % 0x1_0000_0000 && tail == (old(tail) + len) % 0x1_0000_0000
      ensures len <= old(RoomAtTail()) ==>
                && r == Ok && Valid()
                && Contents() == old(Contents()) + buffer[old(tail)..old(tail) + len]
      ensures len <= capacity - old(size) ==> (Valid() <==> len <= old(RoomAtTail()))
    {
      Add32Is(size, len);
      Add32Is(tail, len);
      hide Held, Add32, Write;
      CursorsAfterExpand(capacity, head, tail, size, len);
      if len <= capacity - size {
        Add32Small(size, len);
        Add32Small(tail, len);
      }
      if len <= RoomAtTail() {
        WriteBack(buffer[..], tail, len);
        WriteStraightAppends(buffer[..], head, size, tail, buffer[tail..tail + len]);
      }
      if Add32(size, len) > capacity {
        return InvalidLen;
      }
      tail := Add32(tail, len);
      size := Add32(size, len);
      return Ok;
    }

    // ---- Linearisation

    /** The memcpy calls of normilize. */
    method MoveBlocksToFront()
      requires Valid() && head != 0 && size != 0
      modifies buffer
      ensures buffer[..size] == old(Contents())
    {
      hide Held, Write;
      CursorsTellLayout(capacity, head, tail, size);
      ghost var before := buffer[..];
      HeldIsBlocks(before, head, size);
      if tail == 0 || tail > head {
        WriteEnds(before, 0, before[head..head + size]);
        CopyInto(buffer, 0, buffer[head..head + size]);
      } else {
        SwapBlocks(buffer, head, size - (capacity - head));
      }
      assert buffer[..size] == buffer[..][..size];
    }

    method Normilize()
      requires Valid()
      modifies this, buffer
      ensures Valid()
      ensures Reply(Contents(), Ok, []) == Serve(capacity, old(Contents()), Linearise)
      ensures Contents() == old(Contents())
      ensures head == 0 && tail == size && size == old(size)
      ensures buffer[..size] == Contents()
    {
      hide Held;
      HeldIsBlocks(buffer[..], head, size);
      if head == 0 {
        return;
      }
      if size != 0 {
        MoveBlocksToFront();
      }
      head := 0;
      tail := size;
      HeldIsBlocks(buffer[..], 0, size);
      assert buffer[..][0..size] == buffer[..size];
    }

    method Reset()
      requires Valid()
      modifies this
      ensures Valid()
      ensures Reply(Contents(), Ok, []) == Serve(capacity, old(Contents()), Clear)
      ensures Contents() == [] && size == 0 && head == 0 && tail == 0
    {
      size := 0;
      head := 0;
      tail := 0;
    }
  }

  /** The documentation of getLinearFreeSpace fails on a buffer the calls can reach: it is full, and the
      figure says that there is room behind the tail. */
  method FullBufferClaimsRoom() returns (b: BufferStatic, room: nat)
    ensures fresh(b) && b.Valid() && b.Contents() == [2, 3] && b.size == b.capacity == 2
    ensures b.RoomAtAppendPtr() == 0 < room
  {
    hide Held;
    b := new BufferStatic(2);
    assert [] + [1, 2] == [1, 2] && [1, 2][1..] == [2] && [2] + [3] == [2, 3];
    var r := b.AppendData([1, 2]);
    var out;
    r, out := b.Get(1);
    r := b.AppendData([3]);
    room := b.GetLinearFreeSpace();
  }

  // ---- Using the buffer

  /** The zero-copy protocol: read the free space, fetch the pointer, write there, count it in.  It appends
      whatever fits behind the append pointer; the smaller of the two figures tells how much that is. */
  method WriteDirectly(b: BufferStatic, data: Text) returns (written: bool, ghost room: nat)
    requires b.Valid()
    modifies b, b.buffer
    ensures b.Valid()
    ensures written <==> |data| <= old(b.RoomAtAppendPtr())
    ensures b.Contents() == if written then old(b.Contents()) + data else old(b.Contents())
    ensures old(b.size) < b.capacity ==> room == old(b.RoomAtAppendPtr()) && 1 <= room <= b.capacity - old(b.size)
    ensures written <==> |data| <= room && old(b.size) + |data| <= b.capacity
  {
    var linear := b.GetLinearFreeSpace();
    room := linear;
    if linear < |data| || b.capacity - b.size < |data| {
      return false, room;
    }
    var at := b.GetLinearAppendPtr();
    ghost var buf := b.buffer[..];
    WriteStraightAppends(buf, b.head, b.size, at, data);
    WriteStraightAppends(buf, b.head, b.size, at, []);
    CopyInto(b.buffer, at, data);
    ghost var w := b.buffer[..];
    assert w == Write(buf, at, data);
    assert Held(w, b.head, b.size) == Held(buf, b.head, b.size) by {
      HeldSplits(w, b.head, b.size + |data|, b.size);
    }
    var r := b.ExpandSize(|data|);
    assert b.buffer[at..at + |data|] == data;
    return true, room;
  }

  /** The lengths in the call are `unsigned int`. */
  predicate InRange(call: Call) {
    match call
    case Ask(Append(data)) => |data| < TWO_TO_32
    case Ask(GetData(len)) => len < TWO_TO_32
    case Ask(PeekData(len)) => len < TWO_TO_32
    case Ask(SeekData(len)) => len < TWO_TO_32
    case _ => true
  }

  method AskFor(b: BufferStatic, request: Request) returns (answer: Answer)
    requires b.Valid() && InRange(Ask(request))
    modifies b, b.buffer
    ensures b.Valid()
    ensures Reply(b.Contents(), answer.result, answer.out) == Serve(b.capacity, old(b.Contents()), request)
    ensures request.Append? ==>
              (answer.result == Ok <==> old(b.size) < b.capacity && |request.data| <= b.capacity - old(b.size))
    ensures request.GetData? || request.PeekData? || request.SeekData? ==>
              (answer.result == Ok <==> old(b.size) > 0 && request.len <= old(b.size))
    ensures answer.result != Ok ==> b.Contents() == old(b.Contents()) && answer.out == []
    ensures answer.result == Ok ==>
              match request
              case Append(data) => b.Contents() == old(b.Contents()) + data && answer.out == []
              case GetData(len) => |answer.out| == len && answer.out + b.Contents() == old(b.Contents())
              case PeekData(len) =>
                |answer.out| == len && answer.out <= b.Contents() && b.Contents() == old(b.Contents())
              case SeekData(len) => b.Contents() == old(b.Contents())[len..] && answer.out == []
              case Linearise => b.Contents() == old(b.Contents()) && answer.out == []
              case Clear => b.Contents() == [] && answer.out == []
    ensures request.Linearise? || request.Clear? ==> answer.result == Ok
  {
    hide Held, Serve;
    AdmissionIsExact(b.capacity, b.Contents(), request);
    var r, out := Ok, [];
    match request {
      case Append(data) => r := b.AppendData(data);
      case GetData(len) => r, out := b.Get(len);
      case PeekData(len) => r, out := b.Peek(len);
      case SeekData(len) => r := b.Seek(len);
      case Linearise => b.Normilize();
      case Clear => b.Reset();
    }
    answer := Answer(r, out);
  }

  method Perform(b: BufferStatic, call: Call) returns (answer: Answer, ghost room: nat)
    requires b.Valid() && InRange(call)
    modifies b, b.buffer
    ensures b.Valid()
    ensures Reply(b.Contents(), answer.result, answer.out) ==
            ServeCall(b.capacity, room, old(b.Contents()), call)
    ensures |old(b.Contents())| < b.capacity ==> 1 <= room <= b.capacity - |old(b.Contents())|
    ensures call.WriteDirect? ==>
              && (answer.result == Ok <==> |call.data| <= room && |old(b.Contents())| + |call.data| <= b.capacity)
              && b.Contents() == old(b.Contents()) + (if answer.result == Ok then call.data else [])
    ensures call.FetchPointer? ==> answer == Answer(Ok, []) && b.Contents() == old(b.Contents())
  {
    hide Held, Serve;
    var linear := b.GetLinearFreeSpace();
    room := linear;
    match call {
      case Ask(request) => answer := AskFor(b, request);
      case WriteDirect(data) =>
        var written;
        written, room := WriteDirectly(b, data);
        answer := Answer(if written then Ok else BufferFull, []);
      case FetchPointer =>
        var at := b.GetLinearAppendPtr();
        answer := Answer(Ok, []);
    }
  }

  /** A user who throws nothing away reads exactly the bytes written, in order.
      The ring refines the queue over every run, from every valid buffer: the answers and the bytes held are
      those of the queue, so what was there and what went in is what came out followed by what is held.
      Only the grant of a direct write depends on the ring, and while there is space it is never zero. */
  method Drive(b: BufferStatic, calls: seq<Call>) returns (answers: seq<Answer>, ghost rooms: seq<nat>)
    requires b.Valid() && forall i :: 0 <= i < |calls| ==> InRange(calls[i])
    modifies b, b.buffer
    ensures b.Valid() && |rooms| == |calls|
    ensures var h := Run(b.capacity, old(b.Contents()), rooms, calls);
            && answers == h.answers && b.Contents() == h.held
            && old(b.Contents()) + h.accepted == h.removed + b.Contents()
            && |b.Contents()| <= b.capacity
    ensures |answers| == |calls|
    ensures OnlyReads(calls) ==>
              old(b.Contents()) + Written(calls, answers) == ReadOut(calls, answers) + b.Contents()
    ensures RoomsFit(b.capacity, old(b.Contents()), rooms, calls)
  {
    hide Held, ServeCall, Run, RoomsFit, InRange;
    ghost var start := b.Contents();
    answers, rooms := [], [];
    RunOfNone(b.capacity, start);
    for n := 0 to |calls|
      invariant b.Valid() && |rooms| == n
      invariant answers == Run(b.capacity, start, rooms, calls[..n]).answers
      invariant b.Contents() == Run(b.capacity, start, rooms, calls[..n]).held
      invariant RoomsFit(b.capacity, start, rooms, calls[..n])
    {
      var answer, room := Perform(b, calls[n]);
      RunSnoc(b.capacity, start, rooms, calls[..n], room, calls[n]);
      assert calls[..n + 1] == calls[..n] + [calls[n]];
      answers, rooms := answers + [answer], rooms + [room];
    }
    assert calls[..|calls|] == calls;
    RunConserves(b.capacity, start, rooms, calls);
    AnswersTell(b.capacity, start, rooms, calls);
  }
}
