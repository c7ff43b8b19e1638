// The resumable search for the "APTS" mark before each APE frame: get_frame_size gives
// up whenever the bitstream has no data ready and goes on at the next call, keeping the
// last three bytes it compared.

module ApeScanner {
  import opened Bytes

  // ---------------------------------------------------------------- the search it stands for

  ghost predicate MarkAt(data: seq<byte>, k: int) {
    && 0 <= k && k + 4 <= |data|
    && data[k] == 0x41 && data[k + 1] == 0x50
    && data[k + 2] == 0x54 && data[k + 3] == 0x53
  }

  lemma MarkSpelled(data: seq<byte>, k: nat)
    requires k + 4 <= |data|
    ensures MarkAt(data, k) <==> forall i :: 0 <= i < 4 ==> data[k + i] == "APTS"[i] as int
  {
    assert "APTS"[0] as int == 0x41 && "APTS"[1] as int == 0x50;
    assert "APTS"[2] as int == 0x54 && "APTS"[3] as int == 0x53;
    assert MarkAt(data, k) <==>
           data[k + 0] == 0x41 && data[k + 1] == 0x50 && data[k + 2] == 0x54 && data[k + 3] == 0x53;
  }

  // No mark lies wholly within data[from..end].
  ghost predicate NoneWithin(data: seq<byte>, from: nat, end: nat) {
    forall j :: from <= j && j + 4 <= end ==> !MarkAt(data, j)
  }

  ghost predicate FirstMark(data: seq<byte>, from: nat, k: nat) {
    from <= k && MarkAt(data, k) && forall j :: from <= j < k ==> !MarkAt(data, j)
  }

  // One search: not begun, looking for the mark, past it, and with the length read.
  datatype Search =
    | Idle(pos: nat)
    | Seeking(from: nat, pos: nat)
    | Synced(from: nat, pos: nat)
    | Done(from: nat, pos: nat)

  // Whether the bitstream answers a read for mark bytes and one for the length in a call.
  datatype Ready = Ready(mark: bool, length: bool)

  ghost function Step(data: seq<byte>, s: Search, ready: Ready): Search {
    match s
    case Idle(p) =>
      if ready.mark && p + 4 <= |data| then Compared(data, p, p + 4, ready) else s
    case Seeking(from, p) =>
      if ready.mark && p + 1 <= |data| then Compared(data, from, p + 1, ready) else s
    case Synced(from, p) => AtLength(data, from, p, ready)
    case Done(_, _) => s
  }

  ghost function Compared(data: seq<byte>, from: nat, p: nat, ready: Ready): Search {
    if MarkAt(data, p - 4) then AtLength(data, from, p, ready) else Seeking(from, p)
  }

  ghost function AtLength(data: seq<byte>, from: nat, p: nat, ready: Ready): Search {
    if ready.length && p + 4 <= |data| then Done(from, p + 4) else Synced(from, p)
  }

  ghost function Run(data: seq<byte>, start: nat, calls: seq<Ready>): Search {
    if calls == [] then Idle(start) else Step(data, Run(data, start, calls[..|calls| - 1]), calls[|calls| - 1])
  }

  // The calls in which the bitstream had mark bytes to give.
  function Answered(calls: seq<Ready>): (n: nat)
    ensures n <= |calls|
  {
    if calls == [] then 0
    else Answered(calls[..|calls| - 1]) + (if calls[|calls| - 1].mark then 1 else 0)
  }

  // What a search knows: it has moved four bytes and then one byte an answered call,
  // and the mark it stops at is the first.
  ghost predicate Knows(data: seq<byte>, start: nat, s: Search, answered: nat) {
    match s
    case Idle(p) => p == start && (answered == 0 || |data| < start + 4)
    case Seeking(from, p) =>
      && from == start && answered > 0 && start + 4 <= p && NoneWithin(data, start, p)
      && p == Min(start + 3 + answered, |data|)
    case Synced(from, p) =>
      from == start && p >= 4 && FirstMark(data, start, p - 4) && p <= start + 3 + answered
    case Done(from, p) =>
      && from == start && 8 <= p <= |data|
      && FirstMark(data, start, p - 8) && p - 4 <= start + 3 + answered
  }

  lemma KnowsStep(data: seq<byte>, start: nat, s: Search, answered: nat, ready: Ready)
    requires Knows(data, start, s, answered)
    ensures Knows(data, start, Step(data, s, ready), answered + (if ready.mark then 1 else 0))
  {
  }

  lemma {:induction false} KnowsRun(data: seq<byte>, start: nat, calls: seq<Ready>)
    ensures Knows(data, start, Run(data, start, calls), Answered(calls))
  {
    if calls != [] {
      KnowsRun(data, start, calls[..|calls| - 1]);
      KnowsStep(data, start, Run(data, start, calls[..|calls| - 1]), Answered(calls[..|calls| - 1]),
                calls[|calls| - 1]);
    }
  }

  lemma FirstMarkUnique(data: seq<byte>, start: nat, j: nat, k: nat)
    requires FirstMark(data, start, j) && FirstMark(data, start, k)
    ensures j == k
  {
  }

  // Over any run of calls, however many of them found no data ready, the search is past
  // the mark at k exactly when k holds the first mark at or after the start and enough
  // calls were answered to read up to it; it then stands right behind that mark or, once
  // the length is read, four bytes further.
  lemma StopsAtFirstMark(data: seq<byte>, start: nat, calls: seq<Ready>, k: nat)
    ensures var s := Run(data, start, calls);
            s == Synced(start, k + 4) || s == Done(start, k + 8)
            <==> FirstMark(data, start, k) && k - start + 1 <= Answered(calls)
  {
    KnowsRun(data, start, calls);
    var s := Run(data, start, calls);
    if FirstMark(data, start, k) && k - start + 1 <= Answered(calls) {
      match s
      case Idle(p) =>
      case Seeking(from, p) =>
      case Synced(from, p) => FirstMarkUnique(data, start, k, p - 4);
      case Done(from, p) => FirstMarkUnique(data, start, k, p - 8);
    }
  }

  // The first i calls were answered often enough to read up to a mark at k, and the last of
  // them could give the length.
  predicate LengthAt(start: nat, calls: seq<Ready>, k: nat, i: nat) {
    0 < i <= |calls| && calls[i - 1].length && k - start + 1 <= Answered(calls[..i])
  }

  lemma LengthAtStep(start: nat, front: seq<Ready>, last: Ready, k: nat)
    ensures (exists i :: LengthAt(start, front + [last], k, i))
            <==> (exists i :: LengthAt(start, front, k, i))
                 || (last.length && k - start + 1 <= Answered(front + [last]))
  {
    var calls := front + [last];
    assert calls[..|calls|] == calls;
    assert forall i :: 0 < i <= |front| ==> calls[..i] == front[..i] && calls[i - 1] == front[i - 1];
    if i: nat :| LengthAt(start, front, k, i) {
      assert LengthAt(start, calls, k, i);
    }
    if i: nat :| LengthAt(start, calls, k, i) {
      assert i < |calls| ==> LengthAt(start, front, k, i);
    }
    if last.length && k - start + 1 <= Answered(calls) {
      assert LengthAt(start, calls, k, |calls|);
    }
  }

  // The step in which the length is read: the first at or past the mark that can give it.
  lemma DoneStep(data: seq<byte>, start: nat, s: Search, ready: Ready, k: nat)
    ensures var s' := Step(data, s, ready);
            s' == Done(start, k + 8)
            <==> || s == Done(start, k + 8)
                 || ((s' == Synced(start, k + 4) || s' == Done(start, k + 8)) && ready.length && k + 8 <= |data|)
  {
  }

  // Over any run of calls the length behind the mark at k is read exactly when k holds the
  // first mark, the four bytes are there, and some call once the mark is reached can give them.
  lemma {:induction false} LengthReadIff(data: seq<byte>, start: nat, calls: seq<Ready>, k: nat)
    ensures Run(data, start, calls) == Done(start, k + 8)
            <==> FirstMark(data, start, k) && k + 8 <= |data| && exists i :: LengthAt(start, calls, k, i)
  {
    if calls != [] {
      var (front, last) := (calls[..|calls| - 1], calls[|calls| - 1]);
      LengthReadIff(data, start, front, k);
      StopsAtFirstMark(data, start, calls, k);
      DoneStep(data, start, Run(data, start, front), last, k);
      LengthAtStep(start, front, last, k);
      assert front + [last] == calls;
    }
  }

  // Calls that find nothing ready can be left out of a run without changing its outcome.
  lemma {:induction false} IdleCallsHarmless(data: seq<byte>, start: nat, calls: seq<Ready>)
    ensures Run(data, start, calls) == Run(data, start, Useful(calls))
  {
    if calls != [] {
      var (front, last) := (calls[..|calls| - 1], calls[|calls| - 1]);
      IdleCallsHarmless(data, start, front);
      if last != Ready(false, false) {
        assert (Useful(front) + [last])[..|Useful(front)|] == Useful(front);
      } else {
        assert Useful(calls) == Useful(front);
      }
    }
  }

  function Useful(calls: seq<Ready>): seq<Ready> {
    if calls == [] then []
    else
      var last := calls[|calls| - 1];
      Useful(calls[..|calls| - 1]) + (if last == Ready(false, false) then [] else [last])
  }

  // ---------------------------------------------------------------- the scanner

  datatype FrameSize = Default | Again | Found(length: seq<byte>)

  // The bitstream: read_buffer gives nothing or exactly what was asked for.
  class Bitstream {
    const data: seq<byte>
    var pos: nat

    constructor (data: seq<byte>)
      ensures this.data == data && pos == 0
    {
      this.data := data;
      pos := 0;
    }

    method ReadBuffer(buff: array<byte>, at: nat, size: nat, ready: bool) returns (ret: int)
      requires at + size <= buff.Length
      modifies this, buff
      ensures ret == if ready && old(pos) + size <= |data| then size else 0
      ensures pos == old(pos) + ret
      ensures forall j :: 0 <= j < buff.Length && !(at <= j < at + ret) ==> buff[j] == old(buff[j])
      ensures forall j :: at <= j < at + ret ==> buff[j] == data[old(pos) + j - at]
    {
      if !ready || pos + size > |data| {
        return 0;
      }
      var i := 0;
      while i < size
        invariant 0 <= i <= size && pos == old(pos)
        invariant forall j :: 0 <= j < buff.Length && !(at <= j < at + i) ==> buff[j] == old(buff[j])
        invariant forall j :: at <= j < at + i ==> buff[j] == data[pos + j - at]
      {
        buff[at + i] := data[pos + i];
        i := i + 1;
      }
      pos := pos + size;
      ret := size;
    }
  }

  // start_code
  class Scanner {
    const stream: Bitstream
    const buff: array<byte>
    var size: nat
    var status: nat
    ghost var from: nat

    ghost predicate Valid()
      reads this, stream, buff
    {
      && buff.Length == 10 && status <= 3
      && (status == 1 ==>
            && size == 3 && from + 4 <= stream.pos <= |stream.data|
            && buff[0] == stream.data[stream.pos - 3]
            && buff[1] == stream.data[stream.pos - 2]
            && buff[2] == stream.data[stream.pos - 1])
      && (status == 2 ==> from + 4 <= stream.pos)
    }

    ghost function Now(): Search
      reads this, stream
    {
      if status == 1 then Seeking(from, stream.pos)
      else if status == 2 then Synced(from, stream.pos)
      else Idle(stream.pos)
    }

    constructor (stream: Bitstream)
      ensures Valid() && this.stream == stream && fresh(buff) && Now() == Idle(stream.pos)
    {
      this.stream := stream;
      buff := new byte[10](_ => 0);
      size, status, from := 0, 0, 0;
    }

    // The comparison of get_frame_size: past the mark, or three bytes kept.
    method Compare()
      requires buff.Length == 10 && status == 1 && size == 4
      requires from + 4 <= stream.pos <= |stream.data|
      requires forall j :: 0 <= j < 4 ==> buff[j] == stream.data[stream.pos - 4 + j]
      modifies this`size, this`status, buff
      ensures Valid()
      ensures Now() == if MarkAt(stream.data, stream.pos - 4) then Synced(from, stream.pos)
                       else Seeking(from, stream.pos)
    {
      if buff[0] == 0x41 && buff[1] == 0x50 && buff[2] == 0x54 && buff[3] == 0x53 {
        size, status := 0, 2;
      } else {
        size := 3;
        buff[0] := buff[1];
        buff[1] := buff[2];
        buff[2] := buff[3];
      }
    }

    // The two reads of get_frame_size that look for the mark.
    method SeekMark(ready: bool) returns (more: bool)
      requires Valid() && status != 3
      modifies this, stream, buff
      ensures Valid() && status != 3
      ensures var s := Step(stream.data, old(Now()), Ready(ready, false));
              Now() == s && (more <==> s.Synced?)
    {
      var ret: int;
      if status == 0 {
        from := stream.pos;
        ret := stream.ReadBuffer(buff, 0, 4, ready);
        if ret <= 0 {
          return false;
        }
        size, status := 4, 1;
        Compare();
      } else if status == 1 {
        ret := stream.ReadBuffer(buff, size, 4 - size, ready);
        if ret <= 0 {
          return false;
        }
        size := 4;
        Compare();
      }
      more := status == 2;
    }

    // The read of get_frame_size behind the mark.
    method ReadLength(ready: bool) returns (r: FrameSize)
      requires Valid() && status == 2
      modifies this, stream, buff
      ensures Valid()
      ensures var s := AtLength(stream.data, old(from), old(stream.pos), Ready(false, ready));
              if s.Done? then r == Found(stream.data[s.pos - 4..s.pos]) && Now() == Idle(s.pos)
              else r == Again && Now() == s
    {
      var ret := stream.ReadBuffer(buff, 0, 4, ready);
      if ret <= 0 {
        return Again;
      }
      size, status := 4, 3;
      r := Found(buff[..4]);
    }

    // get_frame_size
    method GetFrameSize(ape: bool, ready: Ready) returns (r: FrameSize)
      requires Valid()
      modifies this, stream, buff
      ensures Valid()
      ensures !ape ==> r == Default && Now() == old(Now())
      ensures ape ==>
                var s := Step(stream.data, old(Now()), ready);
                if s.Done? then
                  && r == Found(stream.data[s.pos - 4..s.pos])
                  && Now() == Idle(s.pos)
                else r == Again && Now() == s
    {
      if status == 0 || status == 3 {
        size, status := 0, 0;
      }
      if !ape {
        return Default;
      }
      var more := SeekMark(ready.mark);
      if !more {
        return Again;
      }
      r := ReadLength(ready.length);
    }
  }
}
