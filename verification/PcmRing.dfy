// The ring between the decoder and the audio output, a bounded byte queue.

module PcmRing {
  import opened Bytes

  // ---------------------------------------------------------------- the queue it stands for

  // A write moves what fits, a read what is there.
  function Put(q: seq<byte>, capacity: nat, bytes: seq<byte>): (r: seq<byte>)
    requires |q| <= capacity
    ensures |r| <= capacity && q <= r <= q + bytes
    ensures |r| == capacity || r == q + bytes
  {
    q + bytes[..Min(capacity - |q|, |bytes|)]
  }

  function Got(q: seq<byte>, size: nat): (r: seq<byte>)
    ensures r <= q && |r| <= size && (|r| == size || r == q)
  {
    q[..Min(|q|, size)]
  }

  function Left(q: seq<byte>, size: nat): (r: seq<byte>)
    ensures Got(q, size) + r == q
  {
    q[Min(|q|, size)..]
  }

  datatype Op = Write(bytes: seq<byte>) | Read(size: nat)

  // What a run accepts, hands out and keeps.
  datatype Trace = Trace(accepted: seq<byte>, handed: seq<byte>, queue: seq<byte>)

  function Traffic(q: seq<byte>, capacity: nat, ops: seq<Op>): (t: Trace)
    requires |q| <= capacity
    ensures |t.queue| <= capacity
    decreases |ops|
  {
    if ops == [] then Trace([], [], q)
    else
      match ops[0]
      case Write(bytes) =>
        var rest := Traffic(Put(q, capacity, bytes), capacity, ops[1..]);
        Trace(bytes[..Min(capacity - |q|, |bytes|)] + rest.accepted, rest.handed, rest.queue)
      case Read(size) =>
        var rest := Traffic(Left(q, size), capacity, ops[1..]);
        Trace(rest.accepted, Got(q, size) + rest.handed, rest.queue)
  }

  lemma WriteFirst(q: seq<byte>, moved: seq<byte>, accepted: seq<byte>, handed: seq<byte>, queue: seq<byte>)
    requires (q + moved) + accepted == handed + queue
    ensures q + (moved + accepted) == handed + queue
  {
    assert (q + moved) + accepted == q + (moved + accepted);
  }

  lemma ReadFirst(q: seq<byte>, size: nat, accepted: seq<byte>, handed: seq<byte>, queue: seq<byte>)
    requires Left(q, size) + accepted == handed + queue
    ensures q + accepted == (Got(q, size) + handed) + queue
  {
    assert Got(q, size) + Left(q, size) == q;
    assert q + accepted == Got(q, size) + (Left(q, size) + accepted);
    assert (Got(q, size) + handed) + queue == Got(q, size) + (handed + queue);
  }

  // Over any run, the bytes come out in the order they went in: none lost, none twice.
  lemma {:induction false} TrafficInOrder(q: seq<byte>, capacity: nat, ops: seq<Op>)
    requires |q| <= capacity
    ensures var t := Traffic(q, capacity, ops); q + t.accepted == t.handed + t.queue
    decreases |ops|
  {
    if ops != [] {
      match ops[0]
      case Write(bytes) =>
        var q' := Put(q, capacity, bytes);
        var rest := Traffic(q', capacity, ops[1..]);
        TrafficInOrder(q', capacity, ops[1..]);
        WriteFirst(q, bytes[..Min(capacity - |q|, |bytes|)], rest.accepted, rest.handed, rest.queue);
      case Read(size) =>
        var rest := Traffic(Left(q, size), capacity, ops[1..]);
        TrafficInOrder(Left(q, size), capacity, ops[1..]);
        ReadFirst(q, size, rest.accepted, rest.handed, rest.queue);
    }
  }

  // ---------------------------------------------------------------- the ring

  // The cell i places after from, round the end of a buffer.
  function Around(length: nat, from: nat, i: nat): int {
    if from + i < length then from + i else from + i - length
  }

  // Cell k is one of the len cells from position from on.
  predicate Covered(length: nat, from: nat, len: nat, k: nat) {
    from <= k < from + len || k + length < from + len
  }

  // n cells of s from position from on.
  function Cyclic(s: seq<byte>, from: nat, n: nat): (r: seq<byte>)
    requires from <= |s| && n <= |s|
    ensures |r| == n
  {
    seq(n, i requires 0 <= i < n => s[Around(|s|, from, i)])
  }

  // Reading len cells off the front.
  lemma CyclicRead(s: seq<byte>, from: nat, n: nat, len: nat, from': nat)
    requires from < |s| && len <= n <= |s| && from' == Around(|s|, from, len)
    ensures Cyclic(s, from, n)[len..] == Cyclic(s, from', n - len)
  {
  }

  // Appending cells at the end, when s' differs from s only there.
  lemma CyclicWrite(s: seq<byte>, s': seq<byte>, from: nat, n: nat, bytes: seq<byte>)
    requires from < |s| == |s'| && n + |bytes| <= |s|
    requires forall i :: 0 <= i < n ==> s'[Around(|s|, from, i)] == s[Around(|s|, from, i)]
    requires forall i :: 0 <= i < |bytes| ==> s'[Around(|s|, from, n + i)] == bytes[i]
    ensures Cyclic(s', from, n + |bytes|) == Cyclic(s, from, n) + bytes
  {
    var l, r := Cyclic(s', from, n + |bytes|), Cyclic(s, from, n) + bytes;
    forall i | 0 <= i < n + |bytes|
      ensures l[i] == r[i]
    {
      if n <= i {
        assert s'[Around(|s|, from, n + (i - n))] == bytes[i - n];
      }
    }
  }

  method Memcpy(dst: array<byte>, d: nat, src: array<byte>, s: nat, n: nat)
    requires dst != src && d + n <= dst.Length && s + n <= src.Length
    modifies dst
    ensures forall i :: 0 <= i < dst.Length ==> dst[i] == if d <= i < d + n then src[s + (i - d)] else old(dst[i])
  {
    forall i | 0 <= i < n { dst[d + i] := src[s + i]; }
  }

  const NOT_INITED := -1

  // buffer_stream_t; buf_length is data.Length, and rd and wr are offsets from data.
  class Ring {
    var data: array<byte>
    var bufLevel: nat
    var rd: nat
    var wr: nat
    var inited: bool
    var mutex: bool

    // Both pointers stay inside the buffer, and buf_level tells full from empty when they meet.
    ghost predicate Valid()
      reads this
    {
      && bufLevel <= data.Length
      && (data.Length == 0 ==> rd == 0 && wr == 0)
      && (data.Length > 0 ==>
            && rd < data.Length && wr < data.Length
            && wr == if rd + bufLevel < data.Length then rd + bufLevel else rd + bufLevel - data.Length)
    }

    ghost function Contents(): (q: seq<byte>)
      requires Valid()
      reads this, data
      ensures |q| == bufLevel
    {
      Cyclic(data[..], rd, bufLevel)
    }

    // init_buff, when malloc succeeds.
    constructor (length: nat)
      ensures Valid() && fresh(data) && data.Length == length && inited && mutex
      ensures Contents() == []
    {
      data := new byte[length](_ => 0);
      bufLevel, rd, wr := 0, 0, 0;
      inited, mutex := true, true;
    }

    // reset_buffer
    method Reset() returns (ret: int)
      requires Valid()
      modifies `bufLevel, `rd, `wr, `mutex
      ensures Valid()
      ensures if inited then ret == 0 && Contents() == [] && mutex
              else ret == NOT_INITED && Contents() == old(Contents()) && mutex == old(mutex)
    {
      if !inited {
        return NOT_INITED;
      }
      bufLevel, rd, wr, mutex := 0, 0, 0, true;
      return 0;
    }

    // The three conditions of read_data: the copy, and the new read pointer.
    method Load(out: array<byte>, len: nat)
      requires Valid() && 0 < bufLevel && len <= bufLevel && out.Length >= len && out != data
      modifies `rd, out
      ensures rd == Around(data.Length, old(rd), len)
      ensures forall i :: 0 <= i < out.Length ==>
                out[i] == if i < len then data[Around(data.Length, old(rd), i)] else old(out[i])
    {
      if wr > rd {
        Memcpy(out, 0, data, rd, len);
        rd := rd + len;
      } else if len < data.Length - rd {
        Memcpy(out, 0, data, rd, len);
        rd := rd + len;
      } else {
        var tailLen := data.Length - rd;
        Memcpy(out, 0, data, rd, tailLen);
        Memcpy(out, tailLen, data, 0, len - tailLen);
        rd := len - tailLen;
      }
    }

    // The copy of read_data, for len bytes that are there.
    method MoveOut(out: array<byte>, len: nat)
      requires Valid() && 0 < bufLevel && len <= bufLevel && out.Length >= len && out != data
      modifies `bufLevel, `rd, out
      ensures Valid()
      ensures Contents() == old(Contents())[len..]
      ensures out[..] == old(Contents())[..len] + old(out[len..])
    {
      ghost var from, q := rd, Contents();
      Load(out, len);
      bufLevel := bufLevel - len;
      CyclicRead(data[..], from, |q|, len, rd);
      assert out[..len] == q[..len];
      assert out[..] == out[..len] + old(out[len..]);
    }

    // read_data
    method ReadData(out: array<byte>, size: nat) returns (ret: int)
      requires Valid() && out.Length >= size && out != data
      modifies `bufLevel, `rd, out
      ensures Valid()
      ensures !inited ==> ret == NOT_INITED && Contents() == old(Contents()) && out[..] == old(out[..])
      ensures inited ==> ret == |Got(old(Contents()), size)|
                         && out[..] == Got(old(Contents()), size) + old(out[ret..])
                         && Contents() == Left(old(Contents()), size)
    {
      if !inited {
        return NOT_INITED;
      }
      if bufLevel == 0 {
        assert Contents() == [];
        return 0;
      }
      var len := Min(bufLevel, size);
      MoveOut(out, len);
      return len;
    }

    // The three conditions of write_data: the copy, and the new write pointer.
    method Store(bytes: array<byte>, len: nat)
      requires Valid() && bufLevel < data.Length && len <= data.Length - bufLevel && bytes.Length >= len
      requires bytes != data
      modifies `wr, data
      ensures wr == Around(data.Length, old(wr), len)
      ensures forall i :: 0 <= i < len ==> data[Around(data.Length, old(wr), i)] == bytes[i]
      ensures forall k :: 0 <= k < data.Length && !Covered(data.Length, old(wr), len, k) ==> data[k] == old(data[k])
    {
      if wr < rd {
        Memcpy(data, wr, bytes, 0, len);
        wr := wr + len;
      } else if len < data.Length - wr {
        Memcpy(data, wr, bytes, 0, len);
        wr := wr + len;
      } else {
        var tailLen := data.Length - wr;
        Memcpy(data, wr, bytes, 0, tailLen);
        Memcpy(data, 0, bytes, tailLen, len - tailLen);
        wr := len - tailLen;
      }
    }

    // The copy of write_data, for len bytes that fit.
    method MoveIn(bytes: array<byte>, len: nat)
      requires Valid() && bufLevel < data.Length && len <= data.Length - bufLevel && bytes.Length >= len
      requires bytes != data
      modifies `bufLevel, `wr, data
      ensures Valid()
      ensures Contents() == old(Contents()) + bytes[..len]
    {
      ghost var before, n := data[..], bufLevel;
      Store(bytes, len);
      bufLevel := bufLevel + len;
      assert forall i :: 0 <= i < len ==> Around(data.Length, rd, n + i) == Around(data.Length, old(wr), i);
      CyclicWrite(before, data[..], rd, n, bytes[..len]);
    }

    // write_data
    method WriteData(bytes: array<byte>, size: nat) returns (ret: int)
      requires Valid() && bytes.Length >= size && bytes != data
      modifies `bufLevel, `wr, data
      ensures Valid()
      ensures !inited ==> ret == NOT_INITED && Contents() == old(Contents())
      ensures inited ==> ret == Min(data.Length - old(bufLevel), size)
                         && Contents() == Put(old(Contents()), data.Length, bytes[..size])
    {
      if !inited {
        return NOT_INITED;
      }
      if bufLevel == data.Length {
        assert Put(Contents(), data.Length, bytes[..size]) == Contents();
        return 0;
      }
      var len := Min(data.Length - bufLevel, size);
      MoveIn(bytes, len);
      assert bytes[..size][..len] == bytes[..len];
      return len;
    }

    // read_pcm_buffer: nothing when the other side holds the flag.
    method ReadPcm(out: array<byte>, size: nat) returns (ret: int)
      requires Valid() && out.Length >= size && out != data
      modifies `bufLevel, `rd, `mutex, out
      ensures Valid() && mutex == old(mutex)
      ensures var n := if old(mutex) && inited then size else 0;
              var k := |Got(old(Contents()), n)|;
              && ret == (if old(mutex) && !inited then NOT_INITED else k)
              && out[..] == Got(old(Contents()), n) + old(out[k..])
              && Contents() == Left(old(Contents()), n)
    {
      ret := 0;
      if mutex {
        mutex := false;
        ret := ReadData(out, size);
        mutex := true;
      }
    }

    // write_pcm_buffer
    method WritePcm(bytes: array<byte>, size: nat) returns (ret: int)
      requires Valid() && bytes.Length >= size && bytes != data
      modifies `bufLevel, `wr, `mutex, data
      ensures Valid() && mutex == old(mutex)
      ensures var n := if old(mutex) && inited then size else 0;
              && ret == (if old(mutex) && !inited then NOT_INITED else Min(data.Length - old(bufLevel), n))
              && Contents() == Put(old(Contents()), data.Length, bytes[..n])
    {
      ret := 0;
      if mutex {
        mutex := false;
        ret := WriteData(bytes, size);
        mutex := true;
      }
    }
  }
}
