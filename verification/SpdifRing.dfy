// The DMA ring of the S/PDIF output: packed frames are copied behind a moving read pointer.

module SpdifRing {
  import opened Bytes
  import opened PcmRing

  const LATENCY := 3840    // 4 * 48000 * IEC958_LANTENCY / 1000
  const ALIGN := 4096
  const BURST: nat := 2048    // zerobuf

  // iec958_buf_space_size, once the read offset is known.
  function SpaceSize(size: nat, rd: nat, wr: nat): nat {
    var space := if wr > rd then size + rd - wr else rd - wr;
    if space > ALIGN then space - ALIGN else 0
  }

  // A buffer no longer than the slack never has space, wherever its pointers are.
  lemma SmallNeverAccepts(size: nat, rd: nat, wr: nat, n: nat)
    requires size <= 4096 && rd < size && n > 0
    ensures SpaceSize(size, rd, wr) < n
  {
  }

  // The write offset is never 0 after a frame that ends the buffer, but size.
  function Slot(size: nat, wr: nat): nat {
    if wr == size then 0 else wr
  }

  // The bytes between the pointers are level many.
  predicate Between(size: nat, rd: nat, wr: nat, level: nat) {
    && rd < size && wr <= size && level < size
    && Slot(size, wr) == Around(size, rd, level)
  }

  // The space reported is what is free beyond the slack, except that pointers that
  // meet always read as full.
  lemma SpaceExact(size: nat, rd: nat, wr: nat, level: nat, n: nat)
    requires Between(size, rd, wr, level) && n > 0
    ensures SpaceSize(size, rd, wr) >= n <==> level > 0 && level + n + 4096 <= size
  {
  }

  // What is not space is less than two pages exactly in a small ring and when the bytes
  // between the pointers are fewer than one page, but some: a drained ring reads as full.
  lemma LevelExact(size: nat, rd: nat, wr: nat, level: nat)
    requires Between(size, rd, wr, level)
    ensures size - SpaceSize(size, rd, wr) < 8192 <==> size < 8192 || 0 < level < 4096
  {
  }

  class DmaRing {
    const size: nat                // iec958_buffer_size
    const dma: array<byte>
    var wrOffset: nat
    var firstWrite: bool
    // the hardware: its read offset, its count of unread bytes, its switches
    var rd: nat
    var level: nat
    var enabled958: bool
    var enabledI2s: bool
    // histories: delay bytes, bytes of accepted frames, bytes played
    ghost var stale: seq<byte>
    ghost var written: seq<byte>
    ghost var played: seq<byte>

    ghost predicate Valid()
      reads this, dma
    {
      && size > LATENCY && dma.Length == size
      && Between(size, rd, wrOffset, level)
      && (firstWrite ==> written == [] && wrOffset < size && played <= stale)
      && stale + written == played + Unread()
    }

    ghost function Unread(): (q: seq<byte>)
      requires dma.Length == size && rd < size && level <= size
      reads this, dma
      ensures |q| == level
    {
      Cyclic(dma[..], rd, level)
    }

    // iec958_init, with the read pointer at the start.
    constructor (size: nat)
      requires size > LATENCY
      ensures Valid() && this.size == size && fresh(dma) && firstWrite && written == [] && played == []
      ensures !enabled958 && !enabledI2s && rd == 0 && wrOffset == level == 3840
    {
      this.size := size;
      dma := new byte[size](_ => 0);
      rd, enabled958, enabledI2s, firstWrite := 0, false, false, true;
      wrOffset := LATENCY;    // below size, so the cap at size is not needed
      level, written, played := LATENCY, [], [];
      new;
      stale := Unread();
    }

    // The hardware plays n bytes; it never passes the write pointer.
    method HwRead(n: nat)
      requires Valid() && n <= level
      modifies this
      ensures Valid() && written == old(written) && stale == old(stale) && firstWrite == old(firstWrite)
      ensures played == old(played) + old(Unread())[..n] && Unread() == old(Unread())[n..]
      ensures enabled958 == old(enabled958) && enabledI2s == old(enabledI2s)
    {
      ghost var q := Unread();
      ghost var from := rd;
      rd := Around(size, rd, n);
      level := level - n;
      CyclicRead(dma[..], from, |q|, n, rd);
      SplitAt(played, q, n);
      assert firstWrite ==> stale == stale + written;
      played := played + q[..n];
    }

    method SetStatus(s958: bool, i2s: bool)
      requires Valid()
      modifies `enabled958, `enabledI2s
      ensures Valid() && enabled958 == s958 && enabledI2s == i2s
    {
      enabled958, enabledI2s := s958, i2s;
    }

    // iec958_buf_space_size
    method BufSpaceSize() returns (space: nat)
      requires Valid()
      modifies `wrOffset, `firstWrite, `level, `stale
      ensures Valid() && !firstWrite && played == old(played)
      ensures space == SpaceSize(size, rd, wrOffset)
      ensures !old(firstWrite) ==> level == old(level) && stale == old(stale) && wrOffset == old(wrOffset)
      ensures old(firstWrite) ==>
                if rd < old(wrOffset) && old(wrOffset) - rd >= 3840
                then wrOffset == old(wrOffset) && level == old(level)
                else level == 3840 && wrOffset == Around(size, rd, 3840)
      ensures level > 0 || !old(firstWrite)
      ensures old(firstWrite) ==> stale == old(played) + Unread() && old(played) <= stale
    {
      if firstWrite {
        if rd >= wrOffset || wrOffset - rd < LATENCY {
          wrOffset := rd + LATENCY;
          if wrOffset >= size {
            wrOffset := wrOffset - size;
          }
          level := LATENCY;
          stale := played + Unread();
        }
        firstWrite := false;
      }
      space := SpaceSize(size, rd, wrOffset);
    }

    // iec958_check_958buf_level, true where it returns 0: the output is on and, in a ring of
    // two pages or more, less than a page but something is left to play.  With the output on,
    // this is a first write as well.
    method CheckLevel() returns (low: bool)
      requires Valid()
      modifies `wrOffset, `firstWrite, `level, `stale
      ensures Valid() && played == old(played)
      ensures low <==> enabled958 && (size < 8192 || 0 < level < 4096)
      ensures old(firstWrite) && enabled958 ==>
                if rd < old(wrOffset) && old(wrOffset) - rd >= 3840 then level == old(level) else level == 3840
      ensures if old(firstWrite) then old(played) <= stale
              else stale == old(stale) && level == old(level) && wrOffset == old(wrOffset)
      ensures if enabled958 then !firstWrite
              else firstWrite == old(firstWrite) && level == old(level) && stale == old(stale)
    {
      low := false;
      if enabled958 {
        var space := BufSpaceSize();
        LevelExact(size, rd, wrOffset, level);
        low := size - space < 2 * ALIGN;
      }
    }

    // One write to the device, at the write offset.
    method Store(bytes: seq<byte>)
      requires dma.Length == size && wrOffset + |bytes| <= size
      modifies dma
      ensures forall i :: 0 <= i < size ==>
                dma[i] == if wrOffset <= i < wrOffset + |bytes| then bytes[i - wrOffset] else old(dma[i])
    {
      forall i | 0 <= i < |bytes| { dma[wrOffset + i] := bytes[i]; }
    }

    // The copy of an accepted frame, in one piece or round the end.
    method StoreRound(frame: seq<byte>)
      requires dma.Length == size && wrOffset <= size && |frame| < size
      modifies `wrOffset, dma
      ensures wrOffset <= size && Slot(size, wrOffset) == Around(size, Slot(size, old(wrOffset)), |frame|)
      ensures forall i :: 0 <= i < |frame| ==> dma[Around(size, Slot(size, old(wrOffset)), i)] == frame[i]
      ensures forall k :: 0 <= k < size && !Covered(size, Slot(size, old(wrOffset)), |frame|, k) ==>
                dma[k] == old(dma[k])
    {
      if wrOffset == size {
        wrOffset := 0;
      }
      if |frame| + wrOffset > size {
        var tail := size - wrOffset;
        Store(frame[..tail]);
        wrOffset := 0;
        Store(frame[tail..]);
        wrOffset := |frame| - tail;
      } else {
        Store(frame);
        wrOffset := wrOffset + |frame|;
      }
    }

    method CopyFrame(frame: seq<byte>)
      requires Valid() && !firstWrite && level + |frame| < size
      modifies `wrOffset, `level, `written, dma
      ensures Valid() && !firstWrite && written == old(written) + frame
      ensures level == old(level) + |frame| && Unread() == old(Unread()) + frame
    {
      ghost var before, start := dma[..], Slot(size, wrOffset);
      StoreRound(frame);
      assert forall i :: 0 <= i < |frame| ==> Around(size, rd, level + i) == Around(size, start, i);
      CyclicWrite(before, dma[..], rd, level, frame);
      Longer(stale, written, played, Cyclic(before, rd, level), frame);
      level := level + |frame|;
      written := written + frame;
    }

    lemma Longer(stale: seq<byte>, written: seq<byte>, played: seq<byte>, unread: seq<byte>, frame: seq<byte>)
      requires stale + written == played + unread
      ensures stale + (written + frame) == played + (unread + frame)
    {
      assert stale + (written + frame) == (stale + written) + frame;
      assert played + (unread + frame) == (played + unread) + frame;
    }

    // iec958_packed_frame_write_958buf with the output on.
    method Offer(frame: seq<byte>) returns (ret: int)
      requires Valid()
      modifies `wrOffset, `firstWrite, `level, `stale, `written, dma
      ensures Valid() && played == old(played) && !firstWrite
      ensures ret == 0 || ret == -1
      ensures written == if ret == 0 then old(written) + frame else old(written)
      ensures if old(firstWrite) then old(played) <= stale else stale == old(stale)
      ensures ret == 0 && |frame| > 0 ==> level + 4096 <= size
      ensures ret == -1 ==> !(level > 0 && level + |frame| + 4096 <= size)
      ensures !old(firstWrite) && |frame| > 0 ==> (ret == 0 <==> old(level) > 0 && old(level) + |frame| + 4096 <= size)
      ensures !old(firstWrite) ==> Unread() == if ret == 0 then old(Unread()) + frame else old(Unread())
    {
      var space := BufSpaceSize();
      if frame != [] {
        SpaceExact(size, rd, wrOffset, level, |frame|);
      }
      if space < |frame| {
        return -1;
      }
      if frame == [] {
        CopyNothing();
        assert written == written + frame;
      } else {
        CopyFrame(frame);
      }
      return 0;
    }

    // iec958_packed_frame_write_958buf: -1 to retry, 0 when the frame is copied or discarded.
    method WriteFrame(frame: seq<byte>) returns (ret: int)
      requires Valid()
      modifies `enabled958, `wrOffset, `firstWrite, `level, `stale, `written, dma
      ensures Valid() && played == old(played) && (ret == 0 || ret == -1)
      ensures enabled958 == (old(enabled958) || enabledI2s)
      ensures if old(firstWrite) then old(played) <= stale else stale == old(stale)
      ensures enabled958 ==> !firstWrite && written == if ret == 0 then old(written) + frame else old(written)
      ensures !enabled958 ==>
                ret == 0 && written == old(written) && level == old(level) && firstWrite == old(firstWrite)
      ensures enabled958 && ret == 0 && |frame| > 0 ==> level + 4096 <= size
      ensures ret == -1 ==> !(level > 0 && level + |frame| + 4096 <= size)
      ensures enabled958 && !old(firstWrite) && |frame| > 0 ==>
                (ret == 0 <==> old(level) > 0 && old(level) + |frame| + 4096 <= size)
      ensures enabled958 && !old(firstWrite) ==> Unread() == if ret == 0 then old(Unread()) + frame else old(Unread())
    {
      if !enabled958 {
        if enabledI2s {
          enabled958 := true;
        } else {
          return 0;
        }
      }
      ret := Offer(frame);
    }

    // A frame of no bytes only brings the write offset round.
    method CopyNothing()
      requires Valid() && !firstWrite
      modifies `wrOffset
      ensures Valid() && Unread() == old(Unread())
    {
      if wrOffset == size {
        wrOffset := 0;
      }
    }

    // One burst of zeros with I2S on.
    method WriteZeros() returns (ok: bool)
      requires Valid() && enabledI2s
      modifies `enabled958, `wrOffset, `firstWrite, `level, `stale, `written, dma
      ensures Valid() && played == old(played) && !firstWrite && enabled958
      ensures written == if ok then old(written) + Zeros(BURST) else old(written)
      ensures !ok ==> !(level > 0 && level + 2048 + 4096 <= size)
      ensures if old(firstWrite) then old(played) <= stale else stale == old(stale)
    {
      var ret := WriteFrame(Zeros(BURST));
      ok := ret == 0;
    }

    // iec958buf_fill_zero: whole bursts of zeros; i2s is what the I2S state reads as, at
    // the start and after each burst.
    method FillZero(i2s: seq<bool>) returns (bursts: nat)
      requires Valid()
      modifies `enabled958, `enabledI2s, `wrOffset, `firstWrite, `level, `stale, `written, dma
      ensures Valid() && played == old(played)
      ensures written == old(written) + Zeros(bursts * 2048)
      ensures bursts <= |i2s| && forall k :: 0 <= k < bursts ==> i2s[k]
      ensures || bursts * 2048 >= size || bursts == |i2s| || !i2s[bursts]
              || !(level > 0 && level + 2048 + 4096 <= size)
      ensures if old(firstWrite) then old(played) <= stale else stale == old(stale) && !firstWrite
      ensures i2s == [] || !i2s[0] ==> level == old(level) && firstWrite == old(firstWrite)
    {
      var filled := 0;
      bursts := 0;
      ghost var before := written;
      assert written == before + Zeros(0);
      while filled < size && bursts < |i2s| && i2s[bursts]
        invariant Valid() && played == old(played) && written == before + Zeros(bursts * BURST)
        invariant filled == bursts * BURST && bursts <= |i2s|
        invariant forall k :: 0 <= k < bursts ==> i2s[k]
        invariant if old(firstWrite) then old(played) <= stale else stale == old(stale) && !firstWrite
        invariant bursts == 0 ==> level == old(level) && firstWrite == old(firstWrite)
        decreases size - filled
      {
        enabledI2s := true;
        var ok := WriteZeros();
        if !ok {
          return;
        }
        Appended(before, bursts);
        filled := filled + BURST;
        bursts := bursts + 1;
      }
    }

    lemma Appended(before: seq<byte>, bursts: nat)
      ensures before + Zeros(bursts * BURST) + Zeros(BURST) == before + Zeros((bursts + 1) * BURST)
    {
      ZerosJoin(bursts * BURST, BURST);
      assert before + Zeros(bursts * BURST) + Zeros(BURST) == before + (Zeros(bursts * BURST) + Zeros(BURST));
    }
  }
}
