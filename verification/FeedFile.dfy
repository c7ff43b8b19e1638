// The feed file of ffserver: a header packet that holds the write index, and a
// body that wraps round when a maximum size is set.

module FeedFile {
  import opened Bytes

  const PACKET := 4096    // FFM_PACKET_SIZE

  // ---------------------------------------------------------------- the write index on disk

  function Pow256(k: nat): (p: nat)
    ensures p > 0
  {
    if k == 0 then 1 else 256 * Pow256(k - 1)
  }

  // k bytes, most significant first: ffm_write_write_index.
  function Encode(n: nat, k: nat): (s: seq<byte>)
    ensures |s| == k
  {
    if k == 0 then [] else Encode(n / 256, k - 1) + [n % 256]
  }

  // AV_RB64
  function Decode(s: seq<byte>): nat {
    if s == [] then 0 else Decode(s[..|s| - 1]) * 256 + s[|s| - 1] as int
  }

  // The eight bytes of the index, the most significant first.
  lemma DecodeIs(s: seq<byte>)
    requires |s| == 8
    ensures Decode(s) ==
            (s[0] as int) * 0x100_0000_0000_0000 + (s[1] as int) * 0x1_0000_0000_0000
            + (s[2] as int) * 0x100_0000_0000 + (s[3] as int) * 0x1_0000_0000 + (s[4] as int) * 0x100_0000
            + (s[5] as int) * 0x1_0000 + (s[6] as int) * 0x100 + s[7] as int
  {
    Prefix4(s);
    assert s[..6][..5] == s[..5] && s[..7][..6] == s[..6] && s[..5][..4] == s[..4];
    assert Decode(s[..5]) == Decode(s[..4]) * 256 + s[4] as int;
    assert Decode(s[..6]) == Decode(s[..5]) * 256 + s[5] as int;
    assert Decode(s[..7]) == Decode(s[..6]) * 256 + s[6] as int;
  }

  lemma Prefix4(s: seq<byte>)
    requires |s| >= 4
    ensures Decode(s[..4]) ==
            (s[0] as int) * 0x100_0000 + (s[1] as int) * 0x1_0000 + (s[2] as int) * 0x100 + s[3] as int
  {
    assert s[..4][..3] == s[..3] && s[..3][..2] == s[..2] && s[..2][..1] == s[..1] && s[..1][..0] == [];
    assert Decode(s[..1]) == s[0] as int;
    assert Decode(s[..2]) == Decode(s[..1]) * 256 + s[1] as int;
    assert Decode(s[..3]) == Decode(s[..2]) * 256 + s[2] as int;
  }

  lemma DecodeLast(s: seq<byte>, b: byte)
    ensures Decode(s + [b]) == Decode(s) * 256 + b
  {
    assert (s + [b])[..|s|] == s;
  }

  // One digit more in base 256.
  lemma Digit(n: nat, d: nat, p: nat)
    requires d < p && (d == n / 256 <==> n / 256 < p)
    ensures d * 256 + n % 256 < 256 * p
    ensures d * 256 + n % 256 == n <==> n < 256 * p
  {
  }

  lemma {:induction false} DecodeEncodeIff(n: nat, k: nat)
    ensures Decode(Encode(n, k)) == n <==> n < Pow256(k)
    ensures Decode(Encode(n, k)) < Pow256(k)
  {
    if k > 0 {
      DecodeEncodeIff(n / 256, k - 1);
      DecodeLast(Encode(n / 256, k - 1), n % 256);
      Digit(n, Decode(Encode(n / 256, k - 1)), Pow256(k - 1));
    }
  }

  // ---------------------------------------------------------------- bytes of a file

  // write at an offset inside the file or at its end.
  function WriteAt(file: seq<byte>, at: nat, bytes: seq<byte>): (f: seq<byte>)
    requires at <= |file|
    ensures |f| == if at + |bytes| > |file| then at + |bytes| else |file|
  {
    file[..at] + bytes + (if at + |bytes| < |file| then file[at + |bytes|..] else [])
  }

  lemma WriteKeeps(file: seq<byte>, at: nat, bytes: seq<byte>, lo: nat, hi: nat)
    requires at <= |file| && lo <= hi <= |file| && (hi <= at || at + |bytes| <= lo)
    ensures WriteAt(file, at, bytes)[lo..hi] == file[lo..hi]
  {
  }

  lemma WriteReads(file: seq<byte>, at: nat, bytes: seq<byte>)
    requires at <= |file|
    ensures WriteAt(file, at, bytes)[at..at + |bytes|] == bytes
  {
  }

  // Slot k of the body.
  predicate HasSlot(file: seq<byte>, k: nat) {
    PACKET * (k + 2) <= |file|
  }

  function Slot(file: seq<byte>, k: nat): (p: seq<byte>)
    requires HasSlot(file, k)
    ensures |p| == PACKET
  {
    file[PACKET * (k + 1)..PACKET * (k + 2)]
  }

  // ---------------------------------------------------------------- the wrapping body

  // The number of packet offsets in [PACKET, max).
  function Slots(max: nat): (n: nat)
    requires max >= 4 * PACKET
    ensures n >= 3 && PACKET * n < max <= PACKET * (n + 1)
  {
    (max - 1) / PACKET
  }

  // The slot i places before slot w, round the front of n slots.
  function Back(n: nat, w: nat, i: nat): int {
    if i <= w then w - i else w - i + n
  }

  function Ahead(n: nat, w: nat, i: nat): int {
    if w + i < n then w + i else w + i - n
  }

  // The slot of the packet stored i stores ago; n is 0 for a body that never wraps.
  function Place(n: nat, at: nat, i: nat): int {
    if n > 0 then Back(n, at, i) else at - i
  }

  // That packet is still in the file.
  predicate Kept(n: nat, history: seq<seq<byte>>, i: nat) {
    1 <= i <= |history| && (n > 0 ==> i <= n)
  }

  ghost predicate Holds(file: seq<byte>, n: nat, at: nat, history: seq<seq<byte>>, i: nat)
    requires Kept(n, history, i)
  {
    var k := Place(n, at, i);
    0 <= k && HasSlot(file, k) && Slot(file, k) == history[|history| - i]
  }

  ghost predicate HoldsAll(file: seq<byte>, n: nat, at: nat, history: seq<seq<byte>>) {
    forall i: nat :: Kept(n, history, i) ==> Holds(file, n, at, history, i)
  }

  // at is the slot of the next store; the body holds the last packets of the history.
  ghost predicate Layout(file: seq<byte>, n: nat, at: nat, history: seq<seq<byte>>) {
    && PACKET * (at + 1) <= |file|
    && (n > 0 ==> at < n)
    && HoldsAll(file, n, at, history)
  }

  function Following(n: nat, at: nat): nat {
    if at + 1 == n then 0 else at + 1
  }

  // Storing at slot at makes every packet one older and overwrites the oldest only.
  lemma LayoutStep(file: seq<byte>, n: nat, at: nat, start: nat, history: seq<seq<byte>>, packet: seq<byte>,
                   index: seq<byte>)
    requires Layout(file, n, at, history) && |packet| == PACKET && |index| == 8 && start == PACKET * (at + 1)
    ensures Layout(WriteAt(WriteAt(file, start, packet), 8, index), n, Following(n, at), history + [packet])
  {
    var f := WriteAt(WriteAt(file, start, packet), 8, index);
    forall i: nat | Kept(n, history + [packet], i)
      ensures Holds(f, n, Following(n, at), history + [packet], i)
    {
      if i > 1 {
        assert Kept(n, history, i - 1) && Holds(file, n, at, history, i - 1);
      }
      StoredSlot(file, at, packet, index, Place(n, Following(n, at), i));
    }
  }

  // A store leaves the header alone, but for the write index in it.
  lemma HeaderKept(file: seq<byte>, at: nat, packet: seq<byte>, index: seq<byte>)
    requires PACKET * (at + 1) <= |file| && |packet| == PACKET && |index| == 8
    ensures var f := WriteAt(WriteAt(file, PACKET * (at + 1), packet), 8, index);
            f[..8] == file[..8] && f[8..16] == index && f[16..PACKET] == file[16..PACKET]
  {
    var f := WriteAt(file, PACKET * (at + 1), packet);
    WriteKeeps(file, PACKET * (at + 1), packet, 0, 8);
    WriteKeeps(file, PACKET * (at + 1), packet, 16, PACKET);
    WriteKeeps(f, 8, index, 0, 8);
    WriteReads(f, 8, index);
    WriteKeeps(f, 8, index, 16, PACKET);
    assert f[..8] == f[0..8] && file[..8] == file[0..8];
    assert WriteAt(f, 8, index)[..8] == WriteAt(f, 8, index)[0..8];
  }

  // The number of slots of a body that wraps, else 0.
  function WrapOf(max: nat): nat {
    if max >= 4 * PACKET then Slots(max) else 0
  }

  // The write index wraps exactly with the slots.
  lemma NextIndex(max: nat, at: nat)
    requires max == 0 || max >= 4 * PACKET
    requires max > 0 ==> at < WrapOf(max)
    ensures var next := PACKET * (Following(WrapOf(max), at) + 1);
            && next == (if max != 0 && PACKET * (at + 1) + PACKET >= max then PACKET else PACKET * (at + 1) + PACKET)
            && (max > 0 ==> next < max)
  {
  }

  // Every store goes to a packet offset in the body, below the maximum size.
  ghost predicate Fit(file: seq<byte>, max: nat, index: nat, at: nat, history: seq<seq<byte>>) {
    && (max == 0 || max >= 4 * PACKET)
    && index == PACKET * (at + 1)
    && (max > 0 ==> index < max)
    && Layout(file, WrapOf(max), at, history)
  }

  lemma FitIff(file: seq<byte>, max: nat, index: nat, history: seq<seq<byte>>)
    requires (max == 0 || max >= 4 * PACKET) && index >= PACKET
    requires HoldsAll(file, WrapOf(max), index / PACKET - 1, history)
    ensures Fit(file, max, index, index / PACKET - 1, history)
            <==> index % PACKET == 0 && index <= |file| && (max > 0 ==> index < max)
  {
    OnPacket(index);
  }

  class Feed {
    const maxSize: nat                   // feed_max_size; zero means unlimited
    var file: seq<byte>
    var writeIndex: nat                  // feed_write_index
    var feedSize: nat                    // feed_size
    ghost var at: nat                    // the slot the next packet goes to
    ghost var history: seq<seq<byte>>    // packets stored since the feed was opened

    ghost function Wrap(): nat {
      WrapOf(maxSize)
    }

    ghost predicate Valid()
      reads this
    {
      Fit(file, maxSize, writeIndex, at, history)
    }

    // The header carries the write index.
    ghost predicate Recorded()
      reads this
    {
      |file| >= 16 && Decode(file[8..16]) == writeIndex
    }

    // http_start_receive_data.  The feed is fit for storing exactly when its file is
    // truncated or holds an index that some store could have left there.  held is what the
    // file is known to hold from before.
    constructor (file: seq<byte>, maxSize: nat, truncate: bool, ghost held: seq<seq<byte>>)
      requires |file| >= PACKET && (maxSize == 0 || maxSize >= 4 * PACKET)
      requires if truncate then held == [] else HoldsAll(file, WrapOf(maxSize), StartIndex(file) / PACKET - 1, held)
      ensures Valid() <==> truncate || Usable(file, maxSize)
      ensures history == held && this.maxSize == maxSize
      ensures truncate || Decode(file[8..16]) < 4096 ==> writeIndex == 4096
      ensures !truncate && Decode(file[8..16]) >= 4096 ==> writeIndex == Decode(file[8..16])
      ensures truncate || StartIndex(file) == Decode(file[8..16]) ==> Recorded()
      ensures this.file == if truncate then WriteAt(file, 8, Encode(PACKET, 8))[..PACKET] else file
    {
      this.maxSize := maxSize;
      var begun := if truncate then WriteAt(file, 8, Encode(PACKET, 8))[..PACKET] else file;
      var index := Decode(begun[8..16]);
      this.file := begun;
      writeIndex := if index > PACKET then index else PACKET;
      feedSize := |begun|;
      history := held;
      at := (if index > PACKET then index else PACKET) / PACKET - 1;
      TruncatedHeader(file);
      FitIff(begun, maxSize, if index > PACKET then index else PACKET, held);
    }

    // A feed closed and opened again, without truncation, goes on where it was: it holds all
    // packets it held, and the next store goes to the same slot.
    method Reopen() returns (feed: Feed)
      requires Valid() && Recorded()
      ensures fresh(feed) && feed.Valid() && feed.Recorded() && feed.maxSize == maxSize
      ensures feed.file == file && feed.writeIndex == writeIndex && feed.at == at && feed.history == history
    {
      assert StartIndex(file) == writeIndex;
      OnPacket(writeIndex);
      feed := new Feed(file, maxSize, false, history);
    }

    // The packet store of http_receive_data, when a whole packet is in the buffer.
    method Store(packet: seq<byte>)
      requires Valid() && |packet| == PACKET && writeIndex + PACKET < 0x1_0000_0000_0000_0000
      modifies this
      ensures Valid() && Recorded()
      ensures history == old(history) + [packet]
      ensures file == WriteAt(WriteAt(old(file), old(writeIndex), packet), 8, Encode(writeIndex, 8))
      ensures writeIndex ==
              if maxSize != 0 && old(writeIndex) + 4096 >= maxSize then 4096 else old(writeIndex) + 4096
    {
      StoreBytes(packet);
      LayoutStep(old(file), Wrap(), old(at), old(writeIndex), history, packet, Encode(writeIndex, 8));
      history := history + [packet];
    }

    // The writes of the store, and the index.
    method StoreBytes(packet: seq<byte>)
      requires (maxSize == 0 || maxSize >= 4 * PACKET) && (maxSize > 0 ==> at < Wrap())
      requires writeIndex == PACKET * (at + 1) <= |file|
      requires |packet| == PACKET && writeIndex + PACKET < 0x1_0000_0000_0000_0000
      modifies `file, `writeIndex, `feedSize, `at
      ensures at == Following(Wrap(), old(at)) && writeIndex == PACKET * (at + 1) && Recorded()
      ensures maxSize > 0 ==> writeIndex < maxSize
      ensures writeIndex ==
              if maxSize != 0 && old(writeIndex) + 4096 >= maxSize then 4096 else old(writeIndex) + 4096
      ensures file == WriteAt(WriteAt(old(file), old(writeIndex), packet), 8, Encode(writeIndex, 8))
    {
      file := WriteAt(file, writeIndex, packet);
      Advance();
      WriteWriteIndex();
    }

    // The write index after a store, round the end of a bounded file.
    method Advance()
      requires (maxSize == 0 || maxSize >= 4 * PACKET) && (maxSize > 0 ==> at < Wrap())
      requires writeIndex == PACKET * (at + 1)
      modifies `writeIndex, `feedSize, `at
      ensures at == Following(Wrap(), old(at)) && writeIndex == PACKET * (at + 1)
      ensures maxSize > 0 ==> writeIndex < maxSize
      ensures writeIndex ==
              if maxSize != 0 && old(writeIndex) + 4096 >= maxSize then 4096 else old(writeIndex) + 4096
    {
      NextIndex(maxSize, at);
      at := Following(Wrap(), at);
      writeIndex := writeIndex + PACKET;
      if writeIndex > feedSize {
        feedSize := writeIndex;
      }
      if maxSize != 0 && writeIndex >= maxSize {
        writeIndex := PACKET;
      }
    }

    // ffm_write_write_index
    method WriteWriteIndex()
      requires |file| >= 16 && writeIndex < 0x1_0000_0000_0000_0000
      modifies `file
      ensures file == WriteAt(old(file), 8, Encode(writeIndex, 8)) && Recorded()
    {
      WriteReads(file, 8, Encode(writeIndex, 8));
      IndexRoundTrip(writeIndex);
      file := WriteAt(file, 8, Encode(writeIndex, 8));
    }

    // How many packets are kept: all, or the last that the slots hold.
    ghost function KeptCount(): (m: nat)
      reads this
      ensures m <= |history| && (Wrap() > 0 ==> m <= Wrap()) && (m == |history| || m == Wrap() > 0)
    {
      if Wrap() > 0 && |history| > Wrap() then Wrap() else |history|
    }

    // Always, wrapped or not and wherever the feed began: from the slot of the oldest packet
    // kept, round the end, come the packets kept, oldest first.
    lemma ReadKept(i: nat)
      requires Valid() && i < KeptCount()
      ensures var m := KeptCount();
              var first := Place(Wrap(), at, m);
              0 <= first && (Wrap() > 0 ==> first < Wrap())
              && (var k := if Wrap() > 0 then Ahead(Wrap(), first, i) else first + i;
                  HasSlot(file, k) && Slot(file, k) == history[|history| - m..][i])
    {
      var m := KeptCount();
      assert Kept(Wrap(), history, m) && Holds(file, Wrap(), at, history, m);
      assert Kept(Wrap(), history, m - i) && Holds(file, Wrap(), at, history, m - i);
    }

    // Once wrapped, the slots from the write index round are the last packets, oldest first.
    lemma ReadRound(i: nat)
      requires Valid() && i < Wrap() <= |history|
      ensures var k := Ahead(Wrap(), at, i);
              HasSlot(file, k) && Slot(file, k) == history[|history| - Wrap()..][i]
    {
      assert Kept(Wrap(), history, Wrap() - i) && Holds(file, Wrap(), at, history, Wrap() - i);
    }

    // Until then, and for ever without a maximum, all packets are there in order.
    lemma ReadAll(first: nat, i: nat)
      requires Valid() && at == first + |history| && i < |history|
      ensures HasSlot(file, first + i) && Slot(file, first + i) == history[i]
    {
      assert Kept(Wrap(), history, |history| - i) && Holds(file, Wrap(), at, history, |history| - i);
    }
  }

  // The index found in a header, and the one the feed starts from.
  function StartIndex(file: seq<byte>): nat
    requires |file| >= 16
  {
    if Decode(file[8..16]) > PACKET then Decode(file[8..16]) else PACKET
  }

  // The file can be gone on with: its index is on a packet boundary, behind the header, within
  // the file and below the maximum.
  lemma UsableIff(file: seq<byte>, maxSize: nat)
    requires |file| >= 4096 && (maxSize == 0 || maxSize >= 4 * 4096)
    ensures var index := Decode(file[8..16]);
            Usable(file, maxSize) <==>
              index <= 4096 || (index % 4096 == 0 && index <= |file| && (maxSize > 0 ==> index < maxSize))
  {
  }

  predicate Usable(file: seq<byte>, maxSize: nat)
    requires |file| >= 16
  {
    StartIndex(file) % PACKET == 0 && StartIndex(file) <= |file| && (maxSize > 0 ==> StartIndex(file) < maxSize)
  }

  lemma OnPacket(n: nat)
    requires n >= PACKET
    ensures n == PACKET * (n / PACKET - 1 + 1) <==> n % PACKET == 0
  {
  }

  lemma TruncatedHeader(file: seq<byte>)
    requires |file| >= PACKET
    ensures var f := WriteAt(file, 8, Encode(PACKET, 8))[..PACKET];
            |f| == PACKET && Decode(f[8..16]) == PACKET
  {
    var f := WriteAt(file, 8, Encode(PACKET, 8));
    WriteReads(file, 8, Encode(PACKET, 8));
    assert f[..PACKET][8..16] == f[8..16];
    IndexRoundTrip(PACKET);
  }

  lemma IndexRoundTrip(n: nat)
    requires n < 0x1_0000_0000_0000_0000
    ensures Decode(Encode(n, 8)) == n
  {
    PowerOf8();
    DecodeEncodeIff(n, 8);
  }

  // The slots after a store at slot w.
  lemma StoredSlot(file: seq<byte>, w: nat, packet: seq<byte>, index: seq<byte>, k: int)
    requires |packet| == PACKET && |index| == 8 && PACKET * (w + 1) <= |file|
    requires k == w || (k >= 0 && HasSlot(file, k))
    ensures var f := WriteAt(WriteAt(file, PACKET * (w + 1), packet), 8, index);
            HasSlot(f, k) && Slot(f, k) == if k == w then packet else Slot(file, k)
  {
    var f := WriteAt(file, PACKET * (w + 1), packet);
    WriteReads(file, PACKET * (w + 1), packet);
    if k != w {
      WriteKeeps(file, PACKET * (w + 1), packet, PACKET * (k + 1), PACKET * (k + 2));
    }
    WriteKeeps(f, 8, index, PACKET * (k + 1), PACKET * (k + 2));
  }

  lemma PowerOf8()
    ensures Pow256(8) == 0x1_0000_0000_0000_0000
  {
    assert Pow256(4) == 0x1_0000_0000;
    assert Pow256(8) == 256 * 256 * 256 * 256 * Pow256(4);
  }
}
