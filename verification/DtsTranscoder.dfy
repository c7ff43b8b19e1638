// The DTS transcoder behind the S/PDIF ring: each encoded frame is packed in place, as many
// bytes as the frame had are written, and a write that finds no room is tried again.

module DtsTranscoder {
  import opened Bytes
  import opened SpdifRing
  import SpdifPack

  // What the encoder may give: the burst buffer holds it behind the preamble.
  type Frame = f: seq<byte> | |f| <= 6136

  // What became of a packed frame: into the ring, or dropped while output was off; and the
  // zero bursts of a pause.
  datatype Fate = Kept(frame: Frame) | Dropped(frame: Frame) | Silence(bursts: nat)

  // What the ring was given, unit by unit.
  function Units(fates: seq<Fate>): seq<seq<byte>> {
    if fates == [] then []
    else
      Units(fates[..|fates| - 1]) +
      match fates[|fates| - 1]
      case Kept(frame) => [SpdifPack.Sent(frame)]
      case Dropped(_) => []
      case Silence(bursts) => [Zeros(bursts * BURST)]
  }

  // The frames that met their fate.
  function Frames(fates: seq<Fate>): seq<Frame> {
    if fates == [] then []
    else
      var last := fates[|fates| - 1];
      Frames(fates[..|fates| - 1]) + (if last.Silence? then [] else [last.frame])
  }

  lemma KeptAdds(fates: seq<Fate>, frame: Frame)
    ensures Frames(fates + [Kept(frame)]) == Frames(fates) + [frame]
    ensures Flatten(Units(fates + [Kept(frame)])) == Flatten(Units(fates)) + SpdifPack.Sent(frame)
  {
    assert (fates + [Kept(frame)])[..|fates|] == fates;
    FlattenAdd(Units(fates), SpdifPack.Sent(frame));
  }

  lemma DroppedAdds(fates: seq<Fate>, frame: Frame)
    ensures Frames(fates + [Dropped(frame)]) == Frames(fates) + [frame]
    ensures Units(fates + [Dropped(frame)]) == Units(fates)
  {
    assert (fates + [Dropped(frame)])[..|fates|] == fates;
  }

  lemma SilenceAdds(fates: seq<Fate>, bursts: nat)
    ensures Frames(fates + [Silence(bursts)]) == Frames(fates)
    ensures Flatten(Units(fates + [Silence(bursts)])) == Flatten(Units(fates)) + Zeros(bursts * BURST)
  {
    assert (fates + [Silence(bursts)])[..|fates|] == fates;
    FlattenAdd(Units(fates), Zeros(bursts * BURST));
  }

  // The ring: before the first write or not, its bytes left to play, its switches.
  datatype Output = Output(size: nat, first: bool, level: nat, on: bool, i2s: bool) {
    predicate Low() {
      on && (size < 8192 || 0 < level < 4096)
    }
  }

  // The transcoder between two events.
  datatype Snap = Snap(ready: bool, frame: Frame, packed: seq<Frame>, fates: seq<Fate>, written: seq<byte>,
                       out: Output)

  // Every frame packed has met its fate once, in order, but for the one being retried; the
  // ring was given exactly what is sent of the kept ones, and the zero bursts.
  ghost predicate Accounted(s: Snap) {
    && s.packed == (if s.ready then Frames(s.fates) else Frames(s.fates) + [s.frame])
    && s.written == Flatten(Units(s.fates))
  }

  // A frame was written, the old one if it had to be retried; settled or not.
  predicate Written(a: Snap, encoded: Frame, enabled: bool, b: Snap) {
    && b.frame == (if a.ready then encoded else a.frame)
    && b.packed == (if a.ready then a.packed + [encoded] else a.packed)
    && b.fates == (if b.ready then a.fates + [if enabled then Kept(b.frame) else Dropped(b.frame)] else a.fates)
    && b.written == (if b.ready && enabled then a.written + SpdifPack.Sent(b.frame) else a.written)
  }

  // Bursts of zeros are written while I2S reads as on, until they fill a ring or have no room.
  predicate Stops(i2s: seq<bool>, n: nat, out: Output) {
    && n <= |i2s| && (forall k :: 0 <= k < n ==> i2s[k])
    && (n == |i2s| || !i2s[n] || n * BURST >= out.size || !(out.level > 0 && out.level + 2048 + 4096 <= out.size))
  }

  ghost predicate Silent(a: Snap, i2s: seq<bool>, b: Snap) {
    exists n: nat ::
      && Stops(i2s, n, b.out)
      && b == a.(fates := a.fates + [Silence(n)], written := a.written + Zeros(n * BURST), out := b.out)
  }

  // Whether the write of n bytes succeeds: the output is on if it was or I2S is; off, it
  // drops the frame; on, and not for the first time, the frame must fit with the slack.
  predicate Decided(ready: bool, n: nat, was: Output, on: bool) {
    && on == (was.on || was.i2s)
    && (!on ==> ready)
    && (on && !was.first && n > 0 ==> (ready <==> was.level > 0 && was.level + n + 4096 <= was.size))
  }

  // Once the first write is over, the bytes left to play grow by what is written.
  predicate Filled(a: Snap, b: Snap) {
    b.out.size == a.out.size && (!a.out.first ==> b.out.level == a.out.level + |b.written| - |a.written|)
  }

  class Transcoder {
    const ring: DmaRing
    const output: array<byte>       // the encoder's buffer, packed in place
    const burst: array<byte>        // iec958_buf
    var outputSize: nat
    var writeSuccess: bool          // write_success_flag
    ghost var frame: Frame          // the frame in the buffer
    ghost var packed: seq<Frame>
    ghost var fates: seq<Fate>

    ghost predicate Apart()
      reads this
    {
      && output.Length == burst.Length == SpdifPack.BURST
      && output != burst && output != ring.dma && burst != ring.dma
    }

    ghost function Snapped(): Snap
      reads this, ring
    {
      Snap(writeSuccess, frame, packed, fates, ring.written, Out())
    }

    ghost function Out(): Output
      reads this, ring
    {
      Output(ring.size, ring.firstWrite, ring.level, ring.enabled958, ring.enabledI2s)
    }

    // The buffer holds what is to be written of the frame.
    ghost predicate Loaded()
      reads this, output
    {
      outputSize == |frame| <= output.Length && output[..outputSize] == SpdifPack.Sent(frame)
    }

    ghost predicate Valid()
      reads this, ring, ring.dma, output
    {
      && Apart() && ring.Valid()
      && (!writeSuccess ==> Loaded())
    }

    constructor (ring: DmaRing)
      requires ring.Valid() && ring.written == []
      ensures Valid() && Accounted(Snapped()) && this.ring == ring && writeSuccess && packed == [] && fates == []
      ensures fresh(output) && fresh(burst)
    {
      this.ring := ring;
      output := new byte[SpdifPack.BURST](_ => 0);
      burst := new byte[SpdifPack.BURST](_ => 0);
      outputSize, writeSuccess, frame, packed, fates := 0, true, [], [], [];
    }

    // The encoder leaves a frame in the buffer, and iec958_pack_frame packs it there; the
    // length it returns is not used.
    method EncodeAndPack(encoded: Frame)
      requires Apart()
      modifies `outputSize, `frame, output, burst
      ensures Loaded() && frame == encoded
    {
      outputSize, frame := |encoded|, encoded;
      forall i | 0 <= i < |encoded| { output[i] := encoded[i]; }
      ghost var (all, before) := (output[..], burst[..]);
      assert output[..outputSize] == encoded;
      var length := SpdifPack.PackFrame(output, burst, outputSize, SpdifPack.Dts);
      PackedIsSent(encoded, before, burst[..], all, output[..]);
    }

    // dts_transenc_process_frame; encoded is what encoding gives, of PCM if there is some and
    // of silence if the ring runs low without it.
    method ProcessFrame(encoded: Frame, hasPcm: bool) returns (ret: int)
      requires Valid()
      modifies this, ring, ring.dma, output, burst
      ensures Valid() && ring.played == old(ring.played)
      ensures StaleKept(old(ring.firstWrite), old(ring.stale), old(ring.played))
      ensures ret == 1 || ret == -1
      ensures ret == -1 ==>
                && old(writeSuccess) && !hasPcm
                && Passes(old(Out()), Out()) && Snapped() == old(Snapped()).(out := Out())
      ensures old(writeSuccess) && !hasPcm ==>
                if old(ring.firstWrite) then ret == 1 ==> old(ring.enabled958) else ret == 1 <==> old(Out()).Low()
      ensures ret == 1 ==> Written(old(Snapped()), encoded, ring.enabled958, Snapped())
      ensures ret == 1 ==> Decided(writeSuccess, |frame|, old(Out()), ring.enabled958)
      ensures Filled(old(Snapped()), Snapped())
    {
      if writeSuccess {
        ret := ProcessNew(encoded, hasPcm);
      } else {
        WriteOutput();
        ret := 1;
      }
    }

    // The call with nothing to retry.
    method ProcessNew(encoded: Frame, hasPcm: bool) returns (ret: int)
      requires Valid() && writeSuccess
      modifies this, ring, ring.dma, output, burst
      ensures Valid() && ring.played == old(ring.played)
      ensures StaleKept(old(ring.firstWrite), old(ring.stale), old(ring.played))
      ensures ret == 1 || ret == -1
      ensures ret == -1 ==> !hasPcm && Passes(old(Out()), Out()) && Snapped() == old(Snapped()).(out := Out())
      ensures !hasPcm ==>
                if old(ring.firstWrite) then ret == 1 ==> old(ring.enabled958) else ret == 1 <==> old(Out()).Low()
      ensures ret == 1 ==> Written(old(Snapped()), encoded, ring.enabled958, Snapped())
      ensures ret == 1 ==> Decided(writeSuccess, |frame|, old(Out()), ring.enabled958)
      ensures Filled(old(Snapped()), Snapped())
    {
      var go := NextFrame(encoded, hasPcm);
      if !go {
        return -1;
      }
      WriteOutput();
      return 1;
    }

    // Its first part: a new frame, unless there is neither PCM nor a low ring.
    method NextFrame(encoded: Frame, hasPcm: bool) returns (go: bool)
      requires Valid() && writeSuccess
      modifies this, ring`wrOffset, ring`firstWrite, ring`level, ring`stale, output, burst
      ensures Valid() && fates == old(fates) && ring.written == old(ring.written)
      ensures if go then !writeSuccess && frame == encoded && packed == old(packed) + [encoded]
              else !hasPcm && Passes(old(Out()), Out()) && Snapped() == old(Snapped()).(out := Out())
      ensures if hasPcm then go else go == Out().Low()
      ensures hasPcm || !ring.enabled958 ==> Out() == old(Out())
      ensures StaleKept(old(ring.firstWrite), old(ring.stale), old(ring.played))
      ensures !old(ring.firstWrite) ==> ring.level == old(ring.level) && ring.wrOffset == old(ring.wrOffset)
    {
      if !hasPcm {
        var low := ring.CheckLevel();
        if !low {
          return false;
        }
      }
      EncodeAndPack(encoded);
      packed := packed + [encoded];
      writeSuccess := false;    // settled by the write that follows
      return true;
    }

    // The write of the buffer, and the flag.
    method WriteOutput()
      requires Valid() && !writeSuccess
      modifies `writeSuccess, `fates, ring, ring.dma
      ensures Valid() && ring.played == old(ring.played)
      ensures StaleKept(old(ring.firstWrite), old(ring.stale), old(ring.played))
      ensures fates ==
              if writeSuccess then old(fates) + [if ring.enabled958 then Kept(frame) else Dropped(frame)]
              else old(fates)
      ensures ring.written ==
              if writeSuccess && ring.enabled958 then old(ring.written) + SpdifPack.Sent(frame) else old(ring.written)
      ensures Decided(writeSuccess, |frame|, old(Out()), ring.enabled958)
      ensures Filled(old(Snapped()), Snapped())
    {
      var rv := WriteBuffer();
      if rv != -1 {
        writeSuccess := true;
        fates := fates + [if ring.enabled958 then Kept(frame) else Dropped(frame)];
      }
    }

    method WriteBuffer() returns (rv: int)
      requires Apart() && ring.Valid() && Loaded()
      modifies ring, ring.dma
      ensures Apart() && ring.Valid() && Loaded() && ring.played == old(ring.played)
      ensures StaleKept(old(ring.firstWrite), old(ring.stale), old(ring.played))
      ensures ring.written ==
              if rv != -1 && ring.enabled958 then old(ring.written) + SpdifPack.Sent(frame) else old(ring.written)
      ensures Decided(rv != -1, |frame|, old(Out()), ring.enabled958)
      ensures Filled(old(Snapped()), Snapped())
    {
      rv := ring.WriteFrame(output[..outputSize]);
    }

    // A paused turn of the loop: zero bursts, between frames; a frame being retried stays.
    method Pause(i2s: seq<bool>)
      requires Valid()
      modifies `fates, ring, ring.dma
      ensures Valid() && ring.played == old(ring.played)
      ensures StaleKept(old(ring.firstWrite), old(ring.stale), old(ring.played))
      ensures Silent(old(Snapped()), i2s, Snapped())
    {
      var bursts := ring.FillZero(i2s);
      fates := fates + [Silence(bursts)];
    }

    // Stale changes at the first write only, and then starts with what had been played.
    ghost predicate StaleKept(firstWrite: bool, stale: seq<byte>, played: seq<byte>)
      reads this, ring
    {
      if firstWrite then played <= ring.stale else ring.stale == stale && !ring.firstWrite
    }
  }

  // What packing leaves in the first bytes of the buffer.
  lemma PackedIsSent(frame: Frame, before: seq<byte>, burst: seq<byte>, all: seq<byte>, output: seq<byte>)
    requires |before| == |burst| == |all| == |output| == SpdifPack.BURST && all[..|frame|] == frame
    requires burst == SpdifPack.Burst(SpdifPack.Dts, frame, before)
    requires output[..2048] == SpdifPack.Interleaved(burst[..2048]) && output[2048..] == all[2048..]
    ensures output[..|frame|] == SpdifPack.Sent(frame)
  {
    assert burst == SpdifPack.Burst(SpdifPack.Dts, frame, Zeros(SpdifPack.BURST));
    assert output[..2048] == SpdifPack.DtsPacked(frame);
    if |frame| <= 2048 {
      assert output[..|frame|] == output[..2048][..|frame|];
    } else {
      assert output[..|frame|] == output[..2048] + output[2048..][..|frame| - 2048];
      assert all[2048..][..|frame| - 2048] == frame[2048..];
    }
  }

  datatype Event =
    | Process(encoded: Frame, hasPcm: bool)
    | Paused(states: seq<bool>)
    | Play(n: nat)
    | Switch(s958: bool, i2s: bool)

  // What an event makes of the transcoder.
  ghost predicate Follows(a: Snap, event: Event, b: Snap) {
    match event
    case Process(encoded, hasPcm) =>
      if a.ready && !hasPcm && b == a.(out := b.out) then Passes(a.out, b.out)
      else
        && (a.ready && !hasPcm ==> if a.out.first then a.out.on else a.out.Low())
        && Written(a, encoded, b.out.on, b) && Decided(b.ready, |b.frame|, a.out, b.out.on) && Filled(a, b)
    case Paused(states) => Silent(a, states, b)
    case Play(n) => b == a.(out := a.out.(level := a.out.level - Min(a.out.level, n)))
    case Switch(on, i2s) => b == a.(out := a.out.(on := on, i2s := i2s))
  }

  // Without PCM the call does nothing if the output is not low; asking may be the first use.
  predicate Passes(a: Output, b: Output) {
    !b.Low() && (b == a || (a.on && a.first && b == a.(first := false, level := b.level)))
  }

  lemma WrittenFollows(a: Snap, encoded: Frame, hasPcm: bool, b: Snap)
    requires a.ready && !hasPcm ==> if a.out.first then a.out.on else a.out.Low()
    requires Written(a, encoded, b.out.on, b) && Decided(b.ready, |b.frame|, a.out, b.out.on) && Filled(a, b)
    ensures Follows(a, Process(encoded, hasPcm), b)
  {
    if a.ready {
      assert |b.packed| == |a.packed| + 1;
    }
  }

  ghost predicate Traced(trace: seq<Snap>, events: seq<Event>) {
    |trace| == |events| + 1 && forall i :: 0 <= i < |events| ==> Follows(trace[i], events[i], trace[i + 1])
  }

  lemma TracedStep(trace: seq<Snap>, events: seq<Event>, event: Event, s: Snap)
    requires Traced(trace, events) && Follows(trace[|events|], event, s)
    ensures Traced(trace + [s], events + [event])
  {
    var (t, e) := (trace + [s], events + [event]);
    forall i | 0 <= i < |e|
      ensures Follows(t[i], e[i], t[i + 1])
    {
      assert i < |events| ==> Follows(trace[i], events[i], trace[i + 1]);
    }
  }

  lemma WrittenAccounted(a: Snap, encoded: Frame, enabled: bool, b: Snap)
    requires Accounted(a) && Written(a, encoded, enabled, b)
    ensures Accounted(b)
  {
    if b.ready {
      KeptAdds(a.fates, b.frame);
      DroppedAdds(a.fates, b.frame);
    }
  }

  lemma SilentAccounted(a: Snap, i2s: seq<bool>, b: Snap)
    requires Accounted(a) && Silent(a, i2s, b)
    ensures Accounted(b)
  {
    var n: nat :|
      && Stops(i2s, n, b.out)
      && b == a.(fates := a.fates + [Silence(n)], written := a.written + Zeros(n * BURST), out := b.out);
    SilenceAdds(a.fates, n);
  }

  lemma FollowsAccounted(a: Snap, event: Event, b: Snap)
    requires Accounted(a) && Follows(a, event, b)
    ensures Accounted(b)
  {
    match event
    case Process(encoded, _) =>
      if Written(a, encoded, b.out.on, b) {
        WrittenAccounted(a, encoded, b.out.on, b);
      }
    case Paused(states) => SilentAccounted(a, states, b);
    case _ =>
  }

  // Every event keeps the accounts, so every trace does.
  lemma {:induction false} TracedAccounted(trace: seq<Snap>, events: seq<Event>)
    requires Traced(trace, events) && Accounted(trace[0])
    ensures Accounted(trace[|events|])
  {
    if events != [] {
      var n := |events| - 1;
      TracedAccounted(trace[..n + 1], events[..n]);
      FollowsAccounted(trace[n], events[n], trace[n + 1]);
    }
  }

  // Over a trace the histories only grow.
  lemma {:induction false} TracedGrows(trace: seq<Snap>, events: seq<Event>)
    requires Traced(trace, events)
    ensures trace[0].packed <= trace[|events|].packed && trace[0].fates <= trace[|events|].fates
  {
    if events != [] {
      var n := |events| - 1;
      TracedGrows(trace[..n + 1], events[..n]);
      assert Follows(trace[n], events[n], trace[n + 1]);
    }
  }

  // A call packs a frame: it had nothing to retry and did not pass.
  predicate Packs(a: Snap, event: Event, b: Snap) {
    event.Process? && a.ready && (event.hasPcm || b != a.(out := b.out))
  }

  // The frames of the events of a trace that pack one.
  function Supplied(trace: seq<Snap>, events: seq<Event>): seq<Frame>
    requires |trace| == |events| + 1
  {
    if events == [] then []
    else
      var n := |events| - 1;
      Supplied(trace[..n + 1], events[..n]) +
      (if Packs(trace[n], events[n], trace[n + 1]) then [events[n].encoded] else [])
  }

  lemma SuppliedStep(a: Snap, event: Event, b: Snap)
    requires Follows(a, event, b)
    ensures b.packed == a.packed + (if Packs(a, event, b) then [event.encoded] else [])
  {
    assert a.packed + [] == a.packed;
  }

  lemma JoinRight<T>(a: seq<T>, b: seq<T>, c: seq<T>)
    ensures (a + b) + c == a + (b + c)
  {
  }

  // And the frames packed are exactly those supplied, in order.
  lemma {:induction false} PackedAreSupplied(trace: seq<Snap>, events: seq<Event>)
    requires Traced(trace, events)
    ensures trace[|events|].packed == trace[0].packed + Supplied(trace, events)
  {
    if events != [] {
      var n := |events| - 1;
      PackedAreSupplied(trace[..n + 1], events[..n]);
      SuppliedStep(trace[n], events[n], trace[n + 1]);
      var last := if Packs(trace[n], events[n], trace[n + 1]) then [events[n].encoded] else [];
      JoinRight(trace[0].packed, Supplied(trace[..n + 1], events[..n]), last);
    }
  }

  // Any schedule of the transcoder, its pauses, the hardware and the output switches: what
  // is played is the delay and then, whole and in order, what is sent of the kept frames
  // and the zero bursts of the pauses; the frames packed are those the events supplied.
  method Run(t: Transcoder, events: seq<Event>) returns (ghost trace: seq<Snap>)
    requires t.Valid() && Accounted(t.Snapped())
    modifies t, t.ring, t.ring.dma, t.output, t.burst
    ensures t.Valid() && Accounted(t.Snapped()) && old(t.ring.played) <= t.ring.played
    ensures t.ring.played <= t.ring.stale + Flatten(Units(t.fates))
    ensures Frames(t.fates) <= t.packed && |t.packed| <= |Frames(t.fates)| + 1
    ensures if old(t.ring.firstWrite) then old(t.ring.played) <= t.ring.stale else t.ring.stale == old(t.ring.stale)
    ensures Traced(trace, events) && trace[0] == old(t.Snapped()) && trace[|events|] == t.Snapped()
    ensures old(t.fates) <= t.fates && t.packed == old(t.packed) + Supplied(trace, events)
  {
    trace := RunAll(t, events);
    TracedGrows(trace, events);
    PackedAreSupplied(trace, events);
    TracedAccounted(trace, events);
  }

  method RunAll(t: Transcoder, events: seq<Event>) returns (ghost trace: seq<Snap>)
    requires t.Valid()
    modifies t, t.ring, t.ring.dma, t.output, t.burst
    ensures t.Valid() && old(t.ring.played) <= t.ring.played
    ensures t.StaleKept(old(t.ring.firstWrite), old(t.ring.stale), old(t.ring.played))
    ensures Traced(trace, events) && trace[0] == old(t.Snapped()) && trace[|events|] == t.Snapped()
  {
    trace := [t.Snapped()];
    for i := 0 to |events|
      invariant t.Valid() && old(t.ring.played) <= t.ring.played
      invariant t.StaleKept(old(t.ring.firstWrite), old(t.ring.stale), old(t.ring.played))
      invariant Traced(trace, events[..i]) && trace[0] == old(t.Snapped()) && trace[i] == t.Snapped()
    {
      assert events[..i + 1] == events[..i] + [events[i]];
      trace := StepTraced(t, events[i], trace, events[..i]);
    }
    assert events[..|events|] == events;
  }

  // One event more of a trace.
  method StepTraced(t: Transcoder, event: Event, ghost trace: seq<Snap>, ghost before: seq<Event>)
    returns (ghost trace': seq<Snap>)
    requires t.Valid() && Traced(trace, before) && trace[|before|] == t.Snapped()
    modifies t, t.ring, t.ring.dma, t.output, t.burst
    ensures t.Valid() && old(t.ring.played) <= t.ring.played
    ensures t.StaleKept(old(t.ring.firstWrite), old(t.ring.stale), old(t.ring.played))
    ensures Traced(trace', before + [event]) && trace' == trace + [t.Snapped()]
  {
    Step(t, event);
    TracedStep(trace, before, event, t.Snapped());
    trace' := trace + [t.Snapped()];
  }

  method Call(t: Transcoder, encoded: Frame, hasPcm: bool)
    requires t.Valid()
    modifies t, t.ring, t.ring.dma, t.output, t.burst
    ensures t.Valid() && t.ring.played == old(t.ring.played)
    ensures t.StaleKept(old(t.ring.firstWrite), old(t.ring.stale), old(t.ring.played))
    ensures Follows(old(t.Snapped()), Process(encoded, hasPcm), t.Snapped())
  {
    ghost var a := t.Snapped();
    var ret := t.ProcessFrame(encoded, hasPcm);
    if ret == 1 {
      WrittenFollows(a, encoded, hasPcm, t.Snapped());
    }
  }

  method Step(t: Transcoder, event: Event)
    requires t.Valid()
    modifies t, t.ring, t.ring.dma, t.output, t.burst
    ensures t.Valid() && old(t.ring.played) <= t.ring.played
    ensures t.StaleKept(old(t.ring.firstWrite), old(t.ring.stale), old(t.ring.played))
    ensures Follows(old(t.Snapped()), event, t.Snapped())
  {
    match event
    case Process(encoded, hasPcm) =>
      Call(t, encoded, hasPcm);
    case Paused(states) =>
      t.Pause(states);
    case Play(n) =>
      t.ring.HwRead(Min(t.ring.level, n));
    case Switch(s958, i2s) =>
      t.ring.SetStatus(s958, i2s);
  }
}
