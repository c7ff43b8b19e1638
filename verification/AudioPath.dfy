// The audio path: one thread cuts the bitstream into packages, one decodes them
// with the undecoded tail carried over and pushes PCM into the ring, one drains
// the ring.  The threads are modelled by their steps, taken in any order.

module AudioPath {
  import opened Bytes
  import opened PcmRing
  import PackageList

  // pRestData: never set, holding a tail, or freed and not reset.
  datatype Rest = Unset | Live(bytes: seq<byte>) | Freed

  // Where the decoding thread stands.
  datatype Phase = Waiting | Decoding | NeedSpace | Writing

  // ape is the format whose failures drop the tail; capacity is buf_length.
  datatype Config = Config(capacity: nat, ape: bool)

  datatype State = State(
    // reading thread: the package being filled and the bytes it still wants
    filling: seq<byte>, want: nat,
    // pack_list
    queue: seq<seq<byte>>,
    // decoding thread
    phase: Phase, inbuf: seq<byte>, declen: nat, inlen: nat, rest: Rest,
    decodeOffset: nat, outbuf: seq<byte>, outlen: int, pcmCacheSize: int,
    // the ring
    ring: seq<byte>,
    // histories: bitstream read, bitstream decoded, PCM decoded, PCM handed out
    read: seq<byte>, consumed: seq<byte>, decoded: seq<byte>, handed: seq<byte>)

  datatype Event =
    | ReadBytes(bytes: seq<byte>)              // read_buffer
    | AddPackage(busy: bool, nextSize: nat)    // package_add, then the size of the next package
    | GetPackage(busy: bool)                   // package_get
    | DecodeOk(dlen: nat, pcm: seq<byte>)      // decode returned dlen > 0
    | DecodeFailed                             // decode returned dlen <= 0
    | CheckSpace                               // the test of buf_length - buf_level
    | WritePcm(busy: bool)                     // write_pcm_buffer
    | ReadPcm(busy: bool, size: nat)           // armdec_stream_read

  function Start(firstSize: nat): State {
    State([], firstSize, [], Waiting, [], 0, 0, Unset, 0, [], 0, 0, [], [], [], [], [])
  }

  predicate Enabled(s: State, e: Event) {
    match e
    case ReadBytes(bytes) => |bytes| <= s.want
    case AddPackage(_, _) => s.want == 0
    case GetPackage(_) => s.phase == Waiting
    case DecodeOk(dlen, _) => s.phase == Decoding && 1 <= dlen <= s.inlen
    case DecodeFailed => s.phase == Decoding
    case CheckSpace => s.phase == NeedSpace
    case WritePcm(_) => s.phase == Writing
    case ReadPcm(_, _) => true
  }

  // The top of the decoding loop: done with the package, or one more decode.
  function LoopHead(s: State): State {
    s.(phase := if s.declen < |s.inbuf| then Decoding else Waiting)
  }

  // The tail that the next package is appended to.
  function Carried(s: State): seq<byte> {
    if s.inlen > 0 && s.rest.Live? then s.rest.bytes else []
  }

  function Next(cfg: Config, s: State, e: Event): State
    requires |s.ring| <= cfg.capacity
  {
    if !Enabled(s, e) then s
    else
      match e
      case ReadBytes(bytes) =>
        s.(filling := s.filling + bytes, want := s.want - |bytes|, read := s.read + bytes)
      case AddPackage(busy, nextSize) =>
        if PackageList.Accepts(s.queue, busy) then
          s.(queue := PackageList.Added(s.queue, busy, s.filling), filling := [], want := nextSize)
        else s
      case GetPackage(busy) =>
        if PackageList.Gives(s.queue, busy) then
          var inbuf := Carried(s) + s.queue[0];
          LoopHead(s.(queue := PackageList.Removed(s.queue, busy), inbuf := inbuf, inlen := |inbuf|, declen := 0,
                      rest := if s.inlen > 0 && s.rest != Unset then Freed else s.rest))
        else s
      case DecodeOk(dlen, pcm) =>
        s.(declen := s.declen + dlen, inlen := s.inlen - dlen, decodeOffset := s.decodeOffset + dlen,
           consumed := s.consumed + Chunk(s, dlen),
           outbuf := pcm, outlen := |pcm|, pcmCacheSize := |pcm|, decoded := s.decoded + pcm, phase := NeedSpace)
      case DecodeFailed =>
        if cfg.ape then s.(inlen := 0, phase := Waiting)
        else if s.inlen > 0 then s.(rest := Live(Chunk(s, s.inlen)), phase := Waiting)
        else s.(phase := Waiting)
      case CheckSpace =>
        if cfg.capacity - |s.ring| < s.outlen then s
        else if s.outlen != 0 then s.(phase := Writing)
        else LoopHead(s)
      case WritePcm(busy) =>
        var offered := if busy then [] else FirstBytes(s.outbuf, s.outlen);
        var ring := Put(s.ring, cfg.capacity, offered);
        var wlen := |ring| - |s.ring|;
        var s' := s.(ring := ring, outlen := s.outlen - wlen, pcmCacheSize := s.pcmCacheSize - wlen);
        if s'.outlen != 0 then s' else LoopHead(s')
      case ReadPcm(busy, size) =>
        var n := if busy then 0 else size;
        s.(ring := Left(s.ring, n), handed := s.handed + Got(s.ring, n))
  }

  // n bytes of the input buffer from the decode position.
  function Chunk(s: State, n: nat): seq<byte> {
    if s.declen + n <= |s.inbuf| then s.inbuf[s.declen..s.declen + n] else []
  }

  // outbuf is passed from its start on every write.
  function FirstBytes(outbuf: seq<byte>, outlen: int): seq<byte> {
    if 0 <= outlen <= |outbuf| then outbuf[..outlen] else []
  }

  // ---------------------------------------------------------------- what every state keeps

  // The bytes taken from the list and not yet decoded.
  function Tail(s: State): seq<byte> {
    if s.phase == Waiting then Carried(s) else Chunk(s, s.inlen)
  }

  // The bitstream the threads still account for: decoded, tail, queued, being filled.
  function Held(s: State): seq<byte> {
    s.consumed + Tail(s) + Flatten(s.queue) + s.filling
  }

  // PCM decoded and not yet in the ring.
  function Pending(s: State): seq<byte> {
    if s.phase == NeedSpace || s.phase == Writing then s.outbuf else []
  }

  // The decoding thread's own bookkeeping; rest is live whenever it will be read.
  ghost predicate DecoderOk(cfg: Config, s: State) {
    && |s.ring| <= cfg.capacity
    && |s.queue| <= PackageList.LIMIT
    && (s.phase == Waiting ==> s.inlen == 0 || (s.rest.Live? && |s.rest.bytes| == s.inlen))
    && (s.phase != Waiting ==> s.declen + s.inlen == |s.inbuf|)
    && (s.phase == Decoding ==> s.inlen > 0)
    && (s.phase == NeedSpace ==> s.outlen == |s.outbuf|)
    && (s.phase == Writing ==> s.outlen == |s.outbuf| > 0 && |s.ring| + s.outlen <= cfg.capacity)
  }

  ghost predicate BitstreamOk(s: State) {
    s.read == Held(s) && s.decodeOffset == |s.consumed|
  }

  // The PCM: handed out, in the ring, in outbuf.
  ghost predicate PcmOk(s: State) {
    && s.decoded == s.handed + s.ring + Pending(s)
    && s.pcmCacheSize == |Pending(s)|
  }

  lemma NextKeepsDecoder(cfg: Config, s: State, e: Event)
    requires DecoderOk(cfg, s)
    ensures DecoderOk(cfg, Next(cfg, s, e))
  {
  }

  // ---------------------------------------------------------------- the bitstream, step by step

  // A decode failure that throws the tail away.
  predicate Drops(cfg: Config, s: State, e: Event) {
    cfg.ape && e.DecodeFailed? && s.phase == Decoding
  }

  // The bytes a step reads from the bitstream.
  function Arriving(s: State, e: Event): seq<byte> {
    if e.ReadBytes? && Enabled(s, e) then e.bytes else []
  }

  lemma TakeOrder(front: seq<byte>, carried: seq<byte>, q: seq<seq<byte>>, filling: seq<byte>)
    requires q != []
    ensures front + carried + Flatten(q) + filling == front + (carried + q[0]) + Flatten(q[1..]) + filling
  {
    var (first, rest) := (q[0], Flatten(q[1..]));
    assert front + carried + (first + rest) == front + (carried + first) + rest;
  }

  lemma DecodeOrder(front: seq<byte>, chunk: seq<byte>, tail: seq<byte>, back: seq<byte>, filling: seq<byte>)
    ensures front + (chunk + tail) + back + filling == (front + chunk) + tail + back + filling
  {
    assert front + (chunk + tail) == (front + chunk) + tail;
  }

  lemma AddOrder(front: seq<byte>, q: seq<seq<byte>>, filling: seq<byte>)
    ensures front + Flatten(q) + filling == front + Flatten(q + [filling]) + []
  {
    FlattenAdd(q, filling);
    assert front + Flatten(q) + filling == front + (Flatten(q) + filling);
  }

  lemma ChunkSplits(s: State, n: nat, m: nat)
    requires s.declen + n + m == |s.inbuf|
    ensures Chunk(s, n + m) == Chunk(s, n) + s.inbuf[s.declen + n..]
  {
  }

  lemma GetKeepsHeld(cfg: Config, s: State, busy: bool)
    requires DecoderOk(cfg, s) && s.phase == Waiting
    ensures Held(Next(cfg, s, GetPackage(busy))) == Held(s)
  {
    if PackageList.Gives(s.queue, busy) {
      var s' := Next(cfg, s, GetPackage(busy));
      TakeOrder(s.consumed, Carried(s), s.queue, s.filling);
      assert Tail(s') == Carried(s) + s.queue[0];
    }
  }

  lemma DecodeKeepsHeld(cfg: Config, s: State, dlen: nat, pcm: seq<byte>)
    requires DecoderOk(cfg, s) && s.phase == Decoding && 1 <= dlen <= s.inlen
    ensures Held(Next(cfg, s, DecodeOk(dlen, pcm))) == Held(s)
  {
    var s' := Next(cfg, s, DecodeOk(dlen, pcm));
    ChunkSplits(s, dlen, s.inlen - dlen);
    assert Tail(s') == s.inbuf[s.declen + dlen..];
    DecodeOrder(s.consumed, Chunk(s, dlen), Tail(s'), Flatten(s.queue), s.filling);
  }

  // A failed decode keeps the tail for the next package, or drops it.
  lemma FailureHeld(cfg: Config, s: State)
    requires DecoderOk(cfg, s) && s.phase == Decoding
    ensures var s' := Next(cfg, s, DecodeFailed);
            if cfg.ape then |Held(s')| == |Held(s)| - s.inlen else Held(s') == Held(s)
  {
    var s' := Next(cfg, s, DecodeFailed);
    assert s'.consumed == s.consumed && s'.queue == s.queue && s'.filling == s.filling;
    assert Tail(s') == if cfg.ape then [] else Tail(s);
  }

  // Steps on the PCM side leave the bitstream side as it is.
  lemma PcmStepsKeepHeld(cfg: Config, s: State, e: Event)
    requires DecoderOk(cfg, s)
    requires e.CheckSpace? || e.WritePcm? || e.ReadPcm?
    ensures var s' := Next(cfg, s, e);
            && s'.read == s.read && s'.decodeOffset == s.decodeOffset && s'.consumed == s.consumed
            && Held(s') == Held(s)
  {
    var s' := Next(cfg, s, e);
    assert s'.consumed == s.consumed && s'.queue == s.queue && s'.filling == s.filling;
    assert Tail(s') == Tail(s);
  }

  lemma ReadHeld(cfg: Config, s: State, bytes: seq<byte>)
    requires DecoderOk(cfg, s) && |bytes| <= s.want
    ensures Held(Next(cfg, s, ReadBytes(bytes))) == Held(s) + bytes
  {
    var s' := Next(cfg, s, ReadBytes(bytes));
    var front := s.consumed + Tail(s) + Flatten(s.queue);
    assert s'.consumed + Tail(s') + Flatten(s'.queue) == front;
    assert front + (s.filling + bytes) == (front + s.filling) + bytes;
  }

  lemma AddKeepsHeld(cfg: Config, s: State, busy: bool, nextSize: nat)
    requires DecoderOk(cfg, s)
    ensures Held(Next(cfg, s, AddPackage(busy, nextSize))) == Held(s)
  {
    var s' := Next(cfg, s, AddPackage(busy, nextSize));
    var front := s.consumed + Tail(s);
    assert s'.consumed + Tail(s') == front;
    AddOrder(front, s.queue, s.filling);
  }

  // What a step makes of the bytes accounted for: what is read joins at the end, a
  // failed APE decode drops the tail, and nothing else changes.
  lemma NextHeld(cfg: Config, s: State, e: Event)
    requires DecoderOk(cfg, s)
    ensures Drops(cfg, s, e) ==> |Held(Next(cfg, s, e))| == |Held(s)| - s.inlen
    ensures !Drops(cfg, s, e) ==> Held(Next(cfg, s, e)) == Held(s) + Arriving(s, e)
  {
    if !Enabled(s, e) {
      assert Next(cfg, s, e) == s;
    } else if e.ReadBytes? {
      ReadHeld(cfg, s, e.bytes);
    } else {
      StepHeld(cfg, s, e);
    }
  }

  lemma StepHeld(cfg: Config, s: State, e: Event)
    requires DecoderOk(cfg, s) && Enabled(s, e) && !e.ReadBytes?
    ensures if Drops(cfg, s, e) then |Held(Next(cfg, s, e))| == |Held(s)| - s.inlen
            else Held(Next(cfg, s, e)) == Held(s)
  {
    if e.AddPackage? {
      AddKeepsHeld(cfg, s, e.busy, e.nextSize);
    } else if e.GetPackage? {
      GetKeepsHeld(cfg, s, e.busy);
    } else if e.DecodeOk? {
      DecodeKeepsHeld(cfg, s, e.dlen, e.pcm);
    } else if e.DecodeFailed? {
      FailureHeld(cfg, s);
    } else {
      PcmStepsKeepHeld(cfg, s, e);
    }
  }

  lemma NextReads(cfg: Config, s: State, e: Event)
    requires DecoderOk(cfg, s)
    ensures Next(cfg, s, e).read == s.read + Arriving(s, e)
    ensures s.decodeOffset == |s.consumed| ==> Next(cfg, s, e).decodeOffset == |Next(cfg, s, e).consumed|
  {
  }

  // A step keeps the bitstream in order exactly when it is not an APE failure.
  lemma NextKeepsBitstream(cfg: Config, s: State, e: Event)
    requires DecoderOk(cfg, s) && BitstreamOk(s)
    ensures BitstreamOk(Next(cfg, s, e)) <==> !Drops(cfg, s, e)
  {
    NextHeld(cfg, s, e);
    NextReads(cfg, s, e);
    if Drops(cfg, s, e) {
      assert |Held(Next(cfg, s, e))| < |Next(cfg, s, e).read|;
    }
  }

  // ---------------------------------------------------------------- the PCM, step by step

  lemma WriteKeepsPcm(cfg: Config, s: State)
    requires DecoderOk(cfg, s) && PcmOk(s) && s.phase == Writing
    ensures PcmOk(Next(cfg, s, WritePcm(false)))
  {
    assert s.outbuf[..s.outlen] == s.outbuf;
    assert s.handed + (s.ring + s.outbuf) == s.handed + s.ring + s.outbuf;
  }

  lemma ReadKeepsPcm(cfg: Config, s: State, busy: bool, size: nat)
    requires DecoderOk(cfg, s) && PcmOk(s)
    ensures PcmOk(Next(cfg, s, ReadPcm(busy, size)))
  {
    var s' := Next(cfg, s, ReadPcm(busy, size));
    ReadMoves(s.handed, s.ring, if busy then 0 else size);
    assert s'.handed + s'.ring == s.handed + s.ring;
    assert Pending(s') == Pending(s);
  }

  lemma ReadMoves(handed: seq<byte>, ring: seq<byte>, n: nat)
    ensures (handed + Got(ring, n)) + Left(ring, n) == handed + ring
  {
  }

  lemma NextKeepsPcm(cfg: Config, s: State, e: Event)
    requires DecoderOk(cfg, s) && PcmOk(s)
    ensures PcmOk(Next(cfg, s, e))
  {
    match e
    case ReadPcm(busy, size) =>
      ReadKeepsPcm(cfg, s, busy, size);
    case WritePcm(busy) =>
      if s.phase == Writing && !busy {
        WriteKeepsPcm(cfg, s);
      }
    case _ =>
  }

  // ---------------------------------------------------------------- every run

  function Run(cfg: Config, s: State, events: seq<Event>): (s': State)
    requires |s.ring| <= cfg.capacity
    ensures |s'.ring| <= cfg.capacity
  {
    if events == [] then s
    else Next(cfg, Run(cfg, s, events[..|events| - 1]), events[|events| - 1])
  }

  lemma {:induction false} RunKeepsDecoder(cfg: Config, firstSize: nat, events: seq<Event>)
    ensures DecoderOk(cfg, Run(cfg, Start(firstSize), events))
  {
    if events != [] {
      var n := |events| - 1;
      RunKeepsDecoder(cfg, firstSize, events[..n]);
      NextKeepsDecoder(cfg, Run(cfg, Start(firstSize), events[..n]), events[n]);
    }
  }

  // ---------------------------------------------------------------- the pipeline behind it

  // What the threads pass on, without the cursors, lengths and buffers they pass it on with.
  datatype Pipeline = Pipeline(
    filling: seq<byte>, want: nat, queue: seq<seq<byte>>, phase: Phase, tail: seq<byte>, consumed: seq<byte>,
    pending: seq<byte>, ring: seq<byte>, handed: seq<byte>)

  function PipelineOf(s: State): Pipeline {
    Pipeline(s.filling, s.want, s.queue, s.phase, Tail(s), s.consumed, Pending(s), s.ring, s.handed)
  }

  // The decoding thread goes on with what is left of the tail, or waits for a package.
  function Turn(tail: seq<byte>): Phase {
    if tail == [] then Waiting else Decoding
  }

  // What an event moves: from the front of each stage to the end of the next.
  function Flow(cfg: Config, a: Pipeline, e: Event): Pipeline {
    match e
    case ReadBytes(bytes) =>
      if |bytes| <= a.want then a.(filling := a.filling + bytes, want := a.want - |bytes|) else a
    case AddPackage(busy, nextSize) =>
      if a.want == 0 && !busy && |a.queue| < 4 then
        a.(filling := [], want := nextSize, queue := a.queue + [a.filling])
      else a
    case GetPackage(busy) =>
      if a.phase == Waiting && !busy && a.queue != [] then
        a.(queue := a.queue[1..], tail := a.tail + a.queue[0], phase := Turn(a.tail + a.queue[0]))
      else a
    case DecodeOk(dlen, pcm) =>
      if a.phase == Decoding && 1 <= dlen <= |a.tail| then
        a.(consumed := a.consumed + a.tail[..dlen], tail := a.tail[dlen..], pending := pcm, phase := NeedSpace)
      else a
    case DecodeFailed =>
      if a.phase == Decoding then a.(tail := if cfg.ape then [] else a.tail, phase := Waiting) else a
    case CheckSpace =>
      if a.phase == NeedSpace && |a.ring| + |a.pending| <= cfg.capacity then
        a.(phase := if a.pending != [] then Writing else Turn(a.tail))
      else a
    case WritePcm(busy) =>
      if a.phase == Writing && !busy then
        a.(pending := [], ring := a.ring + a.pending, phase := Turn(a.tail))
      else a
    case ReadPcm(busy, size) =>
      if !busy && size < |a.ring| then a.(ring := a.ring[size..], handed := a.handed + a.ring[..size])
      else if !busy then a.(ring := [], handed := a.handed + a.ring)
      else a
  }

  lemma GetFlows(cfg: Config, s: State, busy: bool)
    requires DecoderOk(cfg, s)
    ensures PipelineOf(Next(cfg, s, GetPackage(busy))) == Flow(cfg, PipelineOf(s), GetPackage(busy))
  {
    if s.phase == Waiting && PackageList.Gives(s.queue, busy) {
      assert Tail(Next(cfg, s, GetPackage(busy))) == Carried(s) + s.queue[0];
    }
  }

  lemma DecodeFlows(cfg: Config, s: State, dlen: nat, pcm: seq<byte>)
    requires DecoderOk(cfg, s)
    ensures PipelineOf(Next(cfg, s, DecodeOk(dlen, pcm))) == Flow(cfg, PipelineOf(s), DecodeOk(dlen, pcm))
  {
    if s.phase == Decoding && 1 <= dlen <= s.inlen {
      ChunkSplits(s, dlen, s.inlen - dlen);
      var s' := Next(cfg, s, DecodeOk(dlen, pcm));
      assert Tail(s)[..dlen] == Chunk(s, dlen) && Tail(s)[dlen..] == Tail(s');
    }
  }

  lemma FailureFlows(cfg: Config, s: State)
    requires DecoderOk(cfg, s)
    ensures PipelineOf(Next(cfg, s, DecodeFailed)) == Flow(cfg, PipelineOf(s), DecodeFailed)
  {
    if s.phase == Decoding {
      assert Tail(Next(cfg, s, DecodeFailed)) == if cfg.ape then [] else Tail(s);
    }
  }

  lemma SpaceFlows(cfg: Config, s: State)
    requires DecoderOk(cfg, s)
    ensures PipelineOf(Next(cfg, s, CheckSpace)) == Flow(cfg, PipelineOf(s), CheckSpace)
  {
    if s.phase == NeedSpace {
      assert Tail(s) == [] <==> s.declen == |s.inbuf|;
      assert Tail(Next(cfg, s, CheckSpace)) == Tail(s);
    }
  }

  lemma WriteFlows(cfg: Config, s: State, busy: bool)
    requires DecoderOk(cfg, s)
    ensures PipelineOf(Next(cfg, s, WritePcm(busy))) == Flow(cfg, PipelineOf(s), WritePcm(busy))
  {
    if s.phase == Writing {
      assert s.outbuf[..s.outlen] == s.outbuf;
      assert Tail(s) == [] <==> s.declen == |s.inbuf|;
      assert Tail(Next(cfg, s, WritePcm(busy))) == Tail(s);
    }
  }

  lemma ReadFlows(cfg: Config, s: State, busy: bool, size: nat)
    requires DecoderOk(cfg, s)
    ensures PipelineOf(Next(cfg, s, ReadPcm(busy, size))) == Flow(cfg, PipelineOf(s), ReadPcm(busy, size))
  {
    var n := if busy then 0 else size;
    assert Left(s.ring, n) == if n < |s.ring| then s.ring[n..] else [];
    assert busy ==> s.handed + Got(s.ring, n) == s.handed;
    assert Tail(Next(cfg, s, ReadPcm(busy, size))) == Tail(s);
  }

  // Every step is one of the pipeline's.
  lemma NextFlows(cfg: Config, s: State, e: Event)
    requires DecoderOk(cfg, s)
    ensures PipelineOf(Next(cfg, s, e)) == Flow(cfg, PipelineOf(s), e)
  {
    match e
    case ReadBytes(_) =>
    case AddPackage(_, _) =>
    case GetPackage(busy) => GetFlows(cfg, s, busy);
    case DecodeOk(dlen, pcm) => DecodeFlows(cfg, s, dlen, pcm);
    case DecodeFailed => FailureFlows(cfg, s);
    case CheckSpace => SpaceFlows(cfg, s);
    case WritePcm(busy) => WriteFlows(cfg, s, busy);
    case ReadPcm(busy, size) => ReadFlows(cfg, s, busy, size);
  }

  function FlowRun(cfg: Config, a: Pipeline, events: seq<Event>): Pipeline {
    if events == [] then a else Flow(cfg, FlowRun(cfg, a, events[..|events| - 1]), events[|events| - 1])
  }

  // So the threads do what the pipeline does, in every interleaving.
  lemma {:induction false} RunFlows(cfg: Config, firstSize: nat, events: seq<Event>)
    ensures PipelineOf(Run(cfg, Start(firstSize), events))
            == FlowRun(cfg, Pipeline([], firstSize, [], Waiting, [], [], [], [], []), events)
  {
    if events != [] {
      var n := |events| - 1;
      RunFlows(cfg, firstSize, events[..n]);
      RunKeepsDecoder(cfg, firstSize, events[..n]);
      NextFlows(cfg, Run(cfg, Start(firstSize), events[..n]), events[n]);
    }
  }

  // Some decode of the run failed.
  predicate Failed(cfg: Config, firstSize: nat, events: seq<Event>) {
    events != []
    && (var n := |events| - 1;
        || Failed(cfg, firstSize, events[..n])
        || (events[n].DecodeFailed? && Run(cfg, Start(firstSize), events[..n]).phase == Decoding))
  }

  // The bytes that failed APE decodes have thrown away.
  function Lost(cfg: Config, firstSize: nat, events: seq<Event>): nat {
    if events == [] then 0
    else
      var n := |events| - 1;
      var s := Run(cfg, Start(firstSize), events[..n]);
      Lost(cfg, firstSize, events[..n]) + (if Drops(cfg, s, events[n]) then s.inlen else 0)
  }

  // In every interleaving and for every format: of the bytes read exactly those of failed
  // APE decodes are missing, decode_offset counts the bytes decoded, and at most 4
  // packages are queued.
  lemma {:induction false} BytesAccounted(cfg: Config, firstSize: nat, events: seq<Event>)
    ensures var s := Run(cfg, Start(firstSize), events);
            && |s.read| == |Held(s)| + Lost(cfg, firstSize, events)
            && s.decodeOffset == |s.consumed| && |s.queue| <= 4
  {
    RunKeepsDecoder(cfg, firstSize, events);
    if events != [] {
      var n := |events| - 1;
      var s := Run(cfg, Start(firstSize), events[..n]);
      BytesAccounted(cfg, firstSize, events[..n]);
      RunKeepsDecoder(cfg, firstSize, events[..n]);
      NextHeld(cfg, s, events[n]);
      NextReads(cfg, s, events[n]);
    }
  }

  lemma {:induction false} LostIff(cfg: Config, firstSize: nat, events: seq<Event>)
    ensures Lost(cfg, firstSize, events) > 0 <==> cfg.ape && Failed(cfg, firstSize, events)
  {
    if events != [] {
      LostIff(cfg, firstSize, events[..|events| - 1]);
      RunKeepsDecoder(cfg, firstSize, events[..|events| - 1]);
    }
  }

  // Without such a failure, what was read is the bytes decoded, the live tail, the queued
  // packages and the package being filled, in that order.
  lemma {:induction false} BitstreamConserved(cfg: Config, firstSize: nat, events: seq<Event>)
    requires !cfg.ape || !Failed(cfg, firstSize, events)
    ensures BitstreamOk(Run(cfg, Start(firstSize), events))
  {
    if events != [] {
      var n := |events| - 1;
      var s := Run(cfg, Start(firstSize), events[..n]);
      BitstreamConserved(cfg, firstSize, events[..n]);
      RunKeepsDecoder(cfg, firstSize, events[..n]);
      NextKeepsBitstream(cfg, s, events[n]);
    }
  }

  // The bitstream is conserved over a run exactly when the format is not APE or no
  // decode of the run failed.
  lemma ConservedIff(cfg: Config, firstSize: nat, events: seq<Event>)
    ensures BitstreamOk(Run(cfg, Start(firstSize), events)) <==> !cfg.ape || !Failed(cfg, firstSize, events)
  {
    if !cfg.ape || !Failed(cfg, firstSize, events) {
      BitstreamConserved(cfg, firstSize, events);
    } else {
      BytesAccounted(cfg, firstSize, events);
      LostIff(cfg, firstSize, events);
    }
  }

  lemma RunAdd(cfg: Config, s: State, events: seq<Event>, e: Event)
    requires |s.ring| <= cfg.capacity
    ensures Run(cfg, s, events + [e]) == Next(cfg, Run(cfg, s, events), e)
  {
    assert (events + [e])[..|events|] == events;
  }

  // One byte read, queued and taken, about to be decoded.
  function OneTaken(): State {
    Start(1).(read := [7], phase := Decoding, inbuf := [7], inlen := 1)
  }

  lemma OneTakenRun(cfg: Config)
    ensures Run(cfg, Start(1), [ReadBytes([7]), AddPackage(false, 1), GetPackage(false)]) == OneTaken()
  {
    var (e1, e2, e3) := (ReadBytes([7]), AddPackage(false, 1), GetPackage(false));
    var s1 := Start(1).(filling := [7], want := 0, read := [7]);
    var s2 := Start(1).(queue := [[7]], read := [7]);
    assert Next(cfg, Start(1), e1) == s1;
    assert Next(cfg, s1, e2) == s2;
    assert Next(cfg, s2, e3) == OneTaken() by {
      assert [] + [7] == [7];
    }
    RunAdd(cfg, Start(1), [], e1);
    RunAdd(cfg, Start(1), [e1], e2);
    RunAdd(cfg, Start(1), [e1, e2], e3);
    assert [] + [e1] == [e1] && [e1] + [e2] == [e1, e2] && [e1, e2] + [e3] == [e1, e2, e3];
  }

  // If it is not decoded, it is lost for APE and carried otherwise.
  lemma FailedDecodeRun(cfg: Config)
    ensures var events := [ReadBytes([7]), AddPackage(false, 1), GetPackage(false), DecodeFailed];
            var s := Run(cfg, Start(1), events);
            && s.read == [7] && Held(s) == (if cfg.ape then [] else [7])
            && (BitstreamOk(s) <==> !cfg.ape)
  {
    var events := [ReadBytes([7]), AddPackage(false, 1), GetPackage(false)];
    OneTakenRun(cfg);
    RunAdd(cfg, Start(1), events, DecodeFailed);
    assert events + [DecodeFailed] == [ReadBytes([7]), AddPackage(false, 1), GetPackage(false), DecodeFailed];
    var s := Next(cfg, OneTaken(), DecodeFailed);
    assert Chunk(OneTaken(), 1) == [7];
    assert Held(s) == if cfg.ape then [] else [7];
  }

  // In every interleaving the PCM handed out is a prefix of the PCM decoded, and what is
  // between them is buf_level + pcm_cache_size.
  lemma {:induction false} PcmConserved(cfg: Config, firstSize: nat, events: seq<Event>)
    ensures var s := Run(cfg, Start(firstSize), events);
            && s.handed <= s.decoded
            && |s.decoded| == |s.handed| + |s.ring| + s.pcmCacheSize
            && PcmOk(s)
  {
    if events != [] {
      var n := |events| - 1;
      PcmConserved(cfg, firstSize, events[..n]);
      RunKeepsDecoder(cfg, firstSize, events[..n]);
      NextKeepsPcm(cfg, Run(cfg, Start(firstSize), events[..n]), events[n]);
    }
  }

  // Every write_pcm_buffer call of every run writes nothing or everything, so passing
  // outbuf from its start each time repeats and skips nothing.
  lemma WritesAreWhole(cfg: Config, firstSize: nat, events: seq<Event>, busy: bool)
    ensures var s := Run(cfg, Start(firstSize), events);
            var s' := Next(cfg, s, WritePcm(busy));
            s.phase == Writing ==>
              if busy then s'.ring == s.ring && s'.phase == Writing && s'.outlen == s.outlen
              else s'.ring == s.ring + s.outbuf && s'.outlen == 0 && s'.phase != Writing
  {
    var s := Run(cfg, Start(firstSize), events);
    RunKeepsDecoder(cfg, firstSize, events);
    if s.phase == Writing {
      assert s.outbuf[..s.outlen] == s.outbuf;
    }
  }

  // The wait for space ends, once the reader has drained the ring, exactly when the
  // decoded chunk is no longer than the ring.
  lemma WaitEndsIff(cfg: Config, firstSize: nat, events: seq<Event>)
    ensures var s := Run(cfg, Start(firstSize), events);
            var drained := Next(cfg, s, ReadPcm(false, cfg.capacity));
            s.phase == NeedSpace ==>
              (Next(cfg, drained, CheckSpace).phase != NeedSpace <==> |s.outbuf| <= cfg.capacity)
  {
    RunKeepsDecoder(cfg, firstSize, events);
  }

  // A longer chunk is never written: the decoding thread waits for ever.
  lemma {:induction false} OversizeStuck(cfg: Config, s: State, events: seq<Event>)
    requires DecoderOk(cfg, s) && s.phase == NeedSpace && |s.outbuf| > cfg.capacity
    ensures var s' := Run(cfg, s, events); DecoderOk(cfg, s') && s'.phase == NeedSpace && s'.outbuf == s.outbuf
  {
    if events != [] {
      var n := |events| - 1;
      OversizeStuck(cfg, s, events[..n]);
      NextKeepsDecoder(cfg, Run(cfg, s, events[..n]), events[n]);
    }
  }
}
