// What goes out on the socket of an RTSP connection: replies, and the packets of
// an RTP session that borrows it (RFC 2326, section 10.12).

module RtspSocket {
  import opened Bytes
  import opened Wrappers

  const DOLLAR: byte := 36
  const RTCP_SR: byte := 200

  // ---------------------------------------------------------------- framing

  // The four length bytes before a packet in a session's buffer, most significant first.
  function LengthPrefix(n: nat): (r: seq<byte>)
    ensures |r| == 4
  {
    [n / 0x1000000 % 256, n / 0x10000 % 256, n / 0x100 % 256, n % 256]
  }

  function PrefixValue(b: seq<byte>): nat
    requires |b| >= 4
  {
    (b[0] as int) * 0x1000000 + (b[1] as int) * 0x10000 + (b[2] as int) * 0x100 + b[3] as int
  }

  lemma PrefixRoundTrip(n: nat, rest: seq<byte>)
    requires n < 0x1_0000_0000
    ensures PrefixValue(LengthPrefix(n) + rest) == n
  {
    var b := LengthPrefix(n) + rest;
    assert b[0] == n / 0x1000000 && b[1] == n / 0x10000 % 256 && b[2] == n / 0x100 % 256 && b[3] == n % 256;
    assert n / 0x100 == n / 0x10000 * 256 + b[2];
    assert n / 0x10000 == n / 0x1000000 * 256 + b[1];
  }

  // The interleaved channel: the test for RTCP looks at a byte of the length prefix.
  function Channel(streamIndex: nat, b: seq<byte>): byte
    requires |b| >= 4
  {
    (streamIndex * 2 + (if b[1] == RTCP_SR then 1 else 0)) % 256
  }

  // '$', channel, two length bytes, packet.
  function Frame(channel: byte, payload: seq<byte>): seq<byte> {
    [DOLLAR, channel, |payload| / 256 % 256, |payload| % 256] + payload
  }

  // The four bytes before a packet: a dollar sign, the channel, the length with its upper byte
  // first (RFC 2326, section 10.12).
  lemma FrameHeader(channel: byte, payload: seq<byte>)
    requires |payload| < 0x10000
    ensures var f := Frame(channel, payload);
            && f[..2] == [0x24, channel] && (f[2] as int) * 256 + f[3] as int == |payload| && f[4..] == payload
  {
  }

  // How a receiver cuts the next frame off the stream: channel, packet, rest.
  function Unframe(s: seq<byte>): Option<(byte, seq<byte>, seq<byte>)> {
    if |s| < 4 || s[0] != DOLLAR then None
    else
      var n := (s[2] as int) * 256 + s[3] as int;
      if |s| < 4 + n then None else Some((s[1], s[4..4 + n], s[4 + n..]))
  }

  // A receiver gets the packet back exactly when its length fits two bytes.
  lemma FrameRoundTripIff(channel: byte, payload: seq<byte>, rest: seq<byte>)
    ensures Unframe(Frame(channel, payload) + rest) == Some((channel, payload, rest)) <==> |payload| < 0x10000
  {
    var s := Frame(channel, payload) + rest;
    var n := (s[2] as int) * 256 + s[3] as int;
    assert n == |payload| % 0x10000 by {
      assert |payload| / 256 == |payload| / 0x10000 * 256 + |payload| / 256 % 256;
    }
    if |payload| < 0x10000 {
      assert s[4..4 + n] == payload && s[4 + n..] == rest;
    }
  }

  // No packet short enough to be framed takes an odd channel, RTCP or not.
  lemma OddChannelIff(streamIndex: nat, payload: seq<byte>, rest: seq<byte>)
    requires |payload| < 0x1_0000_0000
    ensures Channel(streamIndex, LengthPrefix(|payload|) + rest) % 2 == 1 <==> |payload| / 0x10000 % 256 == 200
    ensures |payload| < 0x10000 ==> Channel(streamIndex, LengthPrefix(|payload|) + rest) == streamIndex * 2 % 256
  {
    var b := LengthPrefix(|payload|) + rest;
    assert b[1] == |payload| / 0x10000 % 256;
    assert |payload| < 0x10000 ==> |payload| / 0x10000 == 0;
    LowBit(streamIndex * 2 + (if b[1] == RTCP_SR then 1 else 0));
  }

  lemma LowBit(n: nat)
    ensures n % 256 % 2 == n % 2
  {
    var q := n / 256;
    assert n == 2 * (128 * q) + n % 256;
    Even(128 * q, n % 256);
  }

  lemma Even(k: nat, m: nat)
    ensures (2 * k + m) % 2 == m % 2
  {
  }

  // ---------------------------------------------------------------- the stream of one socket

  // owner is the session the packet came from.
  datatype Unit = Reply(bytes: seq<byte>) | Packet(owner: nat, channel: byte, payload: seq<byte>)

  function UnitBytes(u: Unit): seq<byte> {
    match u
    case Reply(bytes) => bytes
    case Packet(_, channel, payload) => Frame(channel, payload)
  }

  function Stream(units: seq<Unit>): seq<byte> {
    if units == [] then [] else Stream(units[..|units| - 1]) + UnitBytes(units[|units| - 1])
  }

  // The packets of one session among the units, in order.
  function PacketsOf(units: seq<Unit>, owner: nat): seq<seq<byte>> {
    if units == [] then []
    else
      var u := units[|units| - 1];
      PacketsOf(units[..|units| - 1], owner) + (if u.Packet? && u.owner == owner then [u.payload] else [])
  }

  lemma StreamAppend(units: seq<Unit>, u: Unit)
    ensures Stream(units + [u]) == Stream(units) + UnitBytes(u)
  {
    assert (units + [u])[..|units|] == units;
  }

  lemma PacketsAppend(units: seq<Unit>, u: Unit, owner: nat)
    ensures PacketsOf(units + [u], owner) ==
              PacketsOf(units, owner) + (if u.Packet? && u.owner == owner then [u.payload] else [])
  {
    assert (units + [u])[..|units|] == units;
  }

  // What was sent and what is left are whole units, of which only the last may be in part left.
  ghost predicate Part(sent: seq<byte>, unsent: seq<byte>, units: seq<Unit>) {
    && sent + unsent == Stream(units)
    && if units == [] then unsent == [] else |unsent| <= |UnitBytes(units[|units| - 1])|
  }

  lemma PartStep(sent: seq<byte>, unsent: seq<byte>, units: seq<Unit>, n: nat)
    requires Part(sent, unsent, units) && n <= |unsent|
    ensures Part(sent + unsent[..n], unsent[n..], units)
  {
    SplitAt(sent, unsent, n);
  }

  lemma PartBegin(sent: seq<byte>, units: seq<Unit>, u: Unit)
    requires Part(sent, [], units)
    ensures Part(sent, UnitBytes(u), units + [u])
  {
    assert sent + [] == sent;
    StreamAppend(units, u);
  }

  lemma SuffixDecides(front: seq<byte>, a: seq<byte>, b: seq<byte>)
    ensures front + a == front + b <==> a == b
  {
    assert a == (front + a)[|front|..] && b == (front + b)[|front|..];
  }

  datatype State = WaitRequest | SendReply | SendPacket

  // HTTPContext of an RTSP connection.
  class Socket {
    var state: State
    var request: seq<byte>       // buffer[..buffer_ptr] while a request is read
    var reply: seq<byte>         // buffer_ptr..buffer_end while a reply is sent
    var packet: seq<byte>        // packet_buffer_ptr..packet_buffer_end
    var owner: nat               // the session whose packet_buffer that is
    ghost var sent: seq<byte>    // what the peer was given
    ghost var units: seq<Unit>   // everything started on the socket

    ghost function Unsent(): seq<byte>
      reads this
    {
      match state
      case WaitRequest => []
      case SendReply => reply
      case SendPacket => packet
    }

    ghost predicate Valid()
      reads this
    {
      && Part(sent, Unsent(), units)
      && (state == SendPacket ==> units != [] && units[|units| - 1].Packet? && units[|units| - 1].owner == owner)
    }

    // A packet in progress is sent from the buffer of session id.
    predicate SendsFrom(id: nat)
      reads this
    {
      state == SendPacket && owner == id
    }

    constructor ()
      ensures Valid() && state == WaitRequest && units == [] && request == []
    {
      state, request, reply, packet, owner := WaitRequest, [], [], [], 0;
      sent, units := [], [];
    }

    // RTSPSTATE_WAIT_REQUEST: more of a request; when it is complete, the reply to it.
    method ReadRequest(bytes: seq<byte>, answer: Option<seq<byte>>)
      requires Valid() && state == WaitRequest
      modifies this
      ensures Valid() && sent == old(sent)
      ensures answer.None? ==> state == WaitRequest && request == old(request) + bytes && units == old(units)
      ensures answer.Some? ==>
                state == SendReply && reply == answer.value && units == old(units) + [Reply(answer.value)]
      ensures forall o :: PacketsOf(units, o) == old(PacketsOf(units, o))
    {
      request := request + bytes;
      if answer.Some? {
        var u := Reply(answer.value);
        PartBegin(sent, units, u);
        forall o
          ensures PacketsOf(units + [u], o) == PacketsOf(units, o)
        {
          PacketsAppend(units, u, o);
        }
        reply := answer.value;
        state := SendReply;
        units := units + [u];
      }
    }

    // RTSPSTATE_SEND_REPLY: send takes n bytes.
    method WriteReply(n: nat)
      requires Valid() && state == SendReply && n <= |reply|
      modifies this
      ensures Valid() && units == old(units) && sent == old(sent) + old(reply[..n])
      ensures if n == old(|reply|) then state == WaitRequest && request == []
              else state == SendReply && reply == old(reply[n..])
    {
      PartStep(sent, reply, units, n);
      sent, reply := sent + reply[..n], reply[n..];
      if reply == [] {
        // start_wait_request
        request := [];
        state := WaitRequest;
      }
    }

    // A framed packet is sent at once as far as send takes it (turn bytes); the rest
    // locks the socket.
    method BeginPacket(id: nat, channel: byte, payload: seq<byte>, turn: nat) returns (locked: bool)
      requires Valid() && state == WaitRequest
      modifies this
      ensures Valid() && request == old(request)
      ensures units == old(units) + [Packet(id, channel, payload)] && (locked ==> SendsFrom(id))
      ensures old(sent) <= sent && |sent| == |old(sent)| + Min(turn, |payload| + 4)
      ensures state == if locked then SendPacket else WaitRequest
      ensures locked <==> turn < |payload| + 4
      ensures locked ==> |packet| == |payload| + 4 - turn
    {
      var frame := Frame(channel, payload);
      var n := Min(turn, |frame|);
      PartBegin(sent, units, Packet(id, channel, payload));
      units := units + [Packet(id, channel, payload)];
      PartStep(sent, frame, units, n);
      sent := sent + frame[..n];
      packet, owner := frame[n..], id;
      locked := packet != [];
      if locked {
        state := SendPacket;
      }
    }

    // close_connection of the session whose packet is being sent: its buffer is freed, and
    // reads as memory from then on.  What goes out is still the packet if and only if the
    // memory happens to be unchanged.
    method Free(memory: seq<byte>)
      requires Valid() && state == SendPacket && |memory| == |packet|
      modifies `packet
      ensures packet == memory
      ensures Valid() <==> memory == old(packet)
    {
      SuffixDecides(sent, packet, memory);
      packet := memory;
    }

    // RTSPSTATE_SEND_PACKET: send takes n bytes of whatever the buffer holds.  A request half
    // read is kept.
    method WritePacket(n: nat)
      requires state == SendPacket && n <= |packet|
      modifies `sent, `packet, `state
      ensures old(Valid()) ==> Valid()
      ensures sent == old(sent) + old(packet[..n])
      ensures if n == old(|packet|) then state == WaitRequest else state == SendPacket && packet == old(packet[n..])
    {
      if Part(sent, packet, units) {
        PartStep(sent, packet, units, n);
      }
      sent, packet := sent + packet[..n], packet[n..];
      if packet == [] {
        state := WaitRequest;
      }
    }
  }

  // ---------------------------------------------------------------- an RTP session

  function Buffered(packets: seq<seq<byte>>): seq<byte> {
    if packets == [] then [] else LengthPrefix(|packets[0]|) + packets[0] + Buffered(packets[1..])
  }

  // One turn of the sending loop: too early, or what send takes at once.
  datatype Turn = NotDue | Takes(n: nat)

  // How many packets leave on a free socket: each that is due, until one is not sent whole.
  function Going(packets: seq<seq<byte>>, turns: seq<Turn>): (n: nat)
    ensures n <= |packets| && n <= |turns|
    decreases |turns|
  {
    if packets == [] || turns == [] || turns[0].NotDue? then 0
    else if turns[0].n < |packets[0]| + 4 then 1
    else 1 + Going(packets[1..], turns[1..])
  }

  // n packets leave: all due, all but the last sent whole, and then there is no packet or no
  // turn left, the next is not due, or the last was not sent whole.
  predicate Goes(packets: seq<seq<byte>>, turns: seq<Turn>, n: nat) {
    && n <= |packets| && n <= |turns|
    && (forall i :: 0 <= i < n ==> turns[i].Takes?)
    && (forall i :: 0 <= i < n - 1 ==> turns[i].n >= |packets[i]| + 4)
    && (|| n == |packets| || n == |turns| || turns[n].NotDue?
        || (n > 0 && turns[n - 1].n < |packets[n - 1]| + 4))
  }

  lemma {:induction false} GoingIff(packets: seq<seq<byte>>, turns: seq<Turn>, n: nat)
    ensures Going(packets, turns) == n <==> Goes(packets, turns, n)
    decreases |turns|
  {
    if packets != [] && turns != [] && turns[0].Takes? && turns[0].n >= |packets[0]| + 4 && n > 0 {
      GoingIff(packets[1..], turns[1..], n - 1);
      GoesOn(packets, turns, n);
    }
  }

  lemma GoesOn(packets: seq<seq<byte>>, turns: seq<Turn>, n: nat)
    requires packets != [] && turns != [] && turns[0].Takes? && turns[0].n >= |packets[0]| + 4 && n > 0
    ensures Goes(packets, turns, n) <==> Goes(packets[1..], turns[1..], n - 1)
  {
    var (ps, ts) := (packets[1..], turns[1..]);
    assert forall i :: 0 <= i < |ps| ==> ps[i] == packets[i + 1];
    assert forall i :: 0 <= i < |ts| ==> ts[i] == turns[i + 1];
    if Goes(ps, ts, n - 1) {
      forall i | 0 <= i < n
        ensures turns[i].Takes?
        ensures i < n - 1 ==> turns[i].n >= |packets[i]| + 4
      {
        if i > 0 {
          assert ts[i - 1] == turns[i] && ps[i - 1] == packets[i];
        }
      }
    }
  }

  // Of the last of n packets, what is still to be sent.
  function Rest(packets: seq<seq<byte>>, turns: seq<Turn>, n: nat): nat
    requires n <= |packets| && n <= |turns|
  {
    if n > 0 && turns[n - 1].Takes? && turns[n - 1].n < |packets[n - 1]| + 4 then
      |packets[n - 1]| + 4 - turns[n - 1].n
    else 0
  }

  lemma GoingStep(packets: seq<seq<byte>>, turns: seq<Turn>, k: nat)
    requires k < |packets| && k < |turns|
    ensures packets[k..][1..] == packets[k + 1..] && packets[k..][0] == packets[k]
    ensures Going(packets[k..], turns[k..]) ==
            if turns[k].NotDue? then 0
            else if turns[k].n < |packets[k]| + 4 then 1
            else 1 + Going(packets[k + 1..], turns[k + 1..])
  {
    assert packets[k..][1..] == packets[k + 1..] && turns[k..][1..] == turns[k + 1..];
  }

  lemma GoingStops(packets: seq<seq<byte>>, turns: seq<Turn>, k: nat)
    requires k <= |packets| && k <= |turns|
    requires k == |packets| || k == |turns| || turns[k].NotDue?
    ensures Going(packets[k..], turns[k..]) == 0
  {
  }

  lemma MoveFirst<T>(front: seq<T>, back: seq<T>)
    requires back != []
    ensures (front + [back[0]]) + back[1..] == front + back
  {
  }

  lemma PacketAdded(units: seq<Unit>, id: nat, channel: byte, payload: seq<byte>)
    ensures var units' := units + [Packet(id, channel, payload)];
            && PacketsOf(units', id) == PacketsOf(units, id) + [payload]
            && forall o :: o != id ==> PacketsOf(units', o) == PacketsOf(units, o)
  {
    var u := Packet(id, channel, payload);
    PacketsAppend(units, u, id);
    forall o | o != id
      ensures PacketsOf(units + [u], o) == PacketsOf(units, o)
    {
      PacketsAppend(units, u, o);
    }
  }

  function UnitsFor(id: nat, channel: byte, packets: seq<seq<byte>>): (r: seq<Unit>)
    ensures |r| == |packets|
  {
    seq(|packets|, i requires 0 <= i < |packets| => Packet(id, channel, packets[i]))
  }

  lemma UnitsForStep(units: seq<Unit>, id: nat, channel: byte, all: seq<seq<byte>>, k: nat)
    requires k < |all|
    ensures units + UnitsFor(id, channel, all[..k]) + [Packet(id, channel, all[k])]
            == units + UnitsFor(id, channel, all[..k + 1])
  {
    assert UnitsFor(id, channel, all[..k]) + [Packet(id, channel, all[k])] == UnitsFor(id, channel, all[..k + 1]);
  }

  // The oldest packet of session id goes from its buffer onto the socket.
  lemma Framed(produced: seq<seq<byte>>, units: seq<Unit>, packets: seq<seq<byte>>, id: nat, channel: byte)
    requires packets != [] && produced == PacketsOf(units, id) + packets
    ensures var units' := units + [Packet(id, channel, packets[0])];
            && produced == PacketsOf(units', id) + packets[1..]
            && forall o :: o != id ==> PacketsOf(units', o) == PacketsOf(units, o)
  {
    PacketAdded(units, id, channel, packets[0]);
    MoveFirst(PacketsOf(units, id), packets);
  }

  // HTTPContext of an RTP session over TCP.
  class Session {
    const id: nat
    var streamIndex: nat                   // packet_stream_index of the frame in the buffer
    var rtsp: Socket?
    var buffer: seq<byte>                  // buffer_ptr..buffer_end
    ghost var packets: seq<seq<byte>>      // what the buffer holds
    ghost var produced: seq<seq<byte>>     // every packet ever prepared

    // Each packet prepared is still in the buffer or was framed once, in order.
    ghost predicate Valid()
      reads this, rtsp
    {
      && buffer == Buffered(packets)
      && (forall p :: p in packets ==> |p| < 0x10000)
      && (rtsp != null ==> produced == PacketsOf(rtsp.units, id) + packets)
    }

    constructor (id: nat, rtsp: Socket)
      requires PacketsOf(rtsp.units, id) == []
      ensures Valid() && this.id == id && this.rtsp == rtsp && produced == []
    {
      this.id, this.streamIndex, this.rtsp := id, 0, rtsp;
      buffer, packets, produced := [], [], [];
    }

    // http_prepare_data: the packets of the next frame of some stream, when the buffer is empty.
    method Prepare(frame: seq<seq<byte>>, index: nat)
      requires Valid() && buffer == [] && forall p :: p in frame ==> |p| < 0x10000
      modifies `buffer, `packets, `produced, `streamIndex
      ensures Valid() && produced == old(produced) + frame && packets == frame && streamIndex == index
    {
      streamIndex := index;
      assert packets == [];
      buffer := Buffered(frame);
      packets := frame;
      produced := produced + frame;
    }

    // The packet at buffer_ptr: its channel and its bytes.
    method TakeFirst() returns (channel: byte, payload: seq<byte>)
      requires Valid() && buffer != []
      modifies `buffer, `packets
      ensures packets == old(packets[1..]) && payload == old(packets[0]) && buffer == Buffered(packets)
      ensures channel == streamIndex * 2 % 256
    {
      ghost var rest := packets[0] + Buffered(packets[1..]);
      assert buffer == LengthPrefix(|packets[0]|) + rest;
      PrefixRoundTrip(|packets[0]|, rest);
      var len := PrefixValue(buffer);
      channel := Channel(streamIndex, buffer);
      payload := buffer[4..4 + len];
      buffer := buffer[4 + len..];
      packets := packets[1..];
    }

    // One packet framed onto a free socket.
    method SendOne(turn: nat) returns (locked: bool)
      requires Valid() && buffer != [] && rtsp != null && rtsp.Valid() && rtsp.state == WaitRequest
      modifies `buffer, `packets, rtsp
      ensures Valid() && rtsp.Valid() && rtsp.request == old(rtsp.request)
      ensures packets == old(packets[1..])
      ensures old(rtsp.sent) <= rtsp.sent && |rtsp.sent| == |old(rtsp.sent)| + Min(turn, old(|packets[0]|) + 4)
      ensures rtsp.units == old(rtsp.units) + [Packet(id, streamIndex * 2 % 256, old(packets[0]))]
      ensures if locked then rtsp.SendsFrom(id) else rtsp.state == WaitRequest
      ensures locked <==> turn < old(|packets[0]|) + 4
      ensures locked ==> |rtsp.packet| == old(|packets[0]|) + 4 - turn
      ensures OthersAs(old(rtsp.units))
    {
      Framed(produced, rtsp.units, packets, id, streamIndex * 2 % 256);
      var channel, payload := TakeFirst();
      locked := rtsp.BeginPacket(id, channel, payload, turn);
    }

    // http_send_data on a packetized connection; turns says what the clock and send do.
    method SendData(turns: seq<Turn>) returns (ret: int)
      requires Valid() && (rtsp != null ==> rtsp.Valid())
      modifies `buffer, `packets, rtsp
      ensures Valid() && produced == old(produced)
      ensures rtsp == null ==> packets == old(packets)
      ensures rtsp == null ==> (ret == -1 <==> old(packets) != [] && turns != [] && turns[0].Takes?)
      ensures rtsp != null ==> ret == 0 && rtsp.Valid() && rtsp.request == old(rtsp.request)
      ensures rtsp != null && old(rtsp.state) != WaitRequest ==> packets == old(packets) && unchanged(rtsp)
      ensures rtsp != null && old(rtsp.state) == WaitRequest ==>
                && packets == old(packets)[Going(old(packets), turns)..]
                && (rtsp.state == WaitRequest || rtsp.SendsFrom(id))
                && Grown(old(rtsp.units), old(rtsp.sent), old(packets), Going(old(packets), turns))
                && LeftOver(Rest(old(packets), turns, Going(old(packets), turns)))
      ensures rtsp != null ==> OthersAs(old(rtsp.units))
    {
      if rtsp == null || rtsp.state != WaitRequest {
        // at most the first turn counts
        ret := if rtsp == null && buffer != [] && turns != [] && turns[0].Takes? then -1 else 0;
      } else {
        ghost var n := SendDue(turns);
        ret := 0;
      }
    }

    // The packets of all other sessions are as they were in units.
    ghost predicate OthersAs(units: seq<Unit>)
      requires rtsp != null
      reads this, rtsp
    {
      forall o :: o != id ==> PacketsOf(rtsp.units, o) == PacketsOf(units, o)
    }

    // So many bytes are left on the socket, which they lock.
    ghost predicate LeftOver(rest: nat)
      requires rtsp != null
      reads this, rtsp
    {
      if rest == 0 then rtsp.state == WaitRequest else rtsp.SendsFrom(id) && |rtsp.packet| == rest
    }

    // The first k packets of all have been started since units and sent.
    ghost predicate Grown(units: seq<Unit>, sent: seq<byte>, all: seq<seq<byte>>, k: nat)
      requires rtsp != null && k <= |all|
      reads this, rtsp
    {
      rtsp.units == units + UnitsFor(id, streamIndex * 2 % 256, all[..k]) && sent <= rtsp.sent
    }

    // k of the packets that were there have left, and Going still counts them.
    ghost predicate Gone(all: seq<seq<byte>>, turns: seq<Turn>, k: nat)
      reads this
    {
      && k <= |turns| && k <= |all| && packets == all[k..]
      && Going(all, turns) == k + Going(all[k..], turns[k..])
    }

    // One turn of its loop.
    method SendNext(turns: seq<Turn>, k: nat, ghost all: seq<seq<byte>>, ghost units: seq<Unit>, ghost sent: seq<byte>)
      returns (locked: bool)
      requires Valid() && rtsp != null && rtsp.Valid() && rtsp.state == WaitRequest
      requires buffer != [] && Gone(all, turns, k) && k < |turns| && turns[k].Takes?
      requires OthersAs(units) && Grown(units, sent, all, k)
      modifies `buffer, `packets, rtsp
      ensures Valid() && rtsp.Valid() && rtsp.request == old(rtsp.request)
      ensures k < |all| && OthersAs(units) && Grown(units, sent, all, k + 1)
      ensures if locked then packets == all[k + 1..] && Going(all, turns) == k + 1 && rtsp.SendsFrom(id)
              else Gone(all, turns, k + 1) && rtsp.state == WaitRequest
      ensures LeftOver(Rest(all, turns, k + 1))
    {
      GoingStep(all, turns, k);
      UnitsForStep(units, id, streamIndex * 2 % 256, all, k);
      locked := SendOne(turns[k].n);
    }

    // Its loop, on a free socket.
    method SendDue(turns: seq<Turn>) returns (ghost n: nat)
      requires Valid() && rtsp != null && rtsp.Valid() && rtsp.state == WaitRequest
      modifies `buffer, `packets, rtsp
      ensures Valid() && rtsp.Valid() && rtsp.request == old(rtsp.request)
      ensures n == Going(old(packets), turns) && packets == old(packets)[n..]
      ensures rtsp.state == WaitRequest || rtsp.SendsFrom(id)
      ensures Grown(old(rtsp.units), old(rtsp.sent), old(packets), n)
      ensures LeftOver(Rest(old(packets), turns, n))
      ensures OthersAs(old(rtsp.units))
    {
      var k := 0;
      ghost var all, units, sent := packets, rtsp.units, rtsp.sent;
      assert turns[0..] == turns && all[0..] == all;
      while buffer != [] && k < |turns| && turns[k].Takes?
        invariant Valid() && rtsp.Valid() && rtsp.state == WaitRequest && rtsp.request == old(rtsp.request)
        invariant Gone(all, turns, k) && OthersAs(units) && Grown(units, sent, all, k)
        invariant Rest(all, turns, k) == 0
        decreases |turns| - k
      {
        var locked := SendNext(turns, k, all, units, sent);
        if locked {
          n := k + 1;
          return;
        }
        k := k + 1;
      }
      GoingStops(all, turns, k);
      n := k;
    }
  }
}
