// The connection machine of ffserver: the list of connections, the bandwidth they
// are charged for, and the flag that keeps a feed to one writer.  Sockets, files
// and request texts appear as inputs of the steps.

module ServerAccounts {
  import opened Wrappers

  datatype StreamType = Live | Status | Redirect

  datatype State =
    | HttpWaitRequest | SendHeader | SendDataHeader | SendData | SendDataTrailer | ReceiveData | WaitFeed | Ready
    | RtspWaitRequest | SendReply | SendPacket
  {
    // Between requests, with no stream of its own.
    predicate Requesting() { HttpWaitRequest? || RtspWaitRequest? || SendReply? || SendPacket? }

    // Sending for a stream.
    predicate Sending() { SendDataHeader? || SendData? || SendDataTrailer? }

    // What PLAY starts, and PAUSE stops.
    predicate Playable() { SendData? || WaitFeed? || Ready? }

    predicate Pausable() { SendData? || WaitFeed? }

    // Working for a stream.
    predicate Streaming() { SendDataHeader? || SendData? || SendDataTrailer? || WaitFeed? || Ready? }
  }

  // FFStream; only feed_opened changes once the server runs.
  class FFStream {
    const kind: StreamType
    const bandwidth: nat
    const isFeed: bool
    const readonly: bool
    const feed: FFStream?
    var feedOpened: bool
    ghost var writer: HttpContext?   // the connection that feeds it

    constructor (kind: StreamType, bandwidth: nat, isFeed: bool, readonly: bool, feed: FFStream?)
      ensures this.kind == kind && this.bandwidth == bandwidth && this.isFeed == isFeed && this.readonly == readonly
      ensures !feedOpened && writer == null
    {
      this.kind, this.bandwidth, this.isFeed, this.readonly := kind, bandwidth, isFeed, readonly;
      this.feed := feed;
      feedOpened, writer := false, null;
    }
  }

  // HTTPContext
  class HttpContext {
    var state: State
    var post: bool
    var stream: FFStream?
    var httpError: nat
    const isPacketized: bool

    constructor (state: State, stream: FFStream?, isPacketized: bool)
      ensures this.state == state && this.stream == stream && this.isPacketized == isPacketized
      ensures !post && httpError == 0
    {
      this.state, this.stream, this.isPacketized := state, stream, isPacketized;
      post, httpError := false, 0;
    }

    ghost function Now(): Conn
      reads this
    {
      Conn(this, state, stream, httpError)
    }

    // What close_connection gives back.
    ghost function Charge(): nat
      reads this
    {
      if stream != null && !post && stream.kind == Live then stream.bandwidth else 0
    }

    // The fields a state relies on.
    ghost predicate Shaped()
      reads this
    {
      && (state.Requesting() ==> stream == null)
      && (state.SendHeader? && httpError == 0 ==> stream != null)
      && (state.Streaming() ==> stream != null)
      && (state.ReceiveData? ==> stream != null && post && stream.isFeed)
      && (isPacketized ==> stream != null && state.Streaming())
    }
  }

  function Sum(s: seq<nat>): nat {
    if s == [] then 0 else s[0] + Sum(s[1..])
  }

  lemma {:induction false} SumUpdate(s: seq<nat>, i: nat, v: nat)
    requires i < |s|
    ensures Sum(s[i := v]) == Sum(s) - s[i] + v
  {
    if i > 0 {
      SumUpdate(s[1..], i - 1, v);
      assert s[i := v][1..] == s[1..][i - 1 := v];
    } else {
      assert s[i := v][1..] == s[1..];
    }
  }

  lemma {:induction false} SumRemove(s: seq<nat>, i: nat)
    requires i < |s|
    ensures Sum(s[..i] + s[i + 1..]) == Sum(s) - s[i]
  {
    RemoveBehind(s, i);
    if i > 0 {
      SumRemove(s[1..], i - 1);
    }
  }

  lemma RemoveBehind<T>(s: seq<T>, i: nat)
    requires i < |s|
    ensures i == 0 ==> s[..i] + s[i + 1..] == s[1..]
    ensures i > 0 ==> s[..i] + s[i + 1..] == [s[0]] + (s[1..][..i - 1] + s[1..][i..])
  {
  }

  ghost predicate AllDistinct<T>(s: seq<T>) {
    forall i, j :: 0 <= i < j < |s| ==> s[i] != s[j]
  }

  lemma Removal<T>(s: seq<T>, i: nat)
    requires i < |s| && AllDistinct(s)
    ensures var t := s[..i] + s[i + 1..];
            AllDistinct(t) && forall x :: x in t <==> x in s && x != s[i]
  {
    var t := s[..i] + s[i + 1..];
    forall x
      ensures x in t <==> x in s && x != s[i]
    {
      if x in s && x != s[i] {
        var j :| 0 <= j < |s| && s[j] == x;
        assert t[if j < i then j else j - 1] == x;
      }
    }
  }

  ghost function Nows(conns: seq<HttpContext>): (r: seq<Conn>)
    reads conns
    ensures |r| == |conns| && forall i :: 0 <= i < |conns| ==> r[i] == conns[i].Now()
  {
    seq(|conns|, i requires 0 <= i < |conns| reads conns => conns[i].Now())
  }

  ghost function Charges(conns: seq<HttpContext>): (r: seq<nat>)
    reads conns
    ensures |r| == |conns|
    ensures forall i :: 0 <= i < |conns| ==> r[i] == conns[i].Charge()
  {
    seq(|conns|, i requires 0 <= i < |conns| reads conns => conns[i].Charge())
  }

  lemma ChargesWithout(conns: seq<HttpContext>, i: nat)
    requires i < |conns|
    ensures Sum(Charges(conns[..i] + conns[i + 1..])) == Sum(Charges(conns)) - conns[i].Charge()
  {
    var charges := Charges(conns);
    assert Charges(conns[..i] + conns[i + 1..]) == charges[..i] + charges[i + 1..];
    SumRemove(charges, i);
  }

  lemma ChargesWith(c: HttpContext, conns: seq<HttpContext>)
    ensures Sum(Charges([c] + conns)) == c.Charge() + Sum(Charges(conns))
  {
    assert Charges([c] + conns)[1..] == Charges(conns);
  }

  twostate lemma ChargesKept(conns: seq<HttpContext>)
    requires forall c :: c in conns ==> c.Charge() == old(c.Charge())
    ensures Charges(conns) == old(Charges(conns))
  {
  }

  // What a request asks for and how the files it names behave.
  datatype Method = Get | Post | OtherMethod

  datatype Request = Request(
    verb: Method, protocolOk: bool,
    stream: FFStream?,       // the stream of that name that the access list admits
    redirected: bool,        // the name asks for a redirector file
    hostOk: bool,            // a usable Host line
    feedFileOk: bool,        // the feed file opens and its index can be read
    inputOk: bool)           // open_input_stream succeeds

  // The error code http_parse_request sends back, 0 for a stream and none for a feeder
  // that starts; fed is feed_opened, and load the charge with this request in it.
  function ReplyCode(r: Request, fed: bool, load: int, maxBandwidth: int): (code: Option<nat>)
    requires r.stream != null
  {
    if r.stream.kind.Redirect? then Some(301)
    else if fed then Some(404)
    else if r.verb.Get? && load > maxBandwidth then Some(503)
    else if r.redirected then Some(if r.hostOk then 200 else 404)
    else if r.verb.Post? then
      if r.stream.isFeed && !r.stream.readonly && r.feedFileOk then None else Some(404)
    else if r.stream.kind.Status? then Some(200)
    else Some(if r.inputOk then 0 else 404)
  }

  // What a request adds to the charge.
  function Price(r: Request): nat {
    if r.verb.Get? && r.stream != null && r.stream.kind.Live? then r.stream.bandwidth else 0
  }

  function Code(r: Request, fed: bool, load: int, maxBandwidth: int): Option<nat> {
    if r.stream == null then Some(404) else ReplyCode(r, fed, load, maxBandwidth)
  }

  // The stream a request leaves its connection with: that asked for, but none for a POST to
  // what is no feed.
  function Given(r: Request, fed: bool): FFStream? {
    if r.stream != null && r.verb.Post? && !r.stream.kind.Redirect? && !fed && !r.redirected && !r.stream.isFeed
    then null
    else r.stream
  }

  // The stream asked for is being fed.
  predicate Taken(r: Request)
    reads r.stream
  {
    r.stream != null && r.stream.feedOpened
  }

  // The codes one by one, whatever the order of the tests: an admitted request in particular is
  // within the limit with its own charge in it.
  lemma ReplyCodeIs(r: Request, fed: bool, load: int, maxBandwidth: int)
    ensures r.stream == null ==> Code(r, fed, load, maxBandwidth) == Some(404)
    ensures r.stream != null ==>
            var code := Code(r, fed, load, maxBandwidth);
            var kind := r.stream.kind;
            var over := !kind.Redirect? && !fed && r.verb.Get? && load > maxBandwidth;
            && (code == Some(301) <==> kind.Redirect?)
            && (code == Some(503) <==> over)
            && (code == Some(0) <==>
                  && !r.verb.Post? && kind.Live? && !fed && !(r.verb.Get? && load > maxBandwidth)
                  && !r.redirected && r.inputOk)
            && (code == None <==>
                  && r.verb.Post? && !kind.Redirect? && !fed && !r.redirected
                  && r.stream.isFeed && !r.stream.readonly && r.feedFileOk)
            && (code == Some(200) <==>
                  && !kind.Redirect? && !fed && !over
                  && if r.redirected then r.hostOk else !r.verb.Post? && kind.Status?)
            && (code.Some? ==> code.value in {0, 200, 301, 404, 503})
  {
  }

  datatype Command =
    | Reply                                        // DESCRIBE, OPTIONS and every error reply
    | Setup(target: FFStream)                      // SETUP that needs a new RTP connection
    | Play(session: nat)                           // the session is the place of its connection in the list
    | Pause(session: nat)
    | Teardown(session: nat)

  // What a command makes of the state of the connection at place k.
  function Commanded(command: Command, k: nat, state: State, isSession: bool): State {
    match command
    case Play(session) =>
      if session == k && isSession && (state.SendData? || state.WaitFeed? || state.Ready?) then SendData else state
    case Pause(session) =>
      if session == k && isSession && (state.SendData? || state.WaitFeed?) then Ready else state
    case _ => state
  }

  // What the socket of a connection does during one call of handle_connection.
  datatype Io =
    | Idle                                         // no event, or a partial transfer
    | Broken                                       // poll error, failed transfer, timeout
    | HttpRequest(request: Request)
    | RtspRequest(command: Command, replyOk: bool)
    | Sent                                         // the rest of the buffer went out
    | Data(next: State, lock: Option<nat>)         // http_send_data returned 0, leaving this state, and a
                                                   // packet partly sent on the RTSP connection at that place
    | Packet                                       // a data packet is complete and stored
    | FeedFailed                                   // http_receive_data failed

  // Whether a step closes its own connection.
  predicate Closes(state: State, httpError: nat, io: Io) {
    match io
    case Broken => !state.Ready?
    case HttpRequest(r) => state.HttpWaitRequest? && (r.verb.OtherMethod? || !r.protocolOk)
    case RtspRequest(_, replyOk) => state.RtspWaitRequest? && !replyOk
    case Sent => state.SendHeader? && httpError != 0
    case Data(next, _) => state.Sending() && next.SendDataTrailer?
    case FeedFailed => state.ReceiveData?
    case _ => false
  }

  // Exactly these steps close their own connection.
  lemma ClosesIff(state: State, httpError: nat, io: Io)
    ensures Closes(state, httpError, io) <==>
              || (io.Broken? && state != Ready)
              || (state.HttpWaitRequest? && io.HttpRequest? && (io.request.verb.OtherMethod? || !io.request.protocolOk))
              || (state.RtspWaitRequest? && io.RtspRequest? && !io.replyOk)
              || (state.SendHeader? && io.Sent? && httpError > 0)
              || ((state.SendDataHeader? || state.SendData? || state.SendDataTrailer?)
                  && io.Data? && io.next.SendDataTrailer?)
              || (state.ReceiveData? && io.FeedFailed?)
  {
  }

  // Exactly these steps change the state of their own connection, and to these states.
  lemma SteppedIff(state: State, io: Io, next: State)
    requires next != state
    ensures Stepped(state, io) == next <==>
              || ((state.SendReply? || state.SendPacket?) && io.Sent? && next.RtspWaitRequest?)
              || (state.RtspWaitRequest? && io.RtspRequest? && next.SendReply?)
              || (state.SendHeader? && io.Sent? && next.SendDataHeader?)
              || ((state.SendDataHeader? || state.SendData? || state.SendDataTrailer?)
                  && io.Data? && io.next == next
                  && (next.SendDataHeader? || next.SendData? || next.SendDataTrailer? || next.WaitFeed?))
  {
  }

  // A packet or the end of a feed moves those that wait for it.
  function Woken(state: State, stream: FFStream?, feed: FFStream?, next: State): State {
    if state.WaitFeed? && stream != null && stream.feed == feed then next else state
  }

  // The state a step leaves its own connection in; a HTTP request is left to ReplyCode.
  function Stepped(state: State, io: Io): State {
    match state
    case SendReply | SendPacket => if io.Sent? then RtspWaitRequest else state
    case RtspWaitRequest => if io.RtspRequest? then SendReply else state
    case SendHeader => if io.Sent? then SendDataHeader else state
    case SendDataHeader | SendData | SendDataTrailer =>
      if io.Data? && io.next.Streaming() && !io.next.Ready? then io.next else state
    case _ => state
  }

  // The state a step of a connection in state from leaves the connection at place i in: a
  // session's packet locks the RTSP connection it is partly sent on.
  function Locked(from: State, packetized: bool, io: Io, i: nat, state: State): State {
    if from.Sending() && packetized && io.Data? && io.lock == Some(i) && state.RtspWaitRequest? then SendPacket
    else state
  }

  // A connection between two turns of the poll loop.
  datatype Conn = Conn(who: HttpContext, state: State, stream: FFStream?, httpError: nat)

  // Connection d waits for the feed that c receives.
  predicate WaitsFor(d: Conn, c: Conn) {
    d.state.WaitFeed? && d.stream != null && c.stream != null && d.stream.feed == c.stream.feed
  }

  // The state a turn of connection c leaves another one in, at place k.
  function Moved(c: Conn, io: Io, k: nat, d: Conn): State {
    if c.state.ReceiveData? then
      if io.Packet? && WaitsFor(d, c) then SendData
      else if io.FeedFailed? && WaitsFor(d, c) then SendDataTrailer
      else d.state
    else if c.state.RtspWaitRequest? && io.RtspRequest? then
      if io.command == Play(k) && d.who.isPacketized && d.state.Playable() then SendData
      else if io.command == Pause(k) && d.who.isPacketized && d.state.Pausable() then Ready
      else d.state
    else Locked(c.state, c.who.isPacketized, io, k, d.state)
  }

  lemma CommandMoves(c: Conn, io: Io, conns: seq<Conn>)
    requires c.state.RtspWaitRequest? && io.RtspRequest?
    ensures forall k :: 0 <= k < |conns| ==>
              Moved(c, io, k, conns[k]) == Commanded(io.command, k, conns[k].state, conns[k].who.isPacketized)
  {
  }

  lemma NothingMoves(c: Conn, io: Io, conns: seq<Conn>)
    requires c.state.RtspWaitRequest? && !io.RtspRequest?
    ensures forall k :: 0 <= k < |conns| ==> Moved(c, io, k, conns[k]) == conns[k].state
  {
  }

  // Exactly these turns of a connection change the state of another one, and to these states.
  lemma MovedIff(c: Conn, io: Io, k: nat, d: Conn, next: State)
    requires next != d.state
    ensures Moved(c, io, k, d) == next <==>
              || (c.state.ReceiveData? && io.Packet? && WaitsFor(d, c) && next.SendData?)
              || (c.state.ReceiveData? && io.FeedFailed? && WaitsFor(d, c) && next.SendDataTrailer?)
              || (&& c.state.RtspWaitRequest? && io.RtspRequest? && io.command == Play(k) && d.who.isPacketized
                  && (d.state.WaitFeed? || d.state.Ready?) && next.SendData?)
              || (&& c.state.RtspWaitRequest? && io.RtspRequest? && io.command == Pause(k) && d.who.isPacketized
                  && (d.state.SendData? || d.state.WaitFeed?) && next.Ready?)
              || (&& (c.state.SendDataHeader? || c.state.SendData? || c.state.SendDataTrailer?) && c.who.isPacketized
                  && io.Data? && io.lock == Some(k) && d.state.RtspWaitRequest? && next.SendPacket?)
  {
  }

  // A session that a SETUP has just added.
  predicate IsNew(d: Conn, io: Io) {
    && io.RtspRequest? && io.command.Setup?
    && d.stream == io.command.target && d.state == Ready && d.who.isPacketized
  }

  // The sessions of the first multicast streams, the last one first.
  predicate AreMulticast(conns: seq<Conn>, multicast: seq<FFStream>, opens: seq<bool>) {
    && |conns| <= |multicast| && |conns| <= |opens|
    && (conns == [] ||
        (var (n, d) := (|conns| - 1, conns[0]);
         && d.stream == multicast[n] && d.who.isPacketized && d.state == (if opens[n] then SendData else Ready)
         && AreMulticast(conns[1..], multicast, opens)))
  }

  class Server {
    const streams: set<FFStream>
    const nbMaxConnections: nat
    const maxBandwidth: nat
    var conns: seq<HttpContext>      // first_http_ctx
    var nbConnections: nat
    var currentBandwidth: int

    ghost predicate Distinct()
      reads this
    {
      AllDistinct(conns)
    }

    ghost predicate Counted()
      reads this
    {
      nbConnections == |conns| <= nbMaxConnections
    }

    ghost predicate Balanced()
      reads this, conns
    {
      currentBandwidth == Sum(Charges(conns))
    }

    // compute_bandwidth finds codec streams only behind live streams.
    ghost predicate Configured() {
      forall s :: s in streams ==> s.kind == Live || s.bandwidth == 0
    }

    // A connection receives only on a feed that knows it as its writer.
    ghost predicate Placed(c: HttpContext)
      reads c, streams
    {
      && c.Shaped()
      && (c.stream != null ==> c.stream in streams)
      && (c.state == ReceiveData ==> c.stream != null && c.stream in streams && c.stream.writer == c)
    }

    // feed_opened is set exactly when there is a writer, listed and receiving.
    ghost predicate Flagged(f: FFStream)
      reads this, conns, f
    {
      && (f.feedOpened <==> f.writer != null)
      && (f.writer != null ==> f.writer in conns && f.writer.state == ReceiveData && f.writer.stream == f)
    }

    ghost predicate Exclusive()
      reads this, conns, streams
    {
      && (forall c :: c in conns ==> Placed(c))
      && (forall f :: f in streams ==> Flagged(f))
    }

    ghost predicate Valid()
      reads this, conns, streams
    {
      Configured() && Distinct() && Counted() && Balanced() && Exclusive()
    }

    ghost predicate Receives(c: HttpContext, f: FFStream)
      reads c
    {
      c.state == ReceiveData && c.stream == f
    }

    constructor (streams: set<FFStream>, nbMaxConnections: nat, maxBandwidth: nat)
      requires forall s :: s in streams ==> !s.feedOpened && s.writer == null && (s.kind == Live || s.bandwidth == 0)
      ensures Valid() && conns == [] && this.streams == streams
      ensures this.nbMaxConnections == nbMaxConnections && this.maxBandwidth == maxBandwidth
    {
      this.streams, this.nbMaxConnections, this.maxBandwidth := streams, nbMaxConnections, maxBandwidth;
      conns, nbConnections, currentBandwidth := [], 0, 0;
    }

    // new_connection
    method NewConnection(isRtsp: bool, accepted: bool)
      requires Valid()
      modifies this
      ensures Valid()
      ensures if accepted && old(nbConnections) < nbMaxConnections
              then |conns| > 0 && fresh(conns[0]) && conns[1..] == old(conns)
                   && conns[0].state == (if isRtsp then RtspWaitRequest else HttpWaitRequest) && conns[0].stream == null
              else conns == old(conns)
      ensures currentBandwidth == old(currentBandwidth)
      ensures forall d :: d in conns ==> d in old(conns) || fresh(d)
    {
      if !accepted || nbConnections >= nbMaxConnections {
        return;
      }
      var c := new HttpContext(if isRtsp then RtspWaitRequest else HttpWaitRequest, null, false);
      Prepend(c);
    }

    // A new connection at the head of the list; its charge is added here.
    method Prepend(c: HttpContext)
      requires Valid() && nbConnections < nbMaxConnections
      requires c !in conns && c.Shaped() && c.state != ReceiveData && !c.post
      requires c.stream != null ==> c.stream in streams
      modifies this
      ensures Valid() && conns == [c] + old(conns)
      ensures currentBandwidth == old(currentBandwidth) + (if c.stream != null then c.stream.bandwidth else 0)
    {
      ChargesWith(c, conns);
      assert c.Charge() == if c.stream != null then c.stream.bandwidth else 0;
      currentBandwidth := currentBandwidth + (if c.stream != null then c.stream.bandwidth else 0);
      nbConnections := nbConnections + 1;
      ghost var before := conns;
      conns := [c] + conns;
      assert forall d :: d in conns <==> d == c || d in before;
    }

    // All but connection c, which a failed transfer may have taken off its feed already.
    ghost predicate ValidBut(c: HttpContext)
      reads this, conns, streams, c
    {
      && Configured() && Distinct() && Counted() && Balanced()
      && (forall d :: d in conns && d != c ==> Placed(d))
      && (forall f :: f in streams ==> Flagged(f))
      && (c.stream != null ==> c.stream in streams)
      && (c.state == ReceiveData && c.stream != null ==> c.stream.writer == c || c.stream.writer == null)
    }

    method Find(c: HttpContext) returns (i: nat)
      requires c in conns
      ensures i < |conns| && conns[i] == c
    {
      i := 0;
      while conns[i] != c
        invariant i < |conns| && c !in conns[..i]
        decreases |conns| - i
      {
        i := i + 1;
      }
    }

    // The list, the count and the charge of close_connection.
    method Unlink(c: HttpContext)
      requires c in conns && Distinct() && Counted() && Balanced()
      modifies this`conns, this`nbConnections, this`currentBandwidth
      ensures Distinct() && Counted() && Balanced()
      ensures exists i :: 0 <= i < |old(conns)| && old(conns)[i] == c && conns == old(conns)[..i] + old(conns)[i + 1..]
      ensures forall d :: d in conns <==> d in old(conns) && d != c
    {
      var i := Find(c);
      Removal(conns, i);
      ChargesWithout(conns, i);
      conns := conns[..i] + conns[i + 1..];
      if c.stream != null && !c.post && c.stream.kind == Live {
        currentBandwidth := currentBandwidth - c.stream.bandwidth;
      }
      nbConnections := nbConnections - 1;
    }

    // A step on connection c that no feed takes part in disturbs nothing else.
    twostate lemma OthersKept(c: HttpContext)
      requires conns == old(conns)
      requires old(c.state) != ReceiveData && c.state != ReceiveData
      requires forall d :: d in conns && d != c ==> unchanged(d)
      requires forall f :: f in streams ==> unchanged(f) && old(Flagged(f))
      ensures forall d :: d in conns && d != c && old(Placed(d)) ==> Placed(d)
      ensures forall f :: f in streams ==> Flagged(f)
    {
      forall f | f in streams
        ensures Flagged(f)
      {
        assert old(Flagged(f));
      }
    }

    // close_connection
    method CloseConnection(c: HttpContext)
      requires c in conns && ValidBut(c)
      modifies this`conns, this`nbConnections, this`currentBandwidth, streams
      ensures Valid()
      ensures exists i :: 0 <= i < |old(conns)| && old(conns)[i] == c && conns == old(conns)[..i] + old(conns)[i + 1..]
      ensures forall d :: d in conns <==> d in old(conns) && d != c
      ensures forall f :: f in streams ==>
                f.feedOpened == (old(f.feedOpened) && !(old(c.state) == ReceiveData && old(c.stream) == f))
    {
      Unlink(c);
      var freed := if c.state == ReceiveData then c.stream else null;
      if freed != null {
        freed.feedOpened := false;
        freed.writer := null;
      }
      ChargesKept(conns);
      forall d | d in conns
        ensures Placed(d)
      {
        assert old(Placed(d));
      }
      forall f | f in streams
        ensures Flagged(f)
      {
        assert old(Flagged(f));
      }
    }

    // The reply is ready: connection c leaves the request state.
    method Answer(c: HttpContext, httpError: nat)
      requires c in conns && ValidBut(c) && c.state == HttpWaitRequest && !c.isPacketized
      requires httpError == 0 ==> c.stream != null
      modifies c`state, c`httpError
      ensures Valid() && c.state == SendHeader && c.httpError == httpError
    {
      c.httpError := httpError;
      c.state := SendHeader;
      ChargesKept(conns);
      OthersKept(c);
    }

    // Record the stream of a request and charge it.
    method Admit(c: HttpContext, stream: FFStream)
      requires c in conns && Valid() && c.state == HttpWaitRequest && stream in streams
      modifies c`stream, this`currentBandwidth
      ensures ValidBut(c) && c.stream == stream
      ensures currentBandwidth ==
                old(currentBandwidth) + (if !c.post && stream.kind == Live then stream.bandwidth else 0)
    {
      SetStream(c, stream);
      if !c.post && stream.kind == Live {
        currentBandwidth := currentBandwidth + stream.bandwidth;
      }
      OthersKept(c);
    }

    method SetStream(c: HttpContext, stream: FFStream?)
      requires c in conns && Distinct()
      modifies c`stream
      ensures c.stream == stream
      ensures Sum(Charges(conns)) == old(Sum(Charges(conns))) - old(c.Charge()) + c.Charge()
    {
      var i := Find(c);
      ghost var before := Charges(conns);
      c.stream := stream;
      assert forall j :: 0 <= j < |conns| && j != i ==> conns[j] != c;
      SumUpdate(before, i, c.Charge());
      assert Charges(conns) == before[i := c.Charge()];
    }

    // http_start_receive_data
    method StartReceiveData(c: HttpContext, feedFileOk: bool) returns (ret: int)
      requires c in conns && ValidBut(c) && c.state == HttpWaitRequest && c.post && !c.isPacketized
      requires c.stream != null && c.stream.isFeed
      modifies c`state, c`httpError, c.stream
      ensures ret == if !old(c.stream.feedOpened) && !c.stream.readonly && feedFileOk then 0 else -1
      ensures ret == 0 ==> Valid() && c.state == ReceiveData && c.httpError == 0 && c.stream.feedOpened
      ensures ret != 0 ==> ValidBut(c) && c.state == HttpWaitRequest && c.stream.feedOpened == old(c.stream.feedOpened)
    {
      if c.stream.feedOpened || c.stream.readonly || !feedFileOk {
        return -1;
      }
      c.stream.feedOpened := true;
      c.stream.writer := c;
      // the caller's last two steps, with which the flag and the state agree again
      c.httpError := 0;
      c.state := ReceiveData;
      ChargesKept(conns);
      forall d | d in conns
        ensures Placed(d)
      {
        assert d != c ==> old(Placed(d)) && d.state == old(d.state) && d.stream == old(d.stream);
        assert old(Flagged(c.stream));
      }
      forall f | f in streams
        ensures Flagged(f)
      {
        assert old(Flagged(f));
      }
      return 0;
    }

    method SetPost(c: HttpContext, post: bool)
      requires c in conns && Valid() && c.state.HttpWaitRequest?
      modifies c`post
      ensures Valid() && c.post == post
    {
      c.post := post;
      ChargesKept(conns);
      OthersKept(c);
    }

    // A POST that names no feed loses its stream before the error reply.
    method Disown(c: HttpContext)
      requires c in conns && ValidBut(c) && c.state.HttpWaitRequest? && c.post && !c.isPacketized
      modifies c`stream
      ensures ValidBut(c) && c.stream == null
    {
      SetStream(c, null);
      OthersKept(c);
    }

    // The rest of http_parse_request, once the stream is recorded.
    method ReplyTo(c: HttpContext, r: Request)
      requires c in conns && ValidBut(c) && c.state.HttpWaitRequest? && !c.isPacketized
      requires r.stream != null && c.stream == r.stream && !r.verb.OtherMethod? && c.post == r.verb.Post?
      modifies c`state, c`httpError, c`stream, r.stream
      ensures Valid()
      ensures var code := ReplyCode(r, old(r.stream.feedOpened), currentBandwidth, maxBandwidth);
              && c.state == (if code.None? then ReceiveData else SendHeader)
              && c.httpError == (if code.None? then 0 else code.value)
              && c.stream == Given(r, old(r.stream.feedOpened))
    {
      if r.stream.kind.Redirect? {
        Answer(c, 301);
      } else if r.stream.feedOpened {
        Answer(c, 404);
      } else if !c.post && maxBandwidth < currentBandwidth {
        Answer(c, 503);
      } else if r.redirected {
        Answer(c, if r.hostOk then 200 else 404);
      } else if c.post {
        if !r.stream.isFeed {
          Disown(c);
          Answer(c, 404);
        } else {
          var ret := StartReceiveData(c, r.feedFileOk);
          if ret < 0 {
            Answer(c, 404);
          }
        }
      } else if r.stream.kind.Status? {
        Answer(c, 200);
      } else {
        Answer(c, if r.inputOk then 0 else 404);
      }
    }

    // http_parse_request, as far as it touches the connection, the charge and the feed.
    method ParseHttpRequest(c: HttpContext, r: Request) returns (ok: bool)
      requires c in conns && Valid() && c.state.HttpWaitRequest?
      requires r.stream != null ==> r.stream in streams
      modifies c, this`currentBandwidth, streams
      ensures ok <==> !r.verb.OtherMethod? && r.protocolOk
      ensures if ok then Valid() else ValidBut(c) && c.state.HttpWaitRequest? && c.stream == null
      ensures currentBandwidth == old(currentBandwidth) + (if ok then Price(r) else 0)
      ensures ok ==>
                var code := Code(r, old(Taken(r)), currentBandwidth, maxBandwidth);
                && c.state == (if code.None? then ReceiveData else SendHeader)
                && c.httpError == (if code.None? then 0 else code.value)
                && c.stream == Given(r, old(Taken(r)))
    {
      if r.verb.OtherMethod? {
        return false;
      }
      SetPost(c, r.verb.Post?);
      if !r.protocolOk {
        return false;
      }
      if r.stream == null {
        Answer(c, 404);
      } else {
        Admit(c, r.stream);
        ReplyTo(c, r);
      }
      return true;
    }

    // A connection moves between the states that work for its stream.
    method SetStreaming(d: HttpContext, next: State, ghost x: HttpContext)
      requires d in conns && Placed(d) && ValidBut(x) && next.Streaming()
      requires d.state.Streaming() || (d.state.SendHeader? && d.httpError == 0)
      modifies d`state
      ensures d.state == next && Placed(d) && ValidBut(x)
      ensures old(Placed(x)) ==> Placed(x)
    {
      d.state := next;
      ChargesKept(conns);
      OthersKept(d);
    }

    // An RTSP connection moves between reading and replying.
    method SetRequesting(c: HttpContext, next: State)
      requires c in conns && Valid() && c.state.Requesting() && next.Requesting()
      modifies c`state
      ensures Valid() && c.state == next
    {
      c.state := next;
      ChargesKept(conns);
      OthersKept(c);
    }

    // The connections that wait for the feed of c go on, or end.
    method Wake(c: HttpContext, next: State)
      requires c in conns && ValidBut(c) && c.stream != null && c.state.ReceiveData?
      requires next.SendData? || next.SendDataTrailer?
      modifies conns`state
      ensures ValidBut(c) && (old(Placed(c)) ==> Placed(c))
      ensures forall d :: d in conns ==>
                d.state == Woken(old(d.state), old(d.stream), c.stream.feed, next)
    {
      for i := 0 to |conns|
        invariant ValidBut(c) && (old(Placed(c)) ==> Placed(c))
        invariant forall j :: 0 <= j < |conns| ==>
                    conns[j].state ==
                    if j < i then Woken(old(conns[j].state), old(conns[j].stream), c.stream.feed, next)
                    else old(conns[j].state)
      {
        var d := conns[i];
        assert d != c ==> Placed(d);
        if d.state.WaitFeed? && d.stream.feed == c.stream.feed {
          SetStreaming(d, next, c);
        }
      }
    }

    // The failure path of http_receive_data; the caller closes c.
    method FailReceive(c: HttpContext)
      requires c in conns && Valid() && c.state.ReceiveData?
      modifies conns`state, streams
      ensures ValidBut(c) && c.stream == old(c.stream) && c.state.ReceiveData?
      ensures c.stream != null && !c.stream.feedOpened
      ensures forall f :: f in streams && f != c.stream ==> f.feedOpened == old(f.feedOpened)
      ensures forall d :: d in conns ==>
                d.state == Woken(old(d.state), old(d.stream), c.stream.feed, SendDataTrailer)
    {
      c.stream.feedOpened := false;
      c.stream.writer := null;
      Wake(c, SendDataTrailer);
    }

    // A command that ends the session of connection d.
    ghost predicate Ends(command: Command, d: HttpContext)
      reads this
    {
      command.Teardown? && IsSession(command.session) && d == conns[command.session]
    }

    predicate IsSession(k: nat)
      reads this
    {
      k < |conns| && conns[k].isPacketized
    }

    // rtp_new_connection
    method RtpNewConnection(stream: FFStream) returns (rtp: HttpContext?)
      requires Valid() && stream in streams
      modifies this
      ensures Valid()
      ensures if old(nbConnections) < nbMaxConnections
              then rtp != null && fresh(rtp) && conns == [rtp] + old(conns)
                   && rtp.stream == stream && rtp.state == Ready && rtp.isPacketized && Placed(rtp)
                   && currentBandwidth == old(currentBandwidth) + stream.bandwidth
              else rtp == null && conns == old(conns) && currentBandwidth == old(currentBandwidth)
    {
      if nbConnections >= nbMaxConnections {
        return null;
      }
      rtp := new HttpContext(Ready, stream, true);
      Prepend(rtp);
    }

    // start_multicast; opens says for which streams the input opens.  As many streams as there
    // is room for get a session, at the head of the list, the last one first.
    method StartMulticast(multicast: seq<FFStream>, opens: seq<bool>) returns (n: nat)
      requires Valid() && |opens| == |multicast| && forall s :: s in multicast ==> s in streams
      modifies this
      ensures Valid()
      ensures n == |multicast| || (n < |multicast| && nbConnections == nbMaxConnections)
      ensures |conns| == n + old(|conns|) && conns[n..] == old(conns)
      ensures forall k :: 0 <= k < n ==> fresh(conns[k])
      ensures AreMulticast(Nows(conns[..n]), multicast, opens)
    {
      n := 0;
      ghost var before := conns;
      for i := 0 to |multicast|
        invariant Valid() && (n == i || (n < i && nbConnections == nbMaxConnections))
        invariant |conns| == n + |before| && conns[n..] == before
        invariant forall k :: 0 <= k < n ==> fresh(conns[k])
        invariant AreMulticast(Nows(conns[..n]), multicast, opens)
      {
        n := NextMulticast(multicast, opens, i, n);
      }
    }

    method NextMulticast(multicast: seq<FFStream>, opens: seq<bool>, i: nat, n: nat) returns (n': nat)
      requires Valid() && |opens| == |multicast| && i < |multicast| && multicast[i] in streams
      requires (n == i || (n < i && nbConnections == nbMaxConnections)) && n <= |conns|
      requires AreMulticast(Nows(conns[..n]), multicast, opens)
      modifies this
      ensures Valid() && (n' == i + 1 || (n' < i + 1 && nbConnections == nbMaxConnections))
      ensures if old(nbConnections) < nbMaxConnections
              then n' == n + 1 && conns != [] && conns[1..] == old(conns) && fresh(conns[0])
              else n' == n && conns == old(conns)
      ensures n' <= |conns| && AreMulticast(Nows(conns[..n']), multicast, opens)
    {
      ghost var before := Nows(conns[..n]);
      var rtp := OpenMulticast(multicast[i], opens[i]);
      n' := n;
      if rtp != null {
        n' := n + 1;
        assert Nows(conns[..n']) == [rtp.Now()] + before;
      }
    }

    // One stream of it.
    method OpenMulticast(stream: FFStream, opens: bool) returns (rtp: HttpContext?)
      requires Valid() && stream in streams
      modifies this
      ensures Valid()
      ensures if old(nbConnections) < nbMaxConnections
              then && rtp != null && fresh(rtp) && conns == [rtp] + old(conns)
                   && rtp.stream == stream && rtp.isPacketized && rtp.state == if opens then SendData else Ready
              else rtp == null && conns == old(conns) && nbConnections == nbMaxConnections
    {
      rtp := RtpNewConnection(stream);
      if rtp != null && opens {
        SetStreaming(rtp, SendData, rtp);
      }
    }

    // rtsp_cmd_play, rtsp_cmd_pause: session k moves to next if it is in a state to.
    method MoveSession(c: HttpContext, k: nat, next: State)
      requires c in conns && Valid() && c.state.RtspWaitRequest?
      requires next == SendData || next == Ready
      modifies conns`state
      ensures Valid() && c.state.RtspWaitRequest?
      ensures forall i :: 0 <= i < |conns| ==>
                conns[i].state ==
                Commanded(if next == SendData then Play(k) else Pause(k), i, old(conns[i].state), old(IsSession(i)))
    {
      if IsSession(k) {
        var d := conns[k];
        assert Placed(d);
        if d.state.SendData? || d.state.WaitFeed? || (d.state.Ready? && next == SendData) {
          SetStreaming(d, next, c);
        }
      }
      assert forall i, j :: 0 <= i < j < |conns| ==> conns[i] != conns[j];
    }

    // rtsp_cmd_teardown
    method Teardown(c: HttpContext, k: nat)
      requires c in conns && Valid() && c.state.RtspWaitRequest?
      modifies this, streams
      ensures Valid() && c in conns
      ensures forall d :: d in conns <==> d in old(conns) && !(old(IsSession(k)) && d == old(conns[k]))
    {
      if IsSession(k) {
        assert Placed(conns[k]) && Placed(c);
        CloseConnection(conns[k]);
      }
    }

    // The commands of an RTSP request; of rtsp_cmd_setup, what leads to rtp_new_connection.
    method RunCommand(c: HttpContext, command: Command)
      requires c in conns && Valid() && c.state.RtspWaitRequest?
      requires command.Setup? ==> command.target in streams
      modifies this, conns`state, streams
      ensures Valid() && c in conns && c.state.RtspWaitRequest?
      ensures forall d :: d in conns ==> d in old(conns) || fresh(d)
      ensures command.Setup? && old(nbConnections) < nbMaxConnections ==>
                && |conns| > 0 && conns[1..] == old(conns) && fresh(conns[0])
                && conns[0].stream == command.target && conns[0].state == Ready && conns[0].isPacketized
                && currentBandwidth == old(currentBandwidth) + command.target.bandwidth
      ensures command.Setup? && old(nbConnections) == nbMaxConnections ==> conns == old(conns)
      ensures forall d :: d in old(conns) ==> (d in conns <==> !old(Ends(command, d)))
      ensures !command.Setup? ==> forall d :: d in conns ==> d in old(conns)
      ensures !command.Setup? && !command.Teardown? ==> conns == old(conns)
      ensures forall k :: 0 <= k < |old(conns)| ==>
                old(conns)[k].state == Commanded(command, k, old(conns[k].state), old(IsSession(k)))
    {
      match command {
        case Reply =>
        case Setup(target) =>
          var rtp := RtpNewConnection(target);
        case Play(k) =>
          MoveSession(c, k, SendData);
        case Pause(k) =>
          MoveSession(c, k, Ready);
        case Teardown(k) =>
          Teardown(c, k);
      }
    }

    // rtsp_parse_request
    method ParseRtspRequest(c: HttpContext, command: Command, replyOk: bool) returns (ok: bool)
      requires c in conns && Valid() && c.state.RtspWaitRequest?
      requires command.Setup? ==> command.target in streams
      modifies this, conns`state, streams
      ensures Valid() && c in conns
      ensures forall d :: d in conns ==> d in old(conns) || fresh(d)
      ensures forall d :: d in old(conns) ==> (d in conns <==> !old(Ends(command, d)))
      ensures ok == replyOk && c.state == if ok then SendReply else RtspWaitRequest
      ensures command.Setup? && old(nbConnections) < nbMaxConnections ==>
                && |conns| > 0 && conns[1..] == old(conns) && fresh(conns[0])
                && conns[0].stream == command.target && conns[0].state == Ready && conns[0].isPacketized
                && currentBandwidth == old(currentBandwidth) + command.target.bandwidth
      ensures !(command.Setup? && old(nbConnections) < nbMaxConnections) ==> forall d :: d in conns ==> d in old(conns)
      ensures forall k :: 0 <= k < |old(conns)| && old(conns)[k] != c ==>
                old(conns)[k].state == Commanded(command, k, old(conns[k].state), old(IsSession(k)))
    {
      RunCommand(c, command);
      if replyOk {
        SetRequesting(c, SendReply);
      }
      return replyOk;
    }

    predicate Knows(io: Io) {
      && (io.HttpRequest? && io.request.stream != null ==> io.request.stream in streams)
      && (io.RtspRequest? && io.command.Setup? ==> io.command.target in streams)
    }

    // The states of handle_connection that only send.
    method SendStep(c: HttpContext, io: Io) returns (ok: bool)
      requires c in conns && Valid() && !io.Broken?
      requires c.state.SendReply? || c.state.SendPacket? || c.state.SendHeader? || c.state.Sending()
      modifies conns`state
      ensures Valid()
      ensures ok <==> !Closes(old(c.state), c.httpError, io)
      ensures c.state == if ok || io.Data? then Stepped(old(c.state), io) else old(c.state)
      ensures forall i :: 0 <= i < |conns| && conns[i] != c ==>
                conns[i].state == Locked(old(c.state), c.isPacketized, io, i, old(conns[i].state))
    {
      ok := true;
      assert Placed(c);
      if c.state.SendReply? || c.state.SendPacket? {
        if io.Sent? {
          SetRequesting(c, RtspWaitRequest);
        }
      } else if c.state.SendHeader? {
        if io.Sent? {
          if c.httpError != 0 {
            ok := false;
          } else {
            SetStreaming(c, SendDataHeader, c);
          }
        }
      } else if io.Data? {
        LockSocket(c, io.lock);
        if io.next.Streaming() && !io.next.Ready? {
          SetStreaming(c, io.next, c);
        }
        ok := !io.next.SendDataTrailer?;
      }
    }

    // The end of http_send_data for a packet that was not sent whole.
    method LockSocket(c: HttpContext, lock: Option<nat>)
      requires c in conns && Valid() && c.state.Sending()
      modifies conns`state
      ensures Valid() && c.state == old(c.state)
      ensures forall i :: 0 <= i < |conns| ==>
                conns[i].state ==
                if c.isPacketized && lock == Some(i) && old(conns[i].state).RtspWaitRequest? then SendPacket
                else old(conns[i].state)
    {
      if c.isPacketized && lock.Some? && lock.value < |conns| && conns[lock.value].state.RtspWaitRequest? {
        assert conns[lock.value] in conns;
        SetRequesting(conns[lock.value], SendPacket);
        assert forall i :: 0 <= i < |conns| && i != lock.value ==> conns[i] != conns[lock.value];
      }
    }

    // A step of connection c that ends the session of connection d.
    ghost predicate StepEnds(c: HttpContext, io: Io, d: HttpContext)
      reads this, c
    {
      c.state.RtspWaitRequest? && io.RtspRequest? && Ends(io.command, d)
    }

    // http_receive_data: a packet stored, a failure, or neither.
    method Receive(c: HttpContext, io: Io) returns (ok: bool)
      requires c in conns && Valid() && c.state.ReceiveData? && !io.Broken?
      modifies conns`state, streams
      ensures c.state.ReceiveData? && if ok then Valid() else ValidBut(c)
      ensures ok <==> !io.FeedFailed?
      ensures forall k :: 0 <= k < |conns| ==> conns[k].state == Moved(old(c.Now()), io, k, old(conns[k].Now()))
    {
      ok := true;
      assert Placed(c);
      if io.FeedFailed? {
        FailReceive(c);
        ok := false;
      } else if io.Packet? {
        Wake(c, SendData);
      }
    }

    // A step of connection c that runs an RTSP command.
    predicate Commands(c: HttpContext, io: Io)
      reads c
    {
      c.state.RtspWaitRequest? && io.RtspRequest?
    }

    // A step that adds a session.
    predicate Joins(c: HttpContext, io: Io)
      reads this, c
    {
      Commands(c, io) && io.command.Setup? && nbConnections < nbMaxConnections
    }

    // A complete request of a HTTP connection.
    predicate Asks(c: HttpContext, io: Io)
      reads c
    {
      c.state.HttpWaitRequest? && io.HttpRequest?
    }

    // A HTTP connection that reads: its request is parsed when it is complete.
    method ReadHttp(c: HttpContext, io: Io) returns (ok: bool)
      requires c in conns && Valid() && Knows(io) && !io.Broken? && c.state.HttpWaitRequest?
      modifies c, this`currentBandwidth, streams
      ensures if ok then Valid() else ValidBut(c)
      ensures ok <==> !Closes(old(c.state), old(c.httpError), io)
      ensures !io.HttpRequest? ==> c.Now() == old(c.Now())
      ensures ok && io.HttpRequest? ==>
                && currentBandwidth == old(currentBandwidth) + Price(io.request)
                && var code := Code(io.request, old(Taken(io.request)), currentBandwidth, maxBandwidth);
                   && c.state == (if code.None? then ReceiveData else SendHeader)
                   && c.httpError == (if code.None? then 0 else code.value)
                   && c.stream == Given(io.request, old(Taken(io.request)))
    {
      ok := true;
      if io.HttpRequest? {
        ok := ParseHttpRequest(c, io.request);
      }
    }

    // An RTSP connection that reads.
    method ReadRtsp(c: HttpContext, io: Io) returns (ok: bool)
      requires c in conns && Valid() && Knows(io) && !io.Broken? && c.state.RtspWaitRequest?
      modifies this, conns`state, streams
      ensures Valid() && c in conns
      ensures ok <==> !Closes(old(c.state), c.httpError, io)
      ensures ok ==> c.state == Stepped(old(c.state), io)
      ensures forall d :: d in conns ==> d in old(conns) || fresh(d)
      ensures !io.RtspRequest? ==> conns == old(conns)
      ensures forall d :: d in old(conns) ==> (d in conns <==> !old(StepEnds(c, io, d)))
      ensures forall k :: 0 <= k < |old(conns)| && old(conns)[k] != c ==>
                old(conns)[k].state == Moved(old(c.Now()), io, k, old(conns[k].Now()))
      ensures if old(Joins(c, io))
              then |conns| > 0 && conns[1..] == old(conns) && fresh(conns[0]) && IsNew(conns[0].Now(), io)
              else forall d :: d in conns ==> d in old(conns)
    {
      ok := true;
      if io.RtspRequest? {
        CommandMoves(c.Now(), io, Nows(conns));
        ok := ParseRtspRequest(c, io.command, io.replyOk);
      } else {
        NothingMoves(c.Now(), io, Nows(conns));
      }
    }

    // handle_connection; ok is false where it returns -1.
    method HandleConnection(c: HttpContext, io: Io) returns (ok: bool)
      requires c in conns && Valid() && Knows(io)
      modifies this, conns, streams
      ensures c in conns && if ok then Valid() else ValidBut(c)
      ensures ok <==> !Closes(old(c.state), old(c.httpError), io)
      ensures ok && !old(Asks(c, io)) ==> c.state == Stepped(old(c.state), io)
      ensures forall d :: d in conns ==> d in old(conns) || fresh(d)
      ensures !old(Commands(c, io)) ==> conns == old(conns)
      ensures forall d :: d in old(conns) ==> (d in conns <==> !old(StepEnds(c, io, d)))
      ensures forall k :: 0 <= k < |old(conns)| && old(conns)[k] != c ==>
                old(conns)[k].Now() == old(conns[k].Now()).(state := Moved(old(c.Now()), io, k, old(conns[k].Now())))
      ensures if old(Joins(c, io))
              then |conns| > 0 && conns[1..] == old(conns) && fresh(conns[0]) && IsNew(conns[0].Now(), io)
              else forall d :: d in conns ==> d in old(conns)
      ensures ok && old(Asks(c, io)) ==>
                && currentBandwidth == old(currentBandwidth) + Price(io.request)
                && var code := Code(io.request, old(Taken(io.request)), currentBandwidth, maxBandwidth);
                   && c.state == (if code.None? then ReceiveData else SendHeader)
                   && c.httpError == (if code.None? then 0 else code.value)
                   && c.stream == Given(io.request, old(Taken(io.request)))
      ensures !old(Asks(c, io)) ==> c.stream == old(c.stream) && c.httpError == old(c.httpError)
      // a packet or the end of a feed moves those that wait for it, and no other
      ensures old(c.state).ReceiveData? && io.Packet? ==>
                forall k :: 0 <= k < |old(conns)| && old(conns)[k] != c ==>
                  old(conns)[k].state ==
                  if WaitsFor(old(conns[k].Now()), old(c.Now())) then SendData else old(conns[k].state)
      ensures old(c.state).ReceiveData? && io.FeedFailed? ==>
                forall k :: 0 <= k < |old(conns)| && old(conns)[k] != c ==>
                  old(conns)[k].state ==
                  if WaitsFor(old(conns[k].Now()), old(c.Now())) then SendDataTrailer else old(conns[k].state)
    {
      if !io.Broken? && c.state.HttpWaitRequest? {
        ok := ReadHttp(c, io);
      } else if !io.Broken? && c.state.RtspWaitRequest? {
        ok := ReadRtsp(c, io);
      } else {
        ok := Transfer(c, io);
      }
    }

    // The states that send or receive, and every state of a broken connection.
    method Transfer(c: HttpContext, io: Io) returns (ok: bool)
      requires c in conns && Valid() && (io.Broken? || !(c.state.HttpWaitRequest? || c.state.RtspWaitRequest?))
      modifies conns`state, streams
      ensures if ok then Valid() else ValidBut(c)
      ensures ok <==> !Closes(old(c.state), c.httpError, io)
      ensures old(c.state).ReceiveData? ==> c.state.ReceiveData?
      ensures ok ==> c.state == Stepped(old(c.state), io)
      ensures forall k :: 0 <= k < |conns| && conns[k] != c ==>
                conns[k].state == Moved(old(c.Now()), io, k, old(conns[k].Now()))
    {
      ok := true;
      if io.Broken? {
        ok := c.state.Ready?;
      } else if c.state.ReceiveData? {
        ok := Receive(c, io);
      } else if !c.state.WaitFeed? && !c.state.Ready? {
        ok := SendStep(c, io);
      }
    }

    // One turn of the poll loop for connection c: what handle_connection fails is closed.
    method Poll(c: HttpContext, io: Io)
      requires c in conns && Valid() && Knows(io)
      modifies this, conns, streams
      ensures Valid()
      ensures forall d :: d in conns ==> d in old(conns) || fresh(d)
      ensures c !in conns <==> Closes(old(c.state), old(c.httpError), io)
      ensures forall d :: d in old(conns) && d != c ==> (d in conns <==> !old(StepEnds(c, io, d)))
      ensures forall k :: 0 <= k < |old(conns)| && old(conns)[k] != c ==>
                old(conns)[k].Now() == old(conns[k].Now()).(state := Moved(old(c.Now()), io, k, old(conns[k].Now())))
      ensures c in conns && !old(Asks(c, io)) ==> c.Now() == old(c.Now()).(state := Stepped(old(c.state), io))
      ensures c in conns && old(Asks(c, io)) ==>
                && currentBandwidth == old(currentBandwidth) + Price(io.request)
                && var code := Code(io.request, old(Taken(io.request)), currentBandwidth, maxBandwidth);
                   && c.state == (if code.None? then ReceiveData else SendHeader)
                   && c.httpError == (if code.None? then 0 else code.value)
                   && c.stream == Given(io.request, old(Taken(io.request)))
      ensures old(Joins(c, io)) ==> exists d :: d in conns && d !in old(conns)
      ensures forall d :: d in conns && d !in old(conns) ==> old(Joins(c, io)) && IsNew(d.Now(), io)
      // a packet or the end of a feed moves those that wait for it, and no other
      ensures old(c.state).ReceiveData? && io.Packet? ==>
                forall k :: 0 <= k < |old(conns)| && old(conns)[k] != c ==>
                  old(conns)[k].state ==
                  if WaitsFor(old(conns[k].Now()), old(c.Now())) then SendData else old(conns[k].state)
      ensures old(c.state).ReceiveData? && io.FeedFailed? ==>
                forall k :: 0 <= k < |old(conns)| && old(conns)[k] != c ==>
                  old(conns)[k].state ==
                  if WaitsFor(old(conns[k].Now()), old(c.Now())) then SendDataTrailer else old(conns[k].state)
    {
      ghost var joined := Joins(c, io);
      var ok := HandleConnection(c, io);
      ghost var added := if joined then conns[0] else c;
      if !ok {
        Drop(c);
      }
      assert joined ==> added in conns;
    }

    method Drop(c: HttpContext)
      requires c in conns && ValidBut(c)
      modifies this`conns, this`nbConnections, this`currentBandwidth, streams
      ensures Valid() && forall d :: d in conns <==> d in old(conns) && d != c
    {
      CloseConnection(c);
    }

    // In any valid state a feed is open exactly when one listed connection receives it, and never two.
    lemma OneWriter(f: FFStream)
      requires Valid() && f in streams
      ensures f.feedOpened <==> exists c :: c in conns && Receives(c, f)
      ensures forall c, d :: c in conns && d in conns && Receives(c, f) && Receives(d, f) ==> c == d
    {
      assert Flagged(f);
      assert f.writer != null ==> Receives(f.writer, f);
      forall c | c in conns && Receives(c, f)
        ensures c == f.writer
      {
        assert Placed(c);
      }
    }
  }
}
