// An RTSP socket shared by several RTP sessions that come and go: what every step keeps,
// and the one step that does not.

module RtspSharing {
  import opened Bytes
  import opened Wrappers
  import opened RtspSocket

  datatype Step =
    | GetRequest(bytes: seq<byte>, answer: Option<seq<byte>>)
    | PutReply(n: nat)
    | PutPacket(n: nat)
    | Join                                                    // a SETUP over this connection
    | Leave(session: nat, memory: seq<byte>)                  // the session is closed; freed memory reads so
    | NewFrame(session: nat, frame: seq<seq<byte>>, index: nat)
    | Send(session: nat, turns: seq<Turn>)

  // ---------------------------------------------------------------- what every step keeps

  // A packet in progress is sent from the buffer of a session that is there.
  ghost predicate Backed(socket: Socket, sessions: seq<Session>)
    reads socket
  {
    socket.state == SendPacket ==> exists s :: s in sessions && s.id == socket.owner
  }

  // joined counts the sessions that ever shared the socket; their numbers are below it.
  ghost predicate Sharing(socket: Socket, sessions: seq<Session>, joined: nat)
    reads socket, sessions, set s | s in sessions && s.rtsp != null :: s.rtsp
  {
    && socket.Valid() && Backed(socket, sessions)
    && (forall s :: s in sessions ==> s.rtsp == socket && s.Valid() && s.id < joined)
    && (forall i, j :: 0 <= i < j < |sessions| ==> sessions[i] != sessions[j] && sessions[i].id != sessions[j].id)
    && (forall o :: o >= joined ==> PacketsOf(socket.units, o) == [])
  }

  // A session that left, with all it had prepared.
  datatype Past = Past(id: nat, produced: seq<seq<byte>>)

  ghost predicate PastOk(units: seq<Unit>, sessions: seq<Session>, joined: nat, past: seq<Past>) {
    forall p :: p in past ==>
      && p.id < joined && PacketsOf(units, p.id) <= p.produced
      && forall s :: s in sessions ==> s.id != p.id
  }

  // A step that moves no packets but those of one present session leaves the past alone.
  lemma PastKept(units: seq<Unit>, units': seq<Unit>, sessions: seq<Session>, joined: nat, past: seq<Past>, s: Session)
    requires PastOk(units, sessions, joined, past) && s in sessions
    requires forall o :: o != s.id ==> PacketsOf(units', o) == PacketsOf(units, o)
    ensures PastOk(units', sessions, joined, past)
  {
  }

  // The step closes the session whose packet is being sent.
  predicate MidLeave(socket: Socket, sessions: seq<Session>, step: Step)
    reads socket
  {
    step.Leave? && step.session < |sessions| && socket.SendsFrom(sessions[step.session].id)
  }

  // ---------------------------------------------------------------- what each step does

  // The socket; left is how much of its last unit is still to be sent.
  datatype Line = Line(state: State, left: nat, sent: seq<byte>, units: seq<Unit>)

  datatype Queue = Queue(id: nat, index: nat, packets: seq<seq<byte>>, produced: seq<seq<byte>>)

  ghost function LineOf(socket: Socket): Line
    reads socket
  {
    Line(socket.state, |socket.Unsent()|, socket.sent, socket.units)
  }

  ghost function QueueOf(s: Session): Queue
    reads s
  {
    Queue(s.id, s.streamIndex, s.packets, s.produced)
  }

  ghost function Queues(sessions: seq<Session>): (q: seq<Queue>)
    reads sessions
    ensures |q| == |sessions| && forall i :: 0 <= i < |sessions| ==> q[i] == QueueOf(sessions[i])
  {
    seq(|sessions|, i requires 0 <= i < |sessions| reads sessions => QueueOf(sessions[i]))
  }

  lemma QueuesWithout(sessions: seq<Session>, k: nat)
    requires k < |sessions|
    ensures Queues(sessions[..k] + sessions[k + 1..]) == Queues(sessions)[..k] + Queues(sessions)[k + 1..]
  {
  }

  // A step of the socket's own connection: a complete request starts its reply, and what is
  // in progress is sent on.
  ghost predicate SocketStep(a: Line, step: Step, b: Line) {
    match step
    case GetRequest(_, answer) =>
      && b.sent == a.sent
      && (if a.state == WaitRequest && answer.Some? then
            b.state == SendReply && b.units == a.units + [Reply(answer.value)] && b.left == |answer.value|
          else b == a)
    case PutReply(n) => if a.state == SendReply && n <= a.left then SentOn(a, n, b) else b == a
    case PutPacket(n) => if a.state == SendPacket && n <= a.left then SentOn(a, n, b) else b == a
    case _ => b == a
  }

  ghost predicate SentOn(a: Line, n: nat, b: Line)
    requires n <= a.left
  {
    && b.units == a.units && a.sent <= b.sent && |b.sent| == |a.sent| + n && b.left == a.left - n
    && b.state == if n == a.left then WaitRequest else a.state
  }

  // A new frame waits in an empty buffer.
  function WithFrame(q: Queue, frame: seq<seq<byte>>, index: nat): Queue {
    if q.packets == [] && forall p | p in frame :: |p| < 0x10000 then
      Queue(q.id, index, frame, q.produced + frame)
    else q
  }

  // How many packets of a session a step of it starts.
  function Starting(a: Line, q: Queue, turns: seq<Turn>): (n: nat)
    ensures n <= |q.packets| && n <= |turns|
  {
    if a.state == WaitRequest then Going(q.packets, turns) else 0
  }

  // A session's packets leave its queue and start on the socket, in order.
  ghost predicate SendStep(a: Line, q: Queue, turns: seq<Turn>, b: Line, r: Queue) {
    var n := Starting(a, q, turns);
    && r == q.(packets := q.packets[n..])
    && a.sent <= b.sent && (a.state != WaitRequest ==> b == a)
    && (a.state == WaitRequest ==>
          && b.left == Rest(q.packets, turns, n)
          && b.state == if b.left == 0 then WaitRequest else SendPacket)
    && b.units == a.units + UnitsFor(q.id, q.index * 2 % 256, q.packets[..n])
  }

  // What a step makes of the socket and the queues.
  ghost predicate Follows(a: Line, qs: seq<Queue>, step: Step, b: Line, rs: seq<Queue>) {
    match step
    case Join => b == a && |rs| == |qs| + 1 && rs[..|qs|] == qs && rs[|qs|].produced == []
    case Leave(k, _) => b == a && rs == if k < |qs| then qs[..k] + qs[k + 1..] else qs
    case NewFrame(k, frame, index) => b == a && rs == if k < |qs| then qs[k := WithFrame(qs[k], frame, index)] else qs
    case Send(k, turns) =>
      if k < |qs| then |rs| == |qs| && rs == qs[k := rs[k]] && SendStep(a, qs[k], turns, b, rs[k])
      else b == a && rs == qs
    case _ => SocketStep(a, step, b) && rs == qs
  }

  // As many bytes go out as were taken of what is in progress, and the last one frees the
  // socket; a complete request starts its whole reply, behind all that was sent.
  lemma SocketMoves(a: Line, qs: seq<Queue>, step: Step, b: Line, rs: seq<Queue>)
    requires Follows(a, qs, step, b, rs)
    ensures (step.PutReply? && a.state == SendReply) || (step.PutPacket? && a.state == SendPacket) ==>
              step.n <= a.left ==>
                && |b.sent| == |a.sent| + step.n && b.left == a.left - step.n && b.units == a.units
                && (b.state == WaitRequest <==> step.n == a.left)
    ensures step.GetRequest? && a.state == WaitRequest && step.answer.Some? ==>
              && b.units == a.units + [Reply(step.answer.value)]
              && b.left == |step.answer.value| && b.state == SendReply && b.sent == a.sent
  {
  }

  // A frame of packets that can be framed fills an empty queue.
  lemma FrameWaits(a: Line, qs: seq<Queue>, step: Step, b: Line, rs: seq<Queue>)
    requires step.NewFrame? && step.session < |qs| && Follows(a, qs, step, b, rs)
    requires qs[step.session].packets == [] && forall p :: p in step.frame ==> |p| < 65536
    ensures var (q, r) := (qs[step.session], rs[step.session]);
            r.packets == step.frame && r.produced == q.produced + step.frame && r.id == q.id
  {
  }

  // A packet that is due starts on a free socket, on the even channel of its stream; and the
  // socket is locked exactly if the last one started is not sent whole.
  lemma DuePacketStarts(a: Line, qs: seq<Queue>, step: Step, b: Line, rs: seq<Queue>)
    requires step.Send? && step.session < |qs| && Follows(a, qs, step, b, rs) && a.state == WaitRequest
    requires qs[step.session].packets != [] && step.turns != [] && step.turns[0].Takes?
    ensures var (q, r) := (qs[step.session], rs[step.session]);
            var n := |q.packets| - |r.packets|;
            && 0 < n <= |step.turns| && r.packets == q.packets[n..] && |b.units| == |a.units| + n
            && b.units[|a.units|] == Packet(q.id, q.index * 2 % 256, q.packets[0])
            && step.turns[n - 1].Takes?
            && (b.state == SendPacket <==> step.turns[n - 1].n < |q.packets[n - 1]| + 4)
  {
    var q := qs[step.session];
    var n := Starting(a, q, step.turns);
    GoingIff(q.packets, step.turns, n);
    assert UnitsFor(q.id, q.index * 2 % 256, q.packets[..n])[0] == Packet(q.id, q.index * 2 % 256, q.packets[0]);
  }

  lemma FollowsGrows(a: Line, qs: seq<Queue>, step: Step, b: Line, rs: seq<Queue>)
    requires Follows(a, qs, step, b, rs)
    ensures a.sent <= b.sent && a.units <= b.units
  {
  }

  // ---------------------------------------------------------------- the steps

  method TouchSocket(socket: Socket, step: Step)
    requires socket.Valid() && (step.GetRequest? || step.PutReply? || step.PutPacket?)
    modifies socket
    ensures socket.Valid() && SocketStep(old(LineOf(socket)), step, LineOf(socket))
    ensures socket.state == SendPacket ==> old(socket.state) == SendPacket && socket.owner == old(socket.owner)
    ensures forall o :: PacketsOf(socket.units, o) == old(PacketsOf(socket.units, o))
  {
    if step.GetRequest? {
      if socket.state == WaitRequest {
        socket.ReadRequest(step.bytes, step.answer);
      }
    } else if step.PutReply? {
      if socket.state == SendReply && step.n <= |socket.reply| {
        socket.WriteReply(step.n);
      }
    } else if socket.state == SendPacket && step.n <= |socket.packet| {
      socket.WritePacket(step.n);
    }
  }

  // A step of the socket's own connection.
  method TakeSocket(socket: Socket, sessions: seq<Session>, ghost joined: nat, step: Step)
    requires Sharing(socket, sessions, joined)
    requires step.GetRequest? || step.PutReply? || step.PutPacket?
    modifies socket
    ensures Sharing(socket, sessions, joined)
    ensures forall o :: PacketsOf(socket.units, o) == old(PacketsOf(socket.units, o))
    ensures Follows(old(LineOf(socket)), old(Queues(sessions)), step, LineOf(socket), Queues(sessions))
  {
    TouchSocket(socket, step);
    assert Queues(sessions) == old(Queues(sessions));
  }

  method TouchSession(session: Session, socket: Socket, step: Step)
    requires session.rtsp == socket && session.Valid() && socket.Valid() && (step.NewFrame? || step.Send?)
    modifies session, socket
    ensures session.Valid() && socket.Valid() && session.rtsp == socket
    ensures forall o :: o != session.id ==> PacketsOf(socket.units, o) == old(PacketsOf(socket.units, o))
    ensures old(socket.state) == SendPacket ==> socket.state == SendPacket && socket.owner == old(socket.owner)
    ensures old(socket.state) != SendPacket && socket.state == SendPacket ==> socket.SendsFrom(session.id)
    ensures step.NewFrame? ==>
              && LineOf(socket) == old(LineOf(socket))
              && QueueOf(session) == WithFrame(old(QueueOf(session)), step.frame, step.index)
    ensures step.Send? ==>
              SendStep(old(LineOf(socket)), old(QueueOf(session)), step.turns, LineOf(socket), QueueOf(session))
  {
    if step.NewFrame? {
      if session.buffer == [] && forall p | p in step.frame :: |p| < 0x10000 {
        session.Prepare(step.frame, step.index);
      }
    } else {
      SendTurns(session, socket, step.turns);
    }
  }

  method SendTurns(session: Session, socket: Socket, turns: seq<Turn>)
    requires session.rtsp == socket && session.Valid() && socket.Valid()
    modifies session, socket
    ensures session.Valid() && socket.Valid() && session.rtsp == socket
    ensures session.OthersAs(old(socket.units))
    ensures old(socket.state) != WaitRequest ==> unchanged(socket)
    ensures old(socket.state) == WaitRequest ==> socket.state == WaitRequest || socket.SendsFrom(session.id)
    ensures SendStep(old(LineOf(socket)), old(QueueOf(session)), turns, LineOf(socket), QueueOf(session))
  {
    ghost var (line, queue) := (LineOf(socket), QueueOf(session));
    var ret := session.SendData(turns);
    if line.state != WaitRequest {
      NothingSent(line, queue, turns);
    } else {
      assert socket.units ==
             line.units + UnitsFor(queue.id, queue.index * 2 % 256, queue.packets[..Going(queue.packets, turns)]);
    }
  }

  lemma NothingSent(a: Line, q: Queue, turns: seq<Turn>)
    requires a.state != WaitRequest
    ensures SendStep(a, q, turns, a, q)
  {
    assert UnitsFor(q.id, q.index * 2 % 256, q.packets[..0]) == [];
    assert a.units + [] == a.units;
  }

  // A step of session k.
  method TakeSession(socket: Socket, sessions: seq<Session>, k: nat, ghost joined: nat, step: Step)
    requires Sharing(socket, sessions, joined)
    requires k < |sessions| && (step.NewFrame? || step.Send?) && step.session == k
    modifies socket, sessions[k]
    ensures Sharing(socket, sessions, joined)
    ensures forall o :: o != sessions[k].id ==> PacketsOf(socket.units, o) == old(PacketsOf(socket.units, o))
    ensures Follows(old(LineOf(socket)), old(Queues(sessions)), step, LineOf(socket), Queues(sessions))
  {
    var session := sessions[k];
    assert session in sessions;
    ghost var before, line := Queues(sessions), LineOf(socket);
    TouchSession(session, socket, step);
    forall j | 0 <= j < |sessions|
      ensures sessions[j].rtsp == socket && sessions[j].Valid()
      ensures j != k ==> QueueOf(sessions[j]) == before[j]
    {
      if j != k {
        assert sessions[j] != session && sessions[j].id != session.id;
        assert old(sessions[j].Valid());
      }
    }
    SessionFollows(line, before, k, step, LineOf(socket), QueueOf(session), Queues(sessions));
  }

  lemma SessionFollows(a: Line, qs: seq<Queue>, k: nat, step: Step, b: Line, r: Queue, rs: seq<Queue>)
    requires k < |qs| == |rs| && (step.NewFrame? || step.Send?) && step.session == k
    requires rs[k] == r && forall j :: 0 <= j < |qs| && j != k ==> rs[j] == qs[j]
    requires step.NewFrame? ==> b == a && r == WithFrame(qs[k], step.frame, step.index)
    requires step.Send? ==> SendStep(a, qs[k], step.turns, b, r)
    ensures Follows(a, qs, step, b, rs)
  {
    assert rs == qs[k := r];
  }

  lemma Joined(socket: Socket, sessions: seq<Session>, joined: nat, s: Session)
    requires Sharing(socket, sessions, joined)
    requires s !in sessions && s.rtsp == socket && s.Valid() && s.id == joined
    ensures Sharing(socket, sessions + [s], joined + 1)
  {
    var more := sessions + [s];
    assert forall i :: 0 <= i < |sessions| ==> more[i] == sessions[i] && more[i] in sessions;
    assert forall t :: t in sessions ==> t in more;
  }

  method JoinSocket(socket: Socket, sessions: seq<Session>, joined: nat, ghost past: seq<Past>)
    returns (more: seq<Session>)
    requires Sharing(socket, sessions, joined) && PastOk(socket.units, sessions, joined, past)
    ensures |more| == |sessions| + 1 && forall s :: s in more ==> s in sessions || fresh(s)
    ensures Sharing(socket, more, joined + 1) && PastOk(socket.units, more, joined + 1, past)
    ensures Follows(LineOf(socket), old(Queues(sessions)), Join, LineOf(socket), Queues(more))
  {
    var s := new Session(joined, socket);
    Joined(socket, sessions, joined, s);
    more := sessions + [s];
    assert Queues(more)[..|sessions|] == Queues(sessions);
  }

  lemma StillThere<T>(s: seq<T>, k: nat, x: T)
    requires k < |s| && x in s && x != s[k]
    ensures x in s[..k] + s[k + 1..]
  {
    var j :| 0 <= j < |s| && s[j] == x;
    assert (s[..k] + s[k + 1..])[if j < k then j else j - 1] == x;
  }

  // Without session k a packet in progress is still backed if and only if it is not the one
  // whose packet is being sent.
  lemma BackedWithout(socket: Socket, sessions: seq<Session>, k: nat, joined: nat)
    requires Sharing(socket, sessions, joined) && k < |sessions|
    ensures Backed(socket, sessions[..k] + sessions[k + 1..]) <==> !socket.SendsFrom(sessions[k].id)
  {
    Without(socket, sessions, k, joined);
    if socket.state == SendPacket && socket.owner != sessions[k].id {
      var s :| s in sessions && s.id == socket.owner;
      StillThere(sessions, k, s);
    }
  }

  lemma Without(socket: Socket, sessions: seq<Session>, k: nat, joined: nat)
    requires Sharing(socket, sessions, joined) && k < |sessions|
    ensures var rest := sessions[..k] + sessions[k + 1..];
            && (forall s :: s in rest ==> s in sessions && s.id != sessions[k].id)
            && forall i, j :: 0 <= i < j < |rest| ==> rest[i] != rest[j] && rest[i].id != rest[j].id
  {
    var rest := sessions[..k] + sessions[k + 1..];
    assert forall i :: 0 <= i < |rest| ==> rest[i] == sessions[if i < k then i else i + 1];
  }

  // And so do the others go on sharing the socket.
  lemma LeaveSocket(socket: Socket, sessions: seq<Session>, k: nat, joined: nat)
    requires Sharing(socket, sessions, joined) && k < |sessions|
    ensures Sharing(socket, sessions[..k] + sessions[k + 1..], joined) <==> !socket.SendsFrom(sessions[k].id)
    ensures sessions[k].id < joined && PacketsOf(socket.units, sessions[k].id) <= sessions[k].produced
  {
    BackedWithout(socket, sessions, k, joined);
    Without(socket, sessions, k, joined);
    assert sessions[k] in sessions;
  }

  // n bytes of freed memory.
  function Reads(memory: seq<byte>, n: nat): (r: seq<byte>)
    ensures |r| == n
  {
    seq(n, i requires 0 <= i < n => if i < |memory| then memory[i] else 0)
  }

  // A session is closed between its packets.
  lemma LeaveBetween(socket: Socket, sessions: seq<Session>, k: nat, joined: nat, past: seq<Past>)
    requires Sharing(socket, sessions, joined) && PastOk(socket.units, sessions, joined, past)
    requires k < |sessions| && !socket.SendsFrom(sessions[k].id)
    ensures var rest := sessions[..k] + sessions[k + 1..];
            && Sharing(socket, rest, joined)
            && PastOk(socket.units, rest, joined, past + [Past(sessions[k].id, sessions[k].produced)])
            && forall memory ::
                 Follows(LineOf(socket), Queues(sessions), Leave(k, memory), LineOf(socket), Queues(rest))
  {
    LeaveSocket(socket, sessions, k, joined);
    Without(socket, sessions, k, joined);
    QueuesWithout(sessions, k);
  }

  // A session is closed in the middle of its packet: the sharing is lost, and what goes out
  // next is the packet if and only if the freed memory still reads as it.
  method LeaveInside(socket: Socket, sessions: seq<Session>, k: nat, ghost joined: nat, memory: seq<byte>)
    requires Sharing(socket, sessions, joined) && k < |sessions| && socket.SendsFrom(sessions[k].id)
    modifies socket`packet
    ensures !Backed(socket, sessions[..k] + sessions[k + 1..])
    ensures socket.packet == Reads(memory, |old(socket.packet)|)
    ensures socket.Valid() <==> socket.packet == old(socket.packet)
  {
    BackedWithout(socket, sessions, k, joined);
    socket.Free(Reads(memory, |socket.packet|));
  }

  // Any step but a leave in the middle of a packet.
  method Take(socket: Socket, sessions: seq<Session>, joined: nat, ghost past: seq<Past>, step: Step)
    returns (sessions': seq<Session>, joined': nat, ghost past': seq<Past>)
    requires Sharing(socket, sessions, joined) && PastOk(socket.units, sessions, joined, past)
    requires !MidLeave(socket, sessions, step)
    modifies socket, sessions
    ensures Sharing(socket, sessions', joined') && PastOk(socket.units, sessions', joined', past')
    ensures forall s :: s in sessions' ==> s in sessions || fresh(s)
    ensures joined' == joined + |past'| - |past| + |sessions'| - |sessions|
    ensures Follows(old(LineOf(socket)), old(Queues(sessions)), step, LineOf(socket), Queues(sessions'))
  {
    sessions', joined', past' := sessions, joined, past;
    if step.Join? {
      sessions' := JoinSocket(socket, sessions, joined, past);
      joined' := joined + 1;
    } else if step.Leave? {
      if step.session < |sessions| {
        var k := step.session;
        LeaveBetween(socket, sessions, k, joined, past);
        sessions' := sessions[..k] + sessions[k + 1..];
        past' := past + [Past(sessions[k].id, sessions[k].produced)];
        assert forall s :: s in sessions' ==> s in sessions;
      }
    } else if step.NewFrame? || step.Send? {
      if step.session < |sessions| {
        var s := sessions[step.session];
        ghost var units := socket.units;
        TakeSession(socket, sessions, step.session, joined, step);
        PastKept(units, socket.units, sessions, joined, past, s);
      }
    } else {
      TakeSocket(socket, sessions, joined, step);
    }
  }

  // Any step at all: it leaves a packet in progress backed, and the sharing whole, if and
  // only if it is no leave in the middle of a packet; after one, what goes out next is the
  // packet if and only if the freed memory still reads as it.
  method TakeAny(socket: Socket, sessions: seq<Session>, joined: nat, ghost past: seq<Past>, step: Step)
    returns (sessions': seq<Session>, joined': nat, ghost past': seq<Past>)
    requires Sharing(socket, sessions, joined) && PastOk(socket.units, sessions, joined, past)
    modifies socket, sessions
    ensures Sharing(socket, sessions', joined') <==> !old(MidLeave(socket, sessions, step))
    ensures Backed(socket, sessions') <==> !old(MidLeave(socket, sessions, step))
    ensures old(MidLeave(socket, sessions, step)) ==>
              && socket.packet == Reads(step.memory, |old(socket.packet)|)
              && (socket.Valid() <==> socket.packet == old(socket.packet))
  {
    if MidLeave(socket, sessions, step) {
      LeaveInside(socket, sessions, step.session, joined, step.memory);
      sessions' := sessions[..step.session] + sessions[step.session + 1..];
      joined', past' := joined, past;
    } else {
      sessions', joined', past' := Take(socket, sessions, joined, past, step);
    }
  }

  // ---------------------------------------------------------------- every run

  datatype Snap = Snap(line: Line, queues: seq<Queue>)

  ghost function Now(socket: Socket, sessions: seq<Session>): Snap
    reads socket, sessions
  {
    Snap(LineOf(socket), Queues(sessions))
  }

  // A trace of the first at steps.
  ghost predicate Traced(trace: seq<Snap>, steps: seq<Step>, at: nat) {
    && |trace| == at + 1 && at <= |steps|
    && forall i :: 0 <= i < at ==>
         Follows(trace[i].line, trace[i].queues, steps[i], trace[i + 1].line, trace[i + 1].queues)
  }

  lemma TracedStep(trace: seq<Snap>, steps: seq<Step>, at: nat, s: Snap)
    requires Traced(trace, steps, at) && at < |steps|
    requires Follows(trace[at].line, trace[at].queues, steps[at], s.line, s.queues)
    ensures Traced(trace + [s], steps, at + 1)
  {
    var t := trace + [s];
    forall i | 0 <= i < at + 1
      ensures Follows(t[i].line, t[i].queues, steps[i], t[i + 1].line, t[i + 1].queues)
    {
      assert i < at ==> t[i] == trace[i] && t[i + 1] == trace[i + 1];
    }
  }

  // Over a trace what was sent and what was started only grow.
  lemma {:induction false} TracedGrows(trace: seq<Snap>, steps: seq<Step>, at: nat)
    requires Traced(trace, steps, at)
    ensures trace[0].line.sent <= trace[at].line.sent && trace[0].line.units <= trace[at].line.units
  {
    if at > 0 {
      TracedGrows(trace[..at], steps, at - 1);
      var (a, b) := (trace[at - 1], trace[at]);
      FollowsGrows(a.line, a.queues, steps[at - 1], b.line, b.queues);
    }
  }

  lemma SharingMeans(socket: Socket, sessions: seq<Session>, joined: nat)
    requires Sharing(socket, sessions, joined)
    ensures socket.sent <= Stream(socket.units)
    ensures forall s :: s in sessions ==> PacketsOf(socket.units, s.id) <= s.produced
  {
  }

  // One step more of a trace.
  method TakeTraced(socket: Socket, sessions: seq<Session>, joined: nat, ghost past: seq<Past>, ghost trace: seq<Snap>,
                    steps: seq<Step>, at: nat)
    returns (sessions': seq<Session>, joined': nat, ghost past': seq<Past>, ghost trace': seq<Snap>)
    requires Sharing(socket, sessions, joined) && PastOk(socket.units, sessions, joined, past)
    requires Traced(trace, steps, at) && trace[at] == Now(socket, sessions)
    requires at < |steps| && !MidLeave(socket, sessions, steps[at])
    modifies socket, sessions
    ensures Sharing(socket, sessions', joined') && PastOk(socket.units, sessions', joined', past')
    ensures forall j :: 0 <= j < |sessions'| ==> sessions'[j] in sessions || fresh(sessions'[j])
    ensures joined' == joined + |past'| - |past| + |sessions'| - |sessions|
    ensures Traced(trace', steps, at + 1) && trace' == trace + [Now(socket, sessions')]
  {
    sessions', joined', past' := Take(socket, sessions, joined, past, steps[at]);
    TracedStep(trace, steps, at, Now(socket, sessions'));
    trace' := trace + [Now(socket, sessions')];
    assert forall j :: 0 <= j < |sessions'| ==> sessions'[j] in sessions';
  }

  // Under any schedule of socket events and sessions, with sessions joining and leaving, up
  // to the first step that closes a session in the middle of its packet: the bytes sent are
  // a prefix of whole replies and whole frames, and every session's packets are framed once,
  // in order, up to where it left.  trace says what each step did.
  method Serve(socket: Socket, sessions0: seq<Session>, joined0: nat, steps: seq<Step>)
    returns (sessions: seq<Session>, joined: nat, at: nat, ghost past: seq<Past>, ghost trace: seq<Snap>)
    requires Sharing(socket, sessions0, joined0)
    modifies socket, sessions0
    ensures Sharing(socket, sessions, joined) && PastOk(socket.units, sessions, joined, past)
    ensures socket.sent <= Stream(socket.units)
    ensures forall s :: s in sessions ==> PacketsOf(socket.units, s.id) <= s.produced
    ensures joined == joined0 + |past| + |sessions| - |sessions0|
    ensures at <= |steps| && (at < |steps| ==> MidLeave(socket, sessions, steps[at]))
    ensures Traced(trace, steps, at) && trace[0] == old(Now(socket, sessions0)) && trace[at] == Now(socket, sessions)
    ensures old(socket.sent) <= socket.sent && old(socket.units) <= socket.units
  {
    sessions, joined, at, past := sessions0, joined0, 0, [];
    trace := [Now(socket, sessions)];
    while at < |steps| && !MidLeave(socket, sessions, steps[at])
      invariant at <= |steps| && Sharing(socket, sessions, joined) && PastOk(socket.units, sessions, joined, past)
      invariant forall j :: 0 <= j < |sessions| ==> sessions[j] in sessions0 || fresh(sessions[j])
      invariant joined == joined0 + |past| + |sessions| - |sessions0|
      invariant Traced(trace, steps, at) && trace[0] == old(Now(socket, sessions0))
      invariant trace[at] == Now(socket, sessions)
    {
      sessions, joined, past, trace := TakeTraced(socket, sessions, joined, past, trace, steps, at);
      at := at + 1;
    }
    TracedGrows(trace, steps, at);
    SharingMeans(socket, sessions, joined);
  }

  // A run that ends so: two bytes of a frame go out, its session is closed, and the memory
  // that was its buffer goes out behind them.
  method LeaveInMidPacket() returns (socket: Socket)
    ensures fresh(socket) && socket.state == WaitRequest
    ensures !(socket.sent <= Stream(socket.units))
  {
    socket := new Socket();
    PartlySend(socket);
    socket.Free([9, 9, 9]);
    socket.WritePacket(3);
    OnlyUnit(Packet(0, 0, [7]));
    Astray(socket.sent, Stream(socket.units));
  }

  method PartlySend(socket: Socket)
    requires socket.Valid() && socket.state == WaitRequest && socket.units == []
    modifies socket
    ensures socket.Valid() && socket.SendsFrom(0) && |socket.sent| == 2 && |socket.packet| == 3
    ensures socket.units == [Packet(0, 0, [7])]
  {
    assert socket.sent == [];
    var locked := socket.BeginPacket(0, 0, [7], 2);
    assert socket.units == [Packet(0, 0, [7])];
    OnlyUnit(Packet(0, 0, [7]));
    assert |socket.sent + socket.packet| == 5;
  }

  lemma Astray(sent: seq<byte>, frame: seq<byte>)
    requires |sent| == 5 && sent[2] == 9 && frame == Frame(0, [7])
    ensures !(sent <= frame)
  {
  }

  lemma OnlyUnit(u: Unit)
    ensures Stream([u]) == UnitBytes(u)
  {
    StreamAppend([], u);
    assert [] + [u] == [u];
  }
}
