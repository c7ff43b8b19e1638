// Runs of the server of ServerAccounts: what one turn of the poll loop makes of the list of
// connections, what a round over the list does, and any schedule of rounds, turns and new
// connections.

module ServerRuns {
  import opened Wrappers
  import opened ServerAccounts

  // ---------------------------------------------------------------- one turn

  // The server between two turns.
  datatype Snap = Snap(conns: seq<Conn>, bandwidth: int)

  // nb_max_connections, max_bandwidth
  datatype Limits = Limits(connections: nat, bandwidth: int)

  ghost predicate Lists(s: Snap, who: HttpContext) {
    exists i :: 0 <= i < |s.conns| && s.conns[i].who == who
  }

  // Some listed connection receives on the stream.
  ghost predicate Fed(s: Snap, f: FFStream) {
    exists i :: 0 <= i < |s.conns| && s.conns[i].state.ReceiveData? && s.conns[i].stream == f
  }

  // A turn of the connection at place at closes the one at place k: its own, or the session
  // a TEARDOWN names.
  predicate Ended(a: Snap, at: nat, io: Io, k: nat)
    requires at < |a.conns| && k < |a.conns|
  {
    var c := a.conns[at];
    if k == at then Closes(c.state, c.httpError, io)
    else c.state.RtspWaitRequest? && io.RtspRequest? && io.command == Teardown(k) && a.conns[k].who.isPacketized
  }

  // What a turn makes of its own connection c.
  ghost predicate Owned(a: Snap, c: Conn, io: Io, m: Limits, b: Snap, c': Conn) {
    if c.state.HttpWaitRequest? && io.HttpRequest? then
      var r := io.request;
      var code := Code(r, r.stream != null && Fed(a, r.stream), a.bandwidth + Price(r), m.bandwidth);
      && b.bandwidth == a.bandwidth + Price(r)
      && c'.state == (if code.None? then ReceiveData else SendHeader)
      && c'.httpError == (if code.None? then 0 else code.value)
      && c'.stream == Given(r, r.stream != null && Fed(a, r.stream))
    else c' == c.(state := Stepped(c.state, io))
  }

  // A turn adds a session.
  predicate Adds(a: Snap, at: nat, io: Io, m: Limits)
    requires at < |a.conns|
  {
    && a.conns[at].state.RtspWaitRequest? && io.RtspRequest? && io.command.Setup?
    && |a.conns| < m.connections
  }

  // A turn of the connection at place at: who stays listed,
  ghost predicate Stays(a: Snap, at: nat, io: Io, b: Snap)
    requires at < |a.conns|
  {
    forall k :: 0 <= k < |a.conns| ==> (Lists(b, a.conns[k].who) <==> !Ended(a, at, io, k))
  }

  // in what state,
  ghost predicate Moves(a: Snap, at: nat, io: Io, m: Limits, b: Snap)
    requires at < |a.conns|
  {
    forall j, k :: 0 <= j < |b.conns| && 0 <= k < |a.conns| && b.conns[j].who == a.conns[k].who ==>
      if k == at then Owned(a, a.conns[at], io, m, b, b.conns[j])
      else b.conns[j] == a.conns[k].(state := Moved(a.conns[at], io, k, a.conns[k]))
  }

  // and who joins.
  ghost predicate Joined(a: Snap, at: nat, io: Io, m: Limits, b: Snap)
    requires at < |a.conns|
  {
    && (Adds(a, at, io, m) ==> exists j :: 0 <= j < |b.conns| && !Lists(a, b.conns[j].who))
    && (forall j :: 0 <= j < |b.conns| && !Lists(a, b.conns[j].who) ==>
          Adds(a, at, io, m) && IsNew(b.conns[j], io))
  }

  ghost predicate Turn(a: Snap, at: nat, io: Io, m: Limits, b: Snap) {
    at < |a.conns| && Stays(a, at, io, b) && Moves(a, at, io, m, b) && Joined(a, at, io, m, b)
  }

  // The snapshot is of these connections.
  ghost predicate Names(s: Snap, conns: seq<HttpContext>) {
    |s.conns| == |conns| && forall i :: 0 <= i < |conns| ==> s.conns[i].who == conns[i]
  }

  lemma ListsIff(s: Snap, conns: seq<HttpContext>, d: HttpContext)
    requires Names(s, conns)
    ensures Lists(s, d) <==> d in conns
  {
    if d in conns {
      var i :| 0 <= i < |conns| && conns[i] == d;
      assert s.conns[i].who == d;
    }
  }

  lemma OthersDiffer(before: seq<HttpContext>, at: nat)
    requires AllDistinct(before) && at < |before|
    ensures forall k :: 0 <= k < |before| && k != at ==> before[k] != before[at]
  {
  }

  // The session that a turn of the connection at place at tears down.
  predicate Torn(a: Snap, before: seq<HttpContext>, at: nat, io: Io, d: HttpContext)
    requires at < |a.conns|
  {
    && a.conns[at].state.RtspWaitRequest? && io.RtspRequest? && io.command.Teardown?
    && io.command.session < |before| && before[io.command.session].isPacketized && d == before[io.command.session]
  }

  lemma EndedFrom(a: Snap, before: seq<HttpContext>, at: nat, io: Io, after: seq<HttpContext>)
    requires Names(a, before) && AllDistinct(before) && at < |before|
    requires before[at] !in after <==> Closes(a.conns[at].state, a.conns[at].httpError, io)
    requires forall d :: d in before && d != before[at] ==> (d in after <==> !Torn(a, before, at, io, d))
    ensures forall k :: 0 <= k < |before| ==> (before[k] in after <==> !Ended(a, at, io, k))
  {
    forall k | 0 <= k < |before|
      ensures before[k] in after <==> !Ended(a, at, io, k)
    {
      assert before[k] in before && (k != at ==> before[k] != before[at]);
    }
  }

  lemma StaysFrom(a: Snap, before: seq<HttpContext>, at: nat, io: Io, b: Snap, after: seq<HttpContext>)
    requires Names(a, before) && Names(b, after) && at < |before|
    requires forall k :: 0 <= k < |before| ==> (before[k] in after <==> !Ended(a, at, io, k))
    ensures Stays(a, at, io, b)
  {
    forall k | 0 <= k < |a.conns|
      ensures Lists(b, a.conns[k].who) <==> !Ended(a, at, io, k)
    {
      ListsIff(b, after, before[k]);
    }
  }

  lemma OwnedFrom(a: Snap, c: Conn, io: Io, m: Limits, b: Snap, c': Conn, taken: bool)
    requires io.HttpRequest? ==> (taken <==> io.request.stream != null && Fed(a, io.request.stream))
    requires if c.state.HttpWaitRequest? && io.HttpRequest? then
               && b.bandwidth == a.bandwidth + Price(io.request)
               && var code := Code(io.request, taken, b.bandwidth, m.bandwidth);
                  && c'.state == (if code.None? then ReceiveData else SendHeader)
                  && c'.httpError == (if code.None? then 0 else code.value)
                  && c'.stream == Given(io.request, taken)
             else c' == c.(state := Stepped(c.state, io))
    ensures Owned(a, c, io, m, b, c')
  {
  }

  // now is what the connections that were listed before are after the turn.
  lemma MovesFrom(a: Snap, before: seq<HttpContext>, at: nat, io: Io, m: Limits, b: Snap,
                  after: seq<HttpContext>, now: seq<Conn>)
    requires Names(a, before) && Names(b, after) && |now| == |before| && at < |before|
    requires forall j, k :: 0 <= j < |after| && 0 <= k < |before| && after[j] == before[k] ==> b.conns[j] == now[k]
    requires before[at] in after ==> Owned(a, a.conns[at], io, m, b, now[at])
    requires forall k :: 0 <= k < |before| && k != at ==>
               now[k] == a.conns[k].(state := Moved(a.conns[at], io, k, a.conns[k]))
    ensures Moves(a, at, io, m, b)
  {
    forall j, k | 0 <= j < |b.conns| && 0 <= k < |a.conns| && b.conns[j].who == a.conns[k].who
      ensures if k == at then Owned(a, a.conns[at], io, m, b, b.conns[j])
              else b.conns[j] == a.conns[k].(state := Moved(a.conns[at], io, k, a.conns[k]))
    {
      assert after[j] == before[k];
    }
  }

  lemma JoinedFrom(a: Snap, before: seq<HttpContext>, at: nat, io: Io, m: Limits, b: Snap, after: seq<HttpContext>)
    requires Names(a, before) && Names(b, after) && at < |before|
    requires Adds(a, at, io, m) ==> exists d :: d in after && d !in before
    requires forall j :: 0 <= j < |after| && after[j] !in before ==> Adds(a, at, io, m) && IsNew(b.conns[j], io)
    ensures Joined(a, at, io, m, b)
  {
    forall j | 0 <= j < |after|
      ensures Lists(a, b.conns[j].who) <==> after[j] in before
    {
      ListsIff(a, before, after[j]);
    }
    if Adds(a, at, io, m) {
      var d :| d in after && d !in before;
      var j :| 0 <= j < |after| && after[j] == d;
      assert !Lists(a, b.conns[j].who);
    }
  }

  ghost function Snapped(server: Server): (s: Snap)
    reads server, server.conns
    ensures Names(s, server.conns)
    ensures forall i :: 0 <= i < |server.conns| ==> s.conns[i] == server.conns[i].Now()
  {
    Snap(Nows(server.conns), server.currentBandwidth)
  }

  function LimitsOf(server: Server): Limits {
    Limits(server.nbMaxConnections, server.maxBandwidth)
  }

  lemma FedIff(server: Server, f: FFStream)
    requires server.Valid() && f in server.streams
    ensures Fed(Snapped(server), f) <==> f.feedOpened
  {
    server.OneWriter(f);
    var (s, conns) := (Snapped(server), server.conns);
    if f.feedOpened {
      var c :| c in conns && server.Receives(c, f);
      var i :| 0 <= i < |conns| && conns[i] == c;
      assert s.conns[i].state.ReceiveData? && s.conns[i].stream == f;
    }
    if Fed(s, f) {
      var i :| 0 <= i < |s.conns| && s.conns[i].state.ReceiveData? && s.conns[i].stream == f;
      assert server.Receives(conns[i], f);
    }
  }

  method PollNow(server: Server, at: nat, io: Io, ghost a: Snap, ghost before: seq<HttpContext>, ghost taken: bool)
    requires at < |server.conns| && server.Valid() && server.Knows(io) && a == Snapped(server) && before == server.conns
    requires io.HttpRequest? ==> taken == Taken(io.request) == (io.request.stream != null && Fed(a, io.request.stream))
    modifies server, server.conns, server.streams
    ensures server.Valid()
    ensures forall d :: d in server.conns ==> d in before || fresh(d)
    ensures forall k :: 0 <= k < |before| ==> (before[k] in server.conns <==> !Ended(a, at, io, k))
    ensures forall k :: 0 <= k < |before| && k != at ==>
              before[k].Now() == a.conns[k].(state := Moved(a.conns[at], io, k, a.conns[k]))
    ensures before[at] in server.conns ==>
              Owned(a, a.conns[at], io, LimitsOf(server), Snapped(server), before[at].Now())
    ensures Adds(a, at, io, LimitsOf(server)) ==> exists d :: d in server.conns && d !in before
    ensures forall d :: d in server.conns && d !in before ==> Adds(a, at, io, LimitsOf(server)) && IsNew(d.Now(), io)
  {
    var c := server.conns[at];
    assert c in server.conns;
    OthersDiffer(before, at);
    server.Poll(c, io);
    EndedFrom(a, before, at, io, server.conns);
    if c in server.conns {
      OwnedFrom(a, a.conns[at], io, LimitsOf(server), Snapped(server), c.Now(), taken);
    }
  }

  method PollTurn(server: Server, at: nat, io: Io)
    requires at < |server.conns| && server.Valid() && server.Knows(io)
    modifies server, server.conns, server.streams
    ensures server.Valid()
    ensures forall d :: d in server.conns ==> d in old(server.conns) || fresh(d)
    ensures var (a, before) := (old(Snapped(server)), old(server.conns));
            forall k :: 0 <= k < |before| ==> (before[k] in server.conns <==> !Ended(a, at, io, k))
    ensures Turn(old(Snapped(server)), at, io, LimitsOf(server), Snapped(server))
  {
    ghost var (a, before) := (Snapped(server), server.conns);
    if io.HttpRequest? && io.request.stream != null {
      FedIff(server, io.request.stream);
    }
    PollNow(server, at, io, a, before, io.HttpRequest? && Taken(io.request));
    ghost var b := Snapped(server);
    StaysFrom(a, before, at, io, b, server.conns);
    MovesFrom(a, before, at, io, LimitsOf(server), b, server.conns, Nows(before));
    JoinedFrom(a, before, at, io, LimitsOf(server), b, server.conns);
  }

  // The turn of the connection at a place of the list, with the successor that the loop
  // has saved: it is still listed exactly unless the turn was a TEARDOWN of it.
  method PollAt(server: Server, at: nat, io: Io) returns (next: HttpContext?)
    requires at < |server.conns| && server.Valid() && server.Knows(io)
    modifies server, server.conns, server.streams
    ensures server.Valid()
    ensures forall d :: d in server.conns ==> d in old(server.conns) || fresh(d)
    ensures next == if at + 1 < old(|server.conns|) then old(server.conns)[at + 1] else null
    ensures next != null ==>
              (next !in server.conns <==>
                && old(server.conns[at].state).RtspWaitRequest? && io.RtspRequest? && io.command == Teardown(at + 1)
                && next.isPacketized)
    ensures Turn(old(Snapped(server)), at, io, LimitsOf(server), Snapped(server))
  {
    next := if at + 1 < |server.conns| then server.conns[at + 1] else null;
    PollTurn(server, at, io);
  }

  // ---------------------------------------------------------------- a round

  // The connection behind the one at place at.
  function Behind(a: Snap, at: nat): HttpContext? {
    if at + 1 < |a.conns| then a.conns[at + 1].who else null
  }

  // What the loop over the list has saved before turn i of a round.
  function Saved(trace: seq<Snap>, places: seq<nat>, i: nat): HttpContext?
    requires i <= |places| < |trace|
  {
    if i > 0 then Behind(trace[i - 1], places[i - 1])
    else if trace[0].conns == [] then null
    else trace[0].conns[0].who
  }

  // The first turns of a round: each is that of the connection saved by the one before.
  ghost predicate Turns(trace: seq<Snap>, places: seq<nat>, ios: seq<Io>, m: Limits) {
    && |trace| == |places| + 1 && |places| <= |ios|
    && forall i :: 0 <= i < |places| ==>
         && Turn(trace[i], places[i], ios[i], m, trace[i + 1])
         && trace[i].conns[places[i]].who == Saved(trace, places, i)
  }

  // A whole round: it ends with the list, with the events, or at a connection closed by the
  // turn that had saved it.
  ghost predicate RoundOf(trace: seq<Snap>, places: seq<nat>, ios: seq<Io>, m: Limits) {
    && Turns(trace, places, ios, m)
    && var c := Saved(trace, places, |places|);
       |places| == |ios| || c == null || !Lists(trace[|places|], c)
  }

  lemma TurnsStep(trace: seq<Snap>, places: seq<nat>, ios: seq<Io>, m: Limits, a: Snap, at: nat, io: Io, b: Snap)
    requires Turns(trace, places, ios, m) && |places| < |ios|
    requires a == trace[|places|] && io == ios[|places|] && Turn(a, at, io, m, b)
    requires a.conns[at].who == Saved(trace, places, |places|)
    ensures Turns(trace + [b], places + [at], ios, m)
    ensures Saved(trace + [b], places + [at], |places| + 1) == Behind(trace[|places|], at)
  {
    var (t, p) := (trace + [b], places + [at]);
    forall i | 0 <= i < |p|
      ensures Turn(t[i], p[i], ios[i], m, t[i + 1])
      ensures t[i].conns[p[i]].who == Saved(t, p, i)
    {
      if i < |places| {
        assert t[i] == trace[i] && t[i + 1] == trace[i + 1] && p[i] == places[i];
      }
      assert Saved(t, p, i) == Saved(trace, places, i);
    }
  }

  // A connection accepted, or refused.
  predicate Accepted(a: Snap, isRtsp: bool, accepted: bool, m: Limits, b: Snap) {
    if accepted && |a.conns| < m.connections then
      && |b.conns| == |a.conns| + 1 && b.conns[1..] == a.conns && b.bandwidth == a.bandwidth
      && b.conns[0].state == (if isRtsp then RtspWaitRequest else HttpWaitRequest) && b.conns[0].stream == null
    else b == a
  }

  // What a step of the server went through; places are those of its turns.
  datatype Part = Part(trace: seq<Snap>, places: seq<nat>) {
    ghost predicate From(a: Snap, b: Snap) {
      trace != [] && trace[0] == a && trace[|trace| - 1] == b
    }
  }

  // The first turns of a round from a to b, with c the connection saved.
  ghost predicate SoFar(part: Part, ios: seq<Io>, m: Limits, a: Snap, b: Snap, c: HttpContext?) {
    Turns(part.trace, part.places, ios, m) && part.From(a, b) && c == Saved(part.trace, part.places, |part.places|)
  }

  lemma SoFarNone(a: Snap, ios: seq<Io>, m: Limits)
    ensures SoFar(Part([a], []), ios, m, a, a, if a.conns == [] then null else a.conns[0].who)
  {
  }

  lemma SoFarAll(part: Part, ios: seq<Io>, m: Limits, a: Snap, b: Snap, c: HttpContext?)
    requires SoFar(part, ios, m, a, b, c) && (|part.places| == |ios| || c == null || !Lists(b, c))
    ensures RoundOf(part.trace, part.places, ios, m)
  {
  }

  // The loop over the list, from the head on by the saved successors; ios is what the
  // sockets do in turn.  It comes off the list only at a TEARDOWN: there the source goes
  // on with the closed session, and the round ends here.
  method PollList(server: Server, ios: seq<Io>) returns (lost: bool, ghost part: Part)
    requires server.Valid() && forall io :: io in ios ==> server.Knows(io)
    modifies server, server.conns, server.streams
    ensures server.Valid()
    ensures forall k :: 0 <= k < |server.conns| ==> server.conns[k] in old(server.conns) || fresh(server.conns[k])
    ensures RoundOf(part.trace, part.places, ios, LimitsOf(server))
    ensures part.From(old(Snapped(server)), Snapped(server))
    ensures lost <==> var c := Saved(part.trace, part.places, |part.places|); c != null && c !in server.conns
  {
    ghost var a := Snapped(server);
    var c := if server.conns != [] then server.conns[0] else null;
    part := Part([a], []);
    SoFarNone(a, ios, LimitsOf(server));
    lost := false;
    var i := 0;
    while i < |ios| && c != null && !lost
      invariant server.Valid() && i == |part.places| <= |ios|
      invariant forall k :: 0 <= k < |server.conns| ==> server.conns[k] in old(server.conns) || fresh(server.conns[k])
      invariant SoFar(part, ios, LimitsOf(server), a, Snapped(server), c)
      invariant lost <==> c != null && c !in server.conns
    {
      c, lost, part := PollNext(server, ios, i, c, part, a);
      i := i + 1;
    }
    if lost {
      ListsIff(Snapped(server), server.conns, c);
    }
    SoFarAll(part, ios, LimitsOf(server), a, Snapped(server), c);
  }

  // One turn of the loop.
  method PollNext(server: Server, ios: seq<Io>, i: nat, c: HttpContext, ghost part: Part, ghost a: Snap)
    returns (next: HttpContext?, lost: bool, ghost part': Part)
    requires server.Valid() && i == |part.places| < |ios| && server.Knows(ios[i]) && c in server.conns
    requires SoFar(part, ios, LimitsOf(server), a, Snapped(server), c)
    modifies server, server.conns, server.streams
    ensures server.Valid()
    ensures forall k :: 0 <= k < |server.conns| ==> server.conns[k] in old(server.conns) || fresh(server.conns[k])
    ensures |part'.places| == i + 1 && SoFar(part', ios, LimitsOf(server), a, Snapped(server), next)
    ensures lost <==> next != null && next !in server.conns
  {
    var io := ios[i];
    var at := server.Find(c);
    ghost var mid := Snapped(server);
    next := PollAt(server, at, io);
    ghost var b := Snapped(server);
    TurnsStep(part.trace, part.places, ios, LimitsOf(server), mid, at, io, b);
    part' := Part(part.trace + [b], part.places + [at]);
    lost := next != null && next !in server.conns;
  }

  // ---------------------------------------------------------------- every schedule

  datatype Step = Accept(isRtsp: bool, accepted: bool) | Handle(at: nat, io: Io) | Round(ios: seq<Io>)

  // What a step of the schedule does, turn by turn.
  ghost predicate Did(server: Server, step: Step, part: Part) {
    match step
    case Accept(isRtsp, accepted) =>
      && part.places == [] && |part.trace| == 2
      && Accepted(part.trace[0], isRtsp, accepted, LimitsOf(server), part.trace[1])
    case Handle(at, io) =>
      && part.trace != []
      && if at < |part.trace[0].conns| && server.Knows(io) then
           && part.places == [at] && |part.trace| == 2
           && Turn(part.trace[0], at, io, LimitsOf(server), part.trace[1])
         else |part.trace| == 1
    case Round(ios) =>
      if forall io :: io in ios ==> server.Knows(io) then
        RoundOf(part.trace, part.places, ios, LimitsOf(server))
      else |part.trace| == 1
  }

  // The parts of a schedule: each step did what it should, from where the one before ended.
  ghost predicate Served(server: Server, steps: seq<Step>, parts: seq<Part>, a: Snap, b: Snap) {
    && |parts| == |steps|
    && if steps == [] then a == b
       else
         var n := |steps| - 1;
         && parts[n].trace != [] && parts[n].From(parts[n].trace[0], b) && Did(server, steps[n], parts[n])
         && Served(server, steps[..n], parts[..n], a, parts[n].trace[0])
  }

  lemma ServedStep(server: Server, steps: seq<Step>, i: nat, parts: seq<Part>, a: Snap, mid: Snap, part: Part, b: Snap)
    requires i < |steps| && Served(server, steps[..i], parts, a, mid)
    requires part.From(mid, b) && Did(server, steps[i], part)
    ensures Served(server, steps[..i + 1], parts + [part], a, b)
  {
    assert steps[..i + 1][..i] == steps[..i] && (parts + [part])[..i] == parts;
  }

  lemma ServedAll(server: Server, steps: seq<Step>, parts: seq<Part>, a: Snap, b: Snap)
    requires Served(server, steps[..|steps|], parts, a, b)
    ensures Served(server, steps, parts, a, b)
  {
    assert steps[..|steps|] == steps;
  }

  method AcceptPart(server: Server, isRtsp: bool, accepted: bool) returns (ghost part: Part)
    requires server.Valid()
    modifies server
    ensures server.Valid() && forall d :: d in server.conns ==> d in old(server.conns) || fresh(d)
    ensures Did(server, Accept(isRtsp, accepted), part) && part.From(old(Snapped(server)), Snapped(server))
  {
    ghost var a := Snapped(server);
    server.NewConnection(isRtsp, accepted);
    ghost var b := Snapped(server);
    part := Part([a, b], []);
    if accepted && |a.conns| < server.nbMaxConnections {
      assert b.conns[1..] == a.conns;
    } else {
      assert b.conns == a.conns;
    }
  }

  method ServeStep(server: Server, step: Step) returns (ghost part: Part)
    requires server.Valid()
    modifies server, server.conns, server.streams
    ensures server.Valid()
    ensures forall k :: 0 <= k < |server.conns| ==> server.conns[k] in old(server.conns) || fresh(server.conns[k])
    ensures Did(server, step, part) && part.From(old(Snapped(server)), Snapped(server))
  {
    match step
    case Accept(isRtsp, accepted) =>
      part := AcceptPart(server, isRtsp, accepted);
    case Handle(at, io) =>
      part := Part([Snapped(server)], []);
      if at < |server.conns| && server.Knows(io) {
        var next := PollAt(server, at, io);
        part := Part(part.trace + [Snapped(server)], [at]);
      }
    case Round(ios) =>
      part := Part([Snapped(server)], []);
      if forall io | io in ios :: server.Knows(io) {
        var lost;
        lost, part := PollList(server, ios);
      }
  }

  // Any schedule of the server's steps: the accounts hold at the end, and each step did what
  // it should.
  method Serve(server: Server, steps: seq<Step>) returns (ghost parts: seq<Part>)
    requires server.Valid()
    modifies server, server.conns, server.streams
    ensures server.Valid() && Served(server, steps, parts, old(Snapped(server)), Snapped(server))
  {
    parts := [];
    ghost var a := Snapped(server);
    assert steps[..0] == [];
    for i := 0 to |steps|
      invariant server.Valid() && Served(server, steps[..i], parts, a, Snapped(server))
      invariant forall k :: 0 <= k < |server.conns| ==> server.conns[k] in old(server.conns) || fresh(server.conns[k])
    {
      parts := ServeNext(server, steps, i, parts, a);
    }
    ServedAll(server, steps, parts, a, Snapped(server));
  }

  // One step more of a schedule.
  method ServeNext(server: Server, steps: seq<Step>, i: nat, ghost parts: seq<Part>, ghost a: Snap)
    returns (ghost parts': seq<Part>)
    requires server.Valid() && i < |steps| && Served(server, steps[..i], parts, a, Snapped(server))
    modifies server, server.conns, server.streams
    ensures server.Valid() && Served(server, steps[..i + 1], parts', a, Snapped(server))
    ensures forall k :: 0 <= k < |server.conns| ==> server.conns[k] in old(server.conns) || fresh(server.conns[k])
  {
    ghost var mid := Snapped(server);
    ghost var part := ServeStep(server, steps[i]);
    ServedStep(server, steps, i, parts, a, mid, part, Snapped(server));
    parts' := parts + [part];
  }
}
