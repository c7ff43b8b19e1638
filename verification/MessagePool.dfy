// The pool of player commands: twelve places, and the oldest command goes when a
// thirteenth is sent.

module MessagePool {

  const PLACES := 12    // MESSAGE_NUM_MAX

  // adec_cmd_t
  class Cmd {
    const ctrlCmd: int

    constructor (ctrlCmd: int)
      ensures this.ctrlCmd == ctrlCmd
    {
      this.ctrlCmd := ctrlCmd;
    }
  }

  // ---------------------------------------------------------------- the queue it stands for

  // What became of a command that is no longer in the pool.
  datatype Fate<T> = Delivered(cmd: T) | Freed(cmd: T)

  datatype Op<T> = Send(cmd: T) | Get

  datatype Log<T> = Log(fates: seq<Fate<T>>, queue: seq<T>)

  function AfterSend<T>(l: Log<T>, cmd: T): Log<T>
    requires |l.queue| <= PLACES
  {
    if |l.queue| < PLACES then Log(l.fates, l.queue + [cmd])
    else Log(l.fates + [Freed(l.queue[0])], l.queue[1..] + [cmd])
  }

  function AfterGet<T>(l: Log<T>): Log<T> {
    if l.queue == [] then l else Log(l.fates + [Delivered(l.queue[0])], l.queue[1..])
  }

  function Run<T>(ops: seq<Op<T>>): (l: Log<T>)
    ensures |l.queue| <= PLACES
  {
    if ops == [] then Log([], [])
    else
      var l := Run(ops[..|ops| - 1]);
      match ops[|ops| - 1]
      case Send(cmd) => AfterSend(l, cmd)
      case Get => AfterGet(l)
  }

  function Sent<T>(ops: seq<Op<T>>): seq<T> {
    if ops == [] then []
    else
      Sent(ops[..|ops| - 1]) + (if ops[|ops| - 1].Send? then [ops[|ops| - 1].cmd] else [])
  }

  function Cmds<T>(fates: seq<Fate<T>>): (r: seq<T>)
    ensures |r| == |fates|
  {
    seq(|fates|, i requires 0 <= i < |fates| => fates[i].cmd)
  }

  lemma CmdsAdd<T>(fates: seq<Fate<T>>, f: Fate<T>)
    ensures Cmds(fates + [f]) == Cmds(fates) + [f.cmd]
  {
  }

  lemma MoveFirst<T>(front: seq<T>, queue: seq<T>)
    requires queue != []
    ensures (front + [queue[0]]) + queue[1..] == front + queue
  {
  }

  // All commands of a log, in order.
  function All<T>(l: Log<T>): seq<T> {
    Cmds(l.fates) + l.queue
  }

  lemma SendAdds<T>(l: Log<T>, cmd: T)
    requires |l.queue| <= PLACES
    ensures All(AfterSend(l, cmd)) == All(l) + [cmd]
  {
    if |l.queue| < PLACES {
      assert Cmds(l.fates) + (l.queue + [cmd]) == All(l) + [cmd];
    } else {
      CmdsAdd(l.fates, Freed(l.queue[0]));
      MoveFirst(Cmds(l.fates), l.queue);
      assert All(AfterSend(l, cmd)) == (Cmds(l.fates) + [l.queue[0]]) + l.queue[1..] + [cmd];
    }
  }

  lemma GetKeeps<T>(l: Log<T>)
    ensures All(AfterGet(l)) == All(l)
  {
    if l.queue != [] {
      CmdsAdd(l.fates, Delivered(l.queue[0]));
      MoveFirst(Cmds(l.fates), l.queue);
    }
  }

  // Over any run, the commands sent are those delivered or freed and those still
  // queued, each once and in the order sent.
  lemma {:induction false} EachOnce<T>(ops: seq<Op<T>>)
    ensures Sent(ops) == Cmds(Run(ops).fates) + Run(ops).queue
  {
    if ops != [] {
      var (front, last) := (ops[..|ops| - 1], ops[|ops| - 1]);
      EachOnce(front);
      match last
      case Send(cmd) => SendAdds(Run(front), cmd);
      case Get => GetKeeps(Run(front));
    }
  }

  // Some command of the run was freed unseen.
  ghost predicate Lossy<T(!new)>(ops: seq<Op<T>>) {
    exists cmd :: Freed(cmd) in Run(ops).fates
  }

  // Some send of the run found twelve commands queued.
  ghost predicate Overrun<T(!new)>(ops: seq<Op<T>>) {
    exists k :: 0 <= k < |ops| && ops[k].Send? && |Run(ops[..k]).queue| == 12
  }

  // Commands are freed unseen exactly in the runs in which a send finds twelve queued.
  lemma {:induction false} LossyIff<T(!new)>(ops: seq<Op<T>>)
    ensures Lossy(ops) <==> Overrun(ops)
  {
    if ops != [] {
      var (front, last) := (ops[..|ops| - 1], ops[|ops| - 1]);
      LossyIff(front);
      OverrunStep(front, last);
      assert ops == front + [last];
      LossyStep(front, last);
    }
  }

  lemma OverrunStep<T(!new)>(front: seq<Op<T>>, last: Op<T>)
    ensures Overrun(front + [last]) <==> Overrun(front) || (last.Send? && |Run(front).queue| == 12)
  {
    var ops := front + [last];
    assert forall k :: 0 <= k <= |front| ==> ops[..k] == front[..k];
    assert front[..|front|] == front;
    if Overrun(front) {
      var k :| 0 <= k < |front| && front[k].Send? && |Run(front[..k]).queue| == 12;
      assert ops[k].Send? && |Run(ops[..k]).queue| == 12;
    }
    if last.Send? && |Run(front).queue| == 12 {
      assert ops[|front|].Send? && |Run(ops[..|front|]).queue| == 12;
    }
  }

  lemma LossyStep<T(!new)>(front: seq<Op<T>>, last: Op<T>)
    ensures Lossy(front + [last]) <==> Lossy(front) || (last.Send? && |Run(front).queue| == 12)
  {
    var (ops, l) := (front + [last], Run(front));
    assert ops[..|front|] == front;
    if Lossy(front) {
      var cmd :| Freed(cmd) in l.fates;
      assert Freed(cmd) in Run(ops).fates;
    }
    if last.Send? && |l.queue| == 12 {
      assert Freed(l.queue[0]) in Run(ops).fates;
    }
    if Lossy(ops) && !Lossy(front) {
      var cmd :| Freed(cmd) in Run(ops).fates;
      assert Freed(cmd) !in l.fates;
    }
  }

  // ---------------------------------------------------------------- the pool

  // The place num commands after place out.
  function Wrapped(out: nat, num: nat): nat
    requires out < PLACES && num <= PLACES
  {
    if out + num < PLACES then out + num else out + num - PLACES
  }

  // The num commands from place out on.
  function Queued<T>(list: seq<T>, out: nat, num: nat): (q: seq<T>)
    requires |list| == PLACES + 1 && out < PLACES && num <= PLACES
    ensures |q| == num && forall i :: 0 <= i < num ==> q[i] == list[Wrapped(out, i)]
  {
    seq(num, i requires 0 <= i < num => list[Wrapped(out, i)])
  }

  lemma QueuedSend<T>(list: seq<T>, out: nat, num: nat, cmd: T)
    requires |list| == PLACES + 1 && out < PLACES && num < PLACES
    ensures Queued(list[Wrapped(out, num) := cmd], out, num + 1) == Queued(list, out, num) + [cmd]
  {
    var list' := list[Wrapped(out, num) := cmd];
    forall i | 0 <= i < num + 1
      ensures Queued(list', out, num + 1)[i] == (Queued(list, out, num) + [cmd])[i]
    {
    }
  }

  lemma QueuedGet<T>(list: seq<T>, out: nat, num: nat)
    requires |list| == PLACES + 1 && out < PLACES && 0 < num <= PLACES
    ensures Queued(list, Wrapped(out, 1), num - 1) == Queued(list, out, num)[1..]
    ensures Queued(list, out, num)[0] == list[out]
  {
    forall i | 0 <= i < num - 1
      ensures Queued(list, Wrapped(out, 1), num - 1)[i] == Queued(list, out, num)[1..][i]
    {
      assert Wrapped(Wrapped(out, 1), i) == Wrapped(out, i + 1);
    }
  }

  // Sending to a full pool: the new command takes the oldest one's place.
  lemma QueuedFull<T>(list: seq<T>, out: nat, cmd: T)
    requires |list| == PLACES + 1 && out < PLACES
    ensures Wrapped(out, PLACES) == out && list[out] == Queued(list, out, PLACES)[0]
    ensures Queued(list[out := cmd], Wrapped(out, 1), PLACES) == Queued(list, out, PLACES)[1..] + [cmd]
  {
    QueuedGet(list, out, PLACES);
    QueuedSend(list, Wrapped(out, 1), PLACES - 1, cmd);
    assert Wrapped(Wrapped(out, 1), PLACES - 1) == out;
  }

  function NextPlace(i: nat): (j: nat)
    requires i < PLACES
    ensures j == Wrapped(i, 1)
  {
    (i + 1) % PLACES
  }

  class Pool {
    var list: array<Cmd?>          // message_lise, one place longer than is used
    var inIndex: nat
    var outIndex: nat
    var num: nat
    ghost var fates: seq<Fate<Cmd?>>

    ghost predicate Valid()
      reads this
    {
      && list.Length == PLACES + 1
      && num <= PLACES && outIndex < PLACES
      && inIndex == Wrapped(outIndex, num)
    }

    ghost function Contents(): (q: seq<Cmd?>)
      requires Valid()
      reads this, list
      ensures |q| == num && forall i :: 0 <= i < num ==> q[i] == list[Wrapped(outIndex, i)]
    {
      Queued(list[..], outIndex, num)
    }

    ghost function Abstract(): Log<Cmd?>
      requires Valid()
      reads this, list
    {
      Log(fates, Contents())
    }

    // adec_message_pool_init
    constructor ()
      ensures Valid() && fresh(list) && Abstract() == Log([], [])
    {
      list := new Cmd?[PLACES + 1](_ => null);
      inIndex, outIndex, num, fates := 0, 0, 0, [];
    }

    // The two lines both branches of adec_send_message share.
    method Place(cmd: Cmd)
      requires list.Length == PLACES + 1 && inIndex < PLACES
      modifies this`inIndex, list
      ensures list[..] == old(list[..])[old(inIndex) := cmd]
      ensures inIndex == Wrapped(old(inIndex), 1)
    {
      list[inIndex] := cmd;
      inIndex := NextPlace(inIndex);
    }

    // adec_send_message with the pool full.
    method SendFull(cmd: Cmd)
      requires Valid() && num == PLACES
      modifies this, list
      ensures Valid() && list == old(list)
      ensures Contents() == old(Contents())[1..] + [cmd]
      ensures fates == old(fates) + [Freed(old(Contents())[0])]
    {
      QueuedFull(list[..], outIndex, cmd);
      var oldest := list[inIndex];
      fates := fates + [Freed(oldest)];
      outIndex := NextPlace(outIndex);
      Place(cmd);
    }

    // adec_send_message
    method Send(cmd: Cmd) returns (ret: int)
      requires Valid()
      modifies this, list
      ensures Valid() && list == old(list) && ret == 0
      ensures Abstract() == AfterSend(old(Abstract()), cmd)
      ensures if |old(Contents())| < 12 then fates == old(fates) && Contents() == old(Contents()) + [cmd]
              else fates == old(fates) + [Freed(old(Contents())[0])] && Contents() == old(Contents())[1..] + [cmd]
    {
      if num < PLACES {
        QueuedSend(list[..], outIndex, num, cmd);
        num := num + 1;
        Place(cmd);
      } else {
        SendFull(cmd);
      }
      ret := 0;
    }

    // adec_get_message
    method Get() returns (cmd: Cmd?)
      requires Valid()
      modifies this
      ensures Valid() && list == old(list)
      ensures Abstract() == AfterGet(old(Abstract()))
      ensures if old(Contents()) == [] then cmd == null && Contents() == [] && fates == old(fates)
              else [cmd] + Contents() == old(Contents()) && fates == old(fates) + [Delivered(cmd)]
    {
      cmd := null;
      if num > 0 {
        QueuedGet(list[..], outIndex, num);
        cmd := list[outIndex];
        fates := fates + [Delivered(cmd)];
        outIndex := NextPlace(outIndex);
        num := num - 1;
      }
    }
  }
}
