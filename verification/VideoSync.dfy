// How the encoder keeps its output in step with the input clock: do_video_out drops a
// picture, emits it once, or repeats it, and counts what it dropped and repeated.
// Times are exact, in units of the encoder's time base; lrintf is a parameter, with the
// one of SinglePrecision as the case that counts.

module VideoSync {
  import opened SinglePrecision

  // What every use of lrintf needs: more than 1.1 never becomes 0.
  type Rounding = f: real -> int | forall x :: x > 1.1 ==> f(x) >= 1
    witness (x: real) => (x + 0.5).Floor

  function Single24(): (f: Rounding)
    ensures forall x :: f(x) == Lrintf(x)
  {
    PositiveAll();
    Lrintf
  }

  // Off by at most e for all times below m either way.
  ghost predicate ErrorBelow(f: Rounding, m: real, e: real) {
    forall x :: -m < x < m ==> -e <= f(x) as real - x <= e
  }

  datatype Settings = Settings(vsync: int, variableFps: bool, maxFrames: int) {
    predicate Variable() {
      vsync == 2 || (vsync < 0 && variableFps)
    }

    predicate Constant() {
      vsync != 0 && !Variable()
    }
  }

  // sync_opts, nb_frames_dup, nb_frames_drop, and the stamps of the frames sent out so far.
  datatype Clock = Clock(opts: int, dup: int, drop: int, out: seq<int>) {
    function Delta(ipts: real): real {
      ipts - opts as real
    }
  }

  function Ramp(start: int, n: nat): (r: seq<int>)
    ensures |r| == n
  {
    seq(n, i => start + i)
  }

  // The frames a call wants to send, before max_frames is looked at.
  function Wanted(round: Rounding, s: Settings, d: real): int {
    if s.vsync == 0 then 1
    else if d < -1.1 then 0
    else if s.Variable() then if d <= -0.6 then 0 else 1
    else if d > 1.1 then round(d)
    else 1
  }

  // Where the stamps of a call start.
  function Restart(round: Rounding, s: Settings, c: Clock, ipts: real): int {
    if s.vsync == 0 || (s.Variable() && c.Delta(ipts) > 0.6) then round(ipts) else c.opts
  }

  function Allowed(s: Settings, c: Clock, wanted: int): nat {
    var left := s.maxFrames - |c.out|;
    if wanted < left then if wanted < 0 then 0 else wanted
    else if left < 0 then 0 else left
  }

  function After(round: Rounding, s: Settings, c: Clock, ipts: real): Clock {
    var wanted := Wanted(round, s, c.Delta(ipts));
    var start := Restart(round, s, c, ipts);
    var sent := Allowed(s, c, wanted);
    Clock(start + sent,
          c.dup + (if wanted > 1 then wanted - 1 else 0),
          c.drop + (if wanted == 0 then 1 else 0),
          c.out + Ramp(start, sent))
  }

  // do_video_out, over the fields it keeps in the output stream and the two counters.
  class Output {
    const round: Rounding
    var syncOpts: int
    var frameNumber: nat
    var nbFramesDup: int
    var nbFramesDrop: int
    ghost var sent: seq<int>

    ghost predicate Valid()
      reads this
    {
      frameNumber == |sent|
    }

    ghost function Now(): Clock
      reads this
    {
      Clock(syncOpts, nbFramesDup, nbFramesDrop, sent)
    }

    constructor (round: Rounding)
      ensures Valid() && this.round == round && Now() == Clock(0, 0, 0, [])
    {
      this.round := round;
      syncOpts, frameNumber, nbFramesDup, nbFramesDrop, sent := 0, 0, 0, 0, [];
    }

    // The first part of do_video_out: how many frames to send, from which stamp on.
    method Decide(s: Settings, syncIpts: real) returns (nbFrames: int)
      requires Valid()
      modifies `syncOpts, `nbFramesDup, `nbFramesDrop
      ensures nbFrames == Wanted(round, s, old(Now()).Delta(syncIpts))
      ensures syncOpts == Restart(round, s, old(Now()), syncIpts)
      ensures nbFramesDup == old(nbFramesDup) + (if nbFrames > 1 then nbFrames - 1 else 0)
      ensures nbFramesDrop == old(nbFramesDrop) + (if nbFrames == 0 then 1 else 0)
    {
      nbFrames := 1;
      if s.vsync != 0 {
        var vdelta := syncIpts - syncOpts as real;
        if vdelta < -1.1 {
          nbFrames := 0;
        } else if s.vsync == 2 || (s.vsync < 0 && s.variableFps) {
          if vdelta <= -0.6 {
            nbFrames := 0;
          } else if vdelta > 0.6 {
            syncOpts := round(syncIpts);
          }
        } else if vdelta > 1.1 {
          nbFrames := round(vdelta);
        }
        if nbFrames == 0 {
          nbFramesDrop := nbFramesDrop + 1;
        } else if nbFrames > 1 {
          nbFramesDup := nbFramesDup + (nbFrames - 1);
        }
      } else {
        syncOpts := round(syncIpts);
      }
    }

    // Its loop.
    method Emit(nbFrames: nat)
      requires Valid()
      modifies `syncOpts, `frameNumber, `sent
      ensures Valid()
      ensures syncOpts == old(syncOpts) + nbFrames && sent == old(sent) + Ramp(old(syncOpts), nbFrames)
    {
      ghost var start := syncOpts;
      var i := 0;
      while i < nbFrames
        invariant 0 <= i <= nbFrames && Valid()
        invariant syncOpts == start + i && sent == old(sent) + Ramp(start, i)
      {
        assert Ramp(start, i + 1) == Ramp(start, i) + [start + i];
        sent := sent + [syncOpts];
        syncOpts := syncOpts + 1;
        frameNumber := frameNumber + 1;
        i := i + 1;
      }
    }

    method DoVideoOut(s: Settings, syncIpts: real)
      requires Valid()
      modifies this
      ensures Valid()
      ensures Now() == After(round, s, old(Now()), syncIpts)
    {
      var nbFrames := Decide(s, syncIpts);
      if s.maxFrames - frameNumber < nbFrames {
        nbFrames := s.maxFrames - frameNumber;
      }
      if nbFrames <= 0 {
        assert sent == sent + Ramp(syncOpts, 0);
        return;
      }
      Emit(nbFrames);
    }
  }

  // ---------------------------------------------------------------- one call

  // At a constant rate: more than 1.1 behind, the picture is dropped; more than 1.1 ahead, it
  // is sent round(lead) times and all but one count as duplicates; otherwise it is sent once,
  // with the next stamp.
  lemma ConstantCall(round: Rounding, s: Settings, c: Clock, ipts: real)
    requires s.vsync != 0 && s.vsync != 2 && (s.vsync > 0 || !s.variableFps)
    ensures var (e, lead) := (After(round, s, c, ipts), ipts - c.opts as real);
            && (e.drop != c.drop <==> lead < -1.1) && e.drop <= c.drop + 1
            && e.dup - c.dup == (if lead > 1.1 then round(lead) - 1 else 0)
            && (lead < -1.1 ==> e.opts == c.opts && e.out == c.out)
            && (-1.1 <= lead <= 1.1 && |c.out| < s.maxFrames ==> e.opts == c.opts + 1 && e.out == c.out + [c.opts])
            && (lead > 1.1 && |c.out| + round(lead) <= s.maxFrames ==>
                  && e.opts == c.opts + round(lead) && |e.out| == |c.out| + round(lead) && c.out <= e.out
                  && forall k :: |c.out| <= k < |e.out| ==> e.out[k] == c.opts + (k - |c.out|))
  {
    var lead := ipts - c.opts as real;
    assert Ramp(c.opts, 0) == [] && Ramp(c.opts, 1) == [c.opts];
    assert c.out + [] == c.out;
  }

  // At a variable rate: 0.6 or more behind, the picture is dropped; otherwise it is sent
  // once, with its own rounded time if that is more than 0.6 ahead and else the next stamp.
  lemma VariableCall(round: Rounding, s: Settings, c: Clock, ipts: real)
    requires s.vsync == 2 || (s.vsync < 0 && s.variableFps)
    ensures var (e, lead) := (After(round, s, c, ipts), ipts - c.opts as real);
            && (lead <= -0.6 ==> e == Clock(c.opts, c.dup, c.drop + 1, c.out))
            && (lead > -0.6 && |c.out| < s.maxFrames ==>
                  var stamp := if lead > 0.6 then round(ipts) else c.opts;
                  e == Clock(stamp + 1, c.dup, c.drop, c.out + [stamp]))
  {
    var start := Restart(round, s, c, ipts);
    assert Ramp(start, 0) == [] && Ramp(start, 1) == [start];
    assert c.out + [] == c.out;
  }

  // With vsync off the picture is sent once, with its own rounded time.
  lemma UnsyncedCall(round: Rounding, s: Settings, c: Clock, ipts: real)
    requires s.vsync == 0 && |c.out| < s.maxFrames
    ensures After(round, s, c, ipts) == Clock(round(ipts) + 1, c.dup, c.drop, c.out + [round(ipts)])
  {
    assert Ramp(round(ipts), 1) == [round(ipts)];
  }

  // A call that max_frames cuts sends as many frames as are left, and its counters are those
  // of the uncut call.
  lemma CutCall(round: Rounding, s: Settings, c: Clock, ipts: real, room: int)
    requires !Fits(s, c, Wanted(round, s, c.Delta(ipts)))
    requires Fits(s.(maxFrames := room), c, Wanted(round, s, c.Delta(ipts)))
    ensures var (e, uncut) := (After(round, s, c, ipts), After(round, s.(maxFrames := room), c, ipts));
            && |e.out| == (if |c.out| < s.maxFrames then s.maxFrames else |c.out|) && e.out <= uncut.out
            && e.opts - |e.out| == uncut.opts - |uncut.out| && e.dup == uncut.dup && e.drop == uncut.drop
  {
  }

  // ---------------------------------------------------------------- whole runs

  // The clock after each of the calls, one input time a call.
  function Run(round: Rounding, s: Settings, c: Clock, times: seq<real>): Clock {
    if times == [] then c
    else After(round, s, Run(round, s, c, times[..|times| - 1]), times[|times| - 1])
  }

  predicate Nondecreasing(times: seq<real>) {
    |times| < 2
    || (times[|times| - 2] <= times[|times| - 1] && Nondecreasing(times[..|times| - 1]))
  }

  // No call of the run has a frame cut off by max_frames.
  predicate Uncut(round: Rounding, s: Settings, c: Clock, times: seq<real>) {
    times == []
    || (var n := |times| - 1;
        var b := Run(round, s, c, times[..n]);
        Uncut(round, s, c, times[..n]) && Fits(s, b, Wanted(round, s, b.Delta(times[n]))))
  }

  predicate Fits(s: Settings, c: Clock, wanted: int) {
    wanted <= 0 || |c.out| + wanted <= s.maxFrames
  }

  // ---------------------------------------------------------------- the counters

  lemma AccountStep(round: Rounding, s: Settings, c: Clock, ipts: real)
    ensures var e := After(round, s, c, ipts);
            && (Fits(s, c, Wanted(round, s, c.Delta(ipts)))
                ==> |e.out| - |c.out| == 1 + (e.dup - c.dup) - (e.drop - c.drop))
            && (!Fits(s, c, Wanted(round, s, c.Delta(ipts)))
                ==> |e.out| - |c.out| < 1 + (e.dup - c.dup) - (e.drop - c.drop))
  {
    WantedNatural(round, s, c.Delta(ipts));
  }

  // Frames out never exceed calls + dup - drop, and equal it exactly when no call of
  // the run was cut.
  lemma {:induction false} FramesAccounted(round: Rounding, s: Settings, c: Clock, times: seq<real>)
    ensures var e := Run(round, s, c, times);
            && |e.out| - |c.out| <= |times| + (e.dup - c.dup) - (e.drop - c.drop)
            && (|e.out| - |c.out| == |times| + (e.dup - c.dup) - (e.drop - c.drop)
                <==> Uncut(round, s, c, times))
  {
    if times != [] {
      var n := |times| - 1;
      FramesAccounted(round, s, c, times[..n]);
      AccountStep(round, s, Run(round, s, c, times[..n]), times[n]);
    }
  }

  lemma WantedNatural(round: Rounding, s: Settings, d: real)
    ensures Wanted(round, s, d) >= 0
  {
  }

  // ---------------------------------------------------------------- constant rate

  // One uncut call at a constant rate ends at most as far behind the input as the
  // rounding of its lead is off, from wherever it starts, and at most 2.1 frames ahead
  // exactly when it started so.
  lemma ConstantStep(round: Rounding, s: Settings, c: Clock, ipts: real, m: real, e: real)
    requires s.Constant() && Fits(s, c, Wanted(round, s, c.Delta(ipts)))
    requires ErrorBelow(round, m, e) && 0.5 <= e <= 1.0 && c.Delta(ipts) < m
    ensures After(round, s, c, ipts).Delta(ipts) <= e
    ensures After(round, s, c, ipts).Delta(ipts) >= -2.1 <==> c.Delta(ipts) >= -2.1
    ensures After(round, s, c, ipts).opts >= c.opts
    ensures After(round, s, c, ipts).out == c.out + Ramp(c.opts, After(round, s, c, ipts).opts - c.opts)
  {
    var d := c.Delta(ipts);
    if d > 1.1 {
      assert -e <= round(d) as real - d <= e;
    }
    WantedNatural(round, s, d);
  }

  ghost predicate Steady(round: Rounding, s: Settings, c: Clock, times: seq<real>) {
    s.Constant() && Nondecreasing(times) && Uncut(round, s, c, times)
  }

  lemma {:induction false} OptsGrow(round: Rounding, s: Settings, c: Clock, times: seq<real>)
    requires s.Constant()
    ensures Run(round, s, c, times).opts >= c.opts
  {
    if times != [] {
      var n := |times| - 1;
      OptsGrow(round, s, c, times[..n]);
      WantedNatural(round, s, Run(round, s, c, times[..n]).Delta(times[n]));
    }
  }

  // Over any run with nondecreasing times that spans less than m, every call ends within
  // [-2.1, e] of its input, where e bounds the error of rounding below m.
  lemma {:induction false} ConstantDrift(round: Rounding, s: Settings, c: Clock, times: seq<real>, m: real, e: real)
    requires Steady(round, s, c, times) && times != [] && c.Delta(times[0]) >= -2.1
    requires ErrorBelow(round, m, e) && 0.5 <= e <= 1.0 && c.Delta(times[|times| - 1]) < m
    ensures -2.1 <= Run(round, s, c, times).Delta(times[|times| - 1]) <= e
  {
    var n := |times| - 1;
    if n > 0 {
      ConstantDrift(round, s, c, times[..n], m, e);
    }
    OptsGrow(round, s, c, times[..n]);
    ConstantStep(round, s, Run(round, s, c, times[..n]), times[n], m, e);
  }

  // With any rounding to the nearest integer the drift stays within [-2.1, 1/2] for ever.
  lemma NearestDrift(round: Rounding, s: Settings, c: Clock, times: seq<real>)
    requires forall x :: -0.5 <= round(x) as real - x <= 0.5
    requires Steady(round, s, c, times) && times != [] && c.Delta(times[0]) >= -2.1
    ensures -2.1 <= Run(round, s, c, times).Delta(times[|times| - 1]) <= 0.5
  {
    ConstantDrift(round, s, c, times, c.Delta(times[|times| - 1]) + 1.0, 0.5);
  }

  // With lrintf it stays within [-2.1, 9/16] over spans below 2^21 frames.
  lemma LrintfDrift(s: Settings, c: Clock, times: seq<real>)
    requires Steady(Single24(), s, c, times) && times != [] && c.Delta(times[0]) >= -2.1
    requires c.Delta(times[|times| - 1]) < 2097152.0
    ensures -2.1 <= Run(Single24(), s, c, times).Delta(times[|times| - 1]) <= 0.5625
  {
    LrintfError();
    ConstantDrift(Single24(), s, c, times, 2097152.0, 0.5625);
  }

  lemma LrintfError()
    ensures ErrorBelow(Single24(), 2097152.0, 0.5625)
  {
    forall x | -2097152.0 < x < 2097152.0
      ensures -0.5625 <= Single24()(x) as real - x <= 0.5625
    {
      ErrorBelow21(x);
    }
  }

  lemma RampJoin(out: seq<int>, start: int, m: nat, n: nat)
    ensures out + Ramp(start, m) + Ramp(start + m, n) == out + Ramp(start, m + n)
  {
  }

  lemma Sends(round: Rounding, s: Settings, c: Clock, ipts: real)
    requires s.Constant()
    ensures var e := After(round, s, c, ipts); e.opts >= c.opts && e.out == c.out + Ramp(c.opts, e.opts - c.opts)
  {
    WantedNatural(round, s, c.Delta(ipts));
  }

  // At a constant rate the stamps are consecutive, with no gap and no repeat, whatever
  // the times, the rounding and the cuts.
  lemma {:induction false} ConstantStamps(round: Rounding, s: Settings, c: Clock, times: seq<real>)
    requires s.Constant()
    ensures var e := Run(round, s, c, times);
            e.opts >= c.opts && e.out == c.out + Ramp(c.opts, e.opts - c.opts)
  {
    if times != [] {
      var n := |times| - 1;
      ConstantStamps(round, s, c, times[..n]);
      var b := Run(round, s, c, times[..n]);
      Sends(round, s, b, times[n]);
      RampJoin(c.out, c.opts, b.opts - c.opts, After(round, s, b, times[n]).opts - b.opts);
    }
  }

  lemma CountFollows(c: Clock, d: Clock, t: real, e: real)
    requires d.opts >= c.opts && d.out == c.out + Ramp(c.opts, d.opts - c.opts) && -2.1 <= d.Delta(t) <= e
    ensures -e <= (|d.out| - |c.out|) as real - (t - c.opts as real) <= 2.1
  {
    assert |d.out| - |c.out| == d.opts - c.opts;
  }

  // So the number of frames sent follows the input clock: after any run it differs from
  // the time elapsed since the first stamp by at most 2.1 above and e below.
  lemma FramesFollowClock(round: Rounding, s: Settings, c: Clock, times: seq<real>, m: real, e: real)
    requires Steady(round, s, c, times) && times != [] && c.Delta(times[0]) >= -2.1
    requires ErrorBelow(round, m, e) && 0.5 <= e <= 1.0 && c.Delta(times[|times| - 1]) < m
    ensures var d := Run(round, s, c, times);
            -e <= (|d.out| - |c.out|) as real - (times[|times| - 1] - c.opts as real) <= 2.1
  {
    ConstantDrift(round, s, c, times, m, e);
    ConstantStamps(round, s, c, times);
    CountFollows(c, Run(round, s, c, times), times[|times| - 1], e);
  }

  lemma OneCall(round: Rounding, s: Settings, c: Clock, t: real)
    ensures Run(round, s, c, [t]) == After(round, s, c, t)
  {
    assert [t][..0] == [];
  }

  const EMPTY := Clock(0, 0, 0, [])
  const CONSTANT := Settings(1, false, 10)

  lemma RoundedCall(t: real, frames: int)
    requires t > 1.1 && Lrintf(t) == frames && 0 < frames <= 10
    ensures Run(Single24(), CONSTANT, EMPTY, [t]).Delta(t) == t - frames as real
  {
    OneCall(Single24(), CONSTANT, EMPTY, t);
  }

  // With lrintf both -2.1 and 1/2 are met, and 1/2 is passed: just above 2.5 it gives 2.
  lemma DriftTight()
    ensures Run(Single24(), CONSTANT, EMPTY, [-1.1]).Delta(-1.1) == -2.1
    ensures Run(Single24(), CONSTANT, EMPTY, [2.5]).Delta(2.5) == 0.5
    ensures Run(Single24(), CONSTANT, EMPTY, [2.50000005]).Delta(2.50000005) > 0.5
  {
    OneCall(Single24(), CONSTANT, EMPTY, -1.1);
    AboveHalf();
    RoundedCall(2.5, 2);
    RoundedCall(2.50000005, 2);
  }

  // ---------------------------------------------------------------- variable rate

  // An uncut call at a variable rate drops its picture when the input is 0.6 or more
  // behind and otherwise sends it once, stamped within 0.6 of its time, if rounding the
  // time itself is off by less than 0.6.
  lemma VariableStep(round: Rounding, s: Settings, c: Clock, ipts: real, m: real, e: real)
    requires s.Variable() && Fits(s, c, Wanted(round, s, c.Delta(ipts)))
    requires ErrorBelow(round, m, e) && 0.5 <= e < 0.6 && -m < ipts < m
    ensures After(round, s, c, ipts).Delta(ipts) <= -0.4
    ensures After(round, s, c, ipts).Delta(ipts) > -1.6 <==> c.Delta(ipts) > -1.6
    ensures if c.Delta(ipts) <= -0.6 then After(round, s, c, ipts) == c.(drop := c.drop + 1)
            else exists pts: int ::
                && After(round, s, c, ipts) == c.(opts := pts + 1, out := c.out + [pts])
                && c.opts <= pts && -0.6 <= ipts - pts as real <= 0.6
  {
    var d := c.Delta(ipts);
    assert -e <= round(ipts) as real - ipts <= e;
    var start := Restart(round, s, c, ipts);
    if d > -0.6 {
      assert Ramp(start, 1) == [start];
      assert After(round, s, c, ipts) == c.(opts := start + 1, out := c.out + [start]);
    } else {
      assert Ramp(start, 0) == [];
      assert c.out + Ramp(start, 0) == c.out;
    }
  }

  ghost predicate Bounded(times: seq<real>, m: real) {
    forall k :: 0 <= k < |times| ==> -m <= times[k] <= m
  }

  // Over any run with nondecreasing times below 2^21, every call ends with the next stamp
  // at least 0.4 and less than 1.6 ahead of its input.
  lemma {:induction false} VariableDrift(s: Settings, c: Clock, times: seq<real>, m: real)
    requires s.Variable() && Nondecreasing(times) && Uncut(Single24(), s, c, times)
    requires times != [] && c.Delta(times[0]) > -1.6 && Bounded(times, m) && m < 2097152.0
    ensures -1.6 < Run(Single24(), s, c, times).Delta(times[|times| - 1]) <= -0.4
  {
    var n := |times| - 1;
    if n > 0 {
      VariableDrift(s, c, times[..n], m);
    }
    LrintfStep(s, Run(Single24(), s, c, times[..n]), times[n]);
  }

  lemma LrintfStep(s: Settings, c: Clock, ipts: real)
    requires s.Variable() && Fits(s, c, Wanted(Single24(), s, c.Delta(ipts))) && -2097152.0 < ipts < 2097152.0
    ensures After(Single24(), s, c, ipts).Delta(ipts) <= -0.4
    ensures After(Single24(), s, c, ipts).Delta(ipts) > -1.6 <==> c.Delta(ipts) > -1.6
  {
    LrintfError();
    VariableStep(Single24(), s, c, ipts, 2097152.0, 0.5625);
  }

  // The frame a call sends, if any, is stamped within 0.6 of its input.
  ghost predicate Close(s: Settings, c: Clock, ipts: real) {
    var out := After(Single24(), s, c, ipts).out;
    |out| > |c.out| ==> -0.6 <= ipts - out[|out| - 1] as real <= 0.6
  }

  ghost predicate AllClose(m: real) {
    forall s: Settings, c: Clock, ipts: real :: s.Variable() && -m <= ipts <= m ==> Close(s, c, ipts)
  }

  lemma CloseStep(s: Settings, c: Clock, ipts: real)
    requires s.Variable() && -2097152.6 <= ipts <= 2097152.6
    ensures Close(s, c, ipts)
  {
    ErrorTo21(ipts);
  }

  // At a variable rate every frame is stamped within 0.6 of its input exactly as far as
  // times up to 2097152.6: beyond that lrintf itself can be further off.
  lemma AllCloseIff(m: real)
    requires m >= 0.0
    ensures AllClose(m) <==> m <= 2097152.6
  {
    if m <= 2097152.6 {
      forall s: Settings, c: Clock, ipts: real | s.Variable() && -m <= ipts <= m
        ensures Close(s, c, ipts)
      {
        CloseStep(s, c, ipts);
      }
    } else {
      var t := if m < 2097152.62 then m else 2097152.62;
      Above21(t);
      var s := Settings(2, false, 10);
      assert After(Single24(), s, EMPTY, t).out == [2097152];
      assert !Close(s, EMPTY, t);
    }
  }

  // ---------------------------------------------------------------- the order of the stamps

  ghost predicate Increasing(out: seq<int>) {
    forall i, j :: 0 <= i < j < |out| ==> out[i] < out[j]
  }

  ghost predicate StampsOk(c: Clock) {
    Increasing(c.out) && forall i :: 0 <= i < |c.out| ==> c.out[i] < c.opts
  }

  lemma RestartsLater(s: Settings, c: Clock, ipts: real)
    requires s.vsync != 0 && -33554433.6 <= ipts <= 33554433.6
    ensures Restart(Single24(), s, c, ipts) >= c.opts
  {
    LowBy(ipts);
    if c.Delta(ipts) > 0.6 {
      assert Lrintf(ipts) as real > c.opts as real - 1.0;
    }
  }

  lemma StampsStep(s: Settings, c: Clock, ipts: real)
    requires s.vsync != 0 && StampsOk(c) && -33554433.6 <= ipts <= 33554433.6
    ensures StampsOk(After(Single24(), s, c, ipts))
  {
    RestartsLater(s, c, ipts);
  }

  // With vsync on, no run sends two frames with stamps out of order, wherever max_frames
  // cuts, for times up to 33554433.6 either way.
  lemma {:induction false} StampsIncrease(s: Settings, c: Clock, times: seq<real>)
    requires s.vsync != 0 && StampsOk(c) && Bounded(times, 33554433.6)
    ensures StampsOk(Run(Single24(), s, c, times))
  {
    if times != [] {
      var n := |times| - 1;
      StampsIncrease(s, c, times[..n]);
      StampsStep(s, Run(Single24(), s, c, times[..n]), times[n]);
    }
  }

  // Two pictures, at 2^25 and at t: for t above 33554433.6 both get the stamp 2^25.
  lemma StampRepeats(t: real)
    requires 33554433.6 < t < 33554434.0
    ensures Run(Single24(), Settings(2, false, 10), EMPTY, [33554432.0, t]).out == [33554432, 33554432]
  {
    var s := Settings(2, false, 10);
    Above25(33554432.0);
    Above25(t);
    OneCall(Single24(), s, EMPTY, 33554432.0);
    var c := After(Single24(), s, EMPTY, 33554432.0);
    assert c.out == [33554432] && c.opts == 33554433;
    assert [33554432.0, t][..1] == [33554432.0];
    assert Run(Single24(), s, EMPTY, [33554432.0, t]) == After(Single24(), s, c, t);
  }

  ghost predicate AllOrdered(m: real) {
    forall s: Settings, times: seq<real> ::
      s.vsync != 0 && Bounded(times, m) ==> StampsOk(Run(Single24(), s, EMPTY, times))
  }

  // With vsync on, the stamps of every run are in order exactly as far as times up to
  // 33554433.6: there lrintf first gives a time a stamp already used.
  lemma AllOrderedIff(m: real)
    requires m >= 0.0
    ensures AllOrdered(m) <==> m <= 33554433.6
  {
    if m <= 33554433.6 {
      forall s: Settings, times: seq<real> | s.vsync != 0 && Bounded(times, m)
        ensures StampsOk(Run(Single24(), s, EMPTY, times))
      {
        assert Bounded(times, 33554433.6);
        StampsIncrease(s, EMPTY, times);
      }
    } else {
      Disordered(m, if m < 33554433.7 then m else 33554433.7);
    }
  }

  lemma Disordered(m: real, t: real)
    requires 33554433.6 < t <= m && t < 33554434.0
    ensures !AllOrdered(m)
  {
    StampRepeats(t);
    var times := [33554432.0, t];
    var out := Run(Single24(), Settings(2, false, 10), EMPTY, times).out;
    assert out[0] == out[1] && !Increasing(out);
    assert Bounded(times, m);
  }

  function Rounded(round: Rounding, times: seq<real>): (r: seq<int>)
    ensures |r| == |times|
  {
    seq(|times|, i requires 0 <= i < |times| => round(times[i]))
  }

  // With vsync off each uncut call sends its picture once, stamped with its own rounded
  // time, in whatever order those come.
  lemma {:induction false} UnsyncedStamps(round: Rounding, s: Settings, c: Clock, times: seq<real>)
    requires s.vsync == 0 && Uncut(round, s, c, times)
    ensures Run(round, s, c, times).out == c.out + Rounded(round, times)
  {
    if times != [] {
      var n := |times| - 1;
      UnsyncedStamps(round, s, c, times[..n]);
      var b := Run(round, s, c, times[..n]);
      var stamp := Ramp(round(times[n]), 1);
      assert After(round, s, b, times[n]).out == b.out + stamp;
      assert Rounded(round, times) == Rounded(round, times[..n]) + stamp;
    }
  }

  // Nothing is ever sent beyond max_frames.
  lemma {:induction false} NeverBeyondMax(round: Rounding, s: Settings, c: Clock, times: seq<real>)
    requires |c.out| <= s.maxFrames
    ensures |Run(round, s, c, times).out| <= s.maxFrames
  {
    if times != [] {
      NeverBeyondMax(round, s, c, times[..|times| - 1]);
    }
  }
}
