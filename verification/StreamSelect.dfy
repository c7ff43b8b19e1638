// How ffmpeg's transcode gives every output stream an input stream: a bitwise
// search for a frame-count threshold per media type, then greedy first fit.

module StreamSelect {
  import opened Wrappers

  const NB_TYPES := 5
  const INT_MAX := 0x7fff_ffff

  type MediaType = t: int | 0 <= t < NB_TYPES

  // The parts of an input stream that selection reads and never writes:
  // st->codec->codec_type, st->codec_info_nb_frames, st->discard == AVDISCARD_ALL
  // and membership of the program asked for.
  datatype Input = Input(kind: MediaType, frames: int, dropped: bool, inProgram: bool)

  predicate Plausible(inputs: seq<Input>) {
    forall j :: 0 <= j < |inputs| ==> 0 <= inputs[j].frames <= INT_MAX
  }

  // A stream the search counts and first fit may take; unused is ist->discard.
  predicate Takes(input: Input, unused: bool, byProgram: bool, t: MediaType, x: int) {
    unused && !input.dropped && !(byProgram && !input.inProgram) && input.kind == t && x <= input.frames
  }

  // How many streams of type t with at least x frames may be taken.
  function Supply(inputs: seq<Input>, unused: seq<bool>, byProgram: bool, t: MediaType, x: int): nat
    requires |unused| == |inputs|
  {
    if inputs == [] then 0
    else
      var n := |inputs| - 1;
      Supply(inputs[..n], unused[..n], byProgram, t, x)
      + (if Takes(inputs[n], unused[n], byProgram, t, x) then 1 else 0)
  }

  // How many outputs of type t there are.
  function Demand(outputs: seq<MediaType>, t: MediaType): nat {
    if outputs == [] then 0
    else Demand(outputs[..|outputs| - 1], t) + (if outputs[|outputs| - 1] == t then 1 else 0)
  }

  predicate Enough(inputs: seq<Input>, unused: seq<bool>, byProgram: bool, outputs: seq<MediaType>, t: MediaType,
                   x: int)
    requires |unused| == |inputs|
  {
    Supply(inputs, unused, byProgram, t, x) >= Demand(outputs, t)
  }

  // ---------------------------------------------------------------- supply

  lemma {:induction false} SupplyFalls(inputs: seq<Input>, unused: seq<bool>, byProgram: bool, t: MediaType, x: int,
                                       x': int)
    requires |unused| == |inputs| && x <= x'
    ensures Supply(inputs, unused, byProgram, t, x') <= Supply(inputs, unused, byProgram, t, x)
  {
    if inputs != [] {
      var n := |inputs| - 1;
      SupplyFalls(inputs[..n], unused[..n], byProgram, t, x, x');
    }
  }

  // Taking stream j lowers the supplies it counts in by one and no other.
  lemma {:induction false} SupplyTaken(inputs: seq<Input>, unused: seq<bool>, byProgram: bool, t: MediaType, x: int,
                                       j: nat)
    requires |unused| == |inputs| && j < |inputs|
    ensures Supply(inputs, unused[j := false], byProgram, t, x)
            == Supply(inputs, unused, byProgram, t, x) - (if Takes(inputs[j], unused[j], byProgram, t, x) then 1 else 0)
  {
    var n := |inputs| - 1;
    if j < n {
      SupplyTaken(inputs[..n], unused[..n], byProgram, t, x, j);
      assert unused[j := false][..n] == unused[..n][j := false];
    } else {
      assert unused[j := false][..n] == unused[..n];
    }
  }

  lemma {:induction false} SupplyNone(inputs: seq<Input>, unused: seq<bool>, byProgram: bool, t: MediaType, x: int)
    requires |unused| == |inputs|
    ensures Supply(inputs, unused, byProgram, t, x) == 0
            <==> forall j :: 0 <= j < |inputs| ==> !Takes(inputs[j], unused[j], byProgram, t, x)
  {
    if inputs != [] {
      var n := |inputs| - 1;
      SupplyNone(inputs[..n], unused[..n], byProgram, t, x);
    }
  }

  lemma {:induction false} DemandFirst(outputs: seq<MediaType>, t: MediaType)
    requires outputs != []
    ensures Demand(outputs, t) == (if outputs[0] == t then 1 else 0) + Demand(outputs[1..], t)
  {
    var n := |outputs| - 1;
    if n > 0 {
      DemandFirst(outputs[..n], t);
      assert outputs[..n][1..] == outputs[1..][..n - 1];
    }
  }

  // ---------------------------------------------------------------- assignments

  // Distinct streams that may be taken, one of the right type for every output,
  // those of type t with at least x[t] frames.
  ghost predicate Assigns(inputs: seq<Input>, unused: seq<bool>, byProgram: bool, outputs: seq<MediaType>,
                          src: seq<nat>, x: seq<int>)
    requires |unused| == |inputs| && |x| == NB_TYPES
  {
    && |src| == |outputs|
    && (forall o :: 0 <= o < |src| ==>
          && src[o] < |inputs|
          && Takes(inputs[src[o]], unused[src[o]], byProgram, outputs[o], x[outputs[o]]))
    && (forall o, o' :: 0 <= o < o' < |src| ==> src[o] != src[o'])
  }

  // Any assignment of the outputs shows that the supply is enough.
  lemma {:induction false} AssignedEnough(inputs: seq<Input>, unused: seq<bool>, byProgram: bool,
                                          outputs: seq<MediaType>, src: seq<nat>, x: seq<int>, t: MediaType)
    requires |unused| == |inputs| && |x| == NB_TYPES
    requires Assigns(inputs, unused, byProgram, outputs, src, x)
    ensures Enough(inputs, unused, byProgram, outputs, t, x[t])
    decreases |outputs|
  {
    if outputs != [] {
      var n := |outputs| - 1;
      var j := src[n];
      var unused' := unused[j := false];
      assert Assigns(inputs, unused', byProgram, outputs[..n], src[..n], x);
      AssignedEnough(inputs, unused', byProgram, outputs[..n], src[..n], x, t);
      SupplyTaken(inputs, unused, byProgram, t, x[t], j);
    }
  }

  // ---------------------------------------------------------------- the threshold search

  // The largest threshold at which a type still has enough streams; 0 when none has.
  ghost predicate IsThreshold(inputs: seq<Input>, unused: seq<bool>, byProgram: bool, outputs: seq<MediaType>,
                              t: MediaType, x: int)
    requires |unused| == |inputs|
  {
    && 0 <= x <= INT_MAX
    && (x == 0 || Enough(inputs, unused, byProgram, outputs, t, x))
    && forall x' :: x < x' <= INT_MAX ==> !Enough(inputs, unused, byProgram, outputs, t, x')
  }

  // The number of candidates left before a step; each step halves it.
  function Width(e: nat): (w: nat)
    ensures w > 0
  {
    if e == 0 then 1 else 2 * Width(e - 1)
  }

  ghost predicate Thresholds(inputs: seq<Input>, unused: seq<bool>, byProgram: bool, outputs: seq<MediaType>,
                             x: seq<int>)
    requires |unused| == |inputs|
  {
    |x| == NB_TYPES && forall t: MediaType :: IsThreshold(inputs, unused, byProgram, outputs, t, x[t])
  }

  // Of the width candidates from x on, the threshold is one.
  ghost predicate Bracketed(inputs: seq<Input>, unused: seq<bool>, byProgram: bool, outputs: seq<MediaType>,
                            t: MediaType, x: int, width: nat)
    requires |unused| == |inputs|
  {
    && 0 <= x && x + width <= INT_MAX + 1
    && (x == 0 || Enough(inputs, unused, byProgram, outputs, t, x))
    && (x + width == INT_MAX + 1 || !Enough(inputs, unused, byProgram, outputs, t, x + width))
  }

  method CountOutputs(outputs: seq<MediaType>) returns (nbStreams: array<int>)
    ensures fresh(nbStreams) && nbStreams.Length == NB_TYPES
    ensures forall t: MediaType :: nbStreams[t] == Demand(outputs, t)
  {
    nbStreams := new int[NB_TYPES](_ => 0);
    for i := 0 to |outputs|
      invariant forall t: MediaType :: nbStreams[t] == Demand(outputs[..i], t)
    {
      assert outputs[..i + 1][..i] == outputs[..i];
      nbStreams[outputs[i]] := nbStreams[outputs[i]] + 1;
    }
    assert outputs[..|outputs|] == outputs;
  }

  method CountFound(inputs: seq<Input>, unused: array<bool>, byProgram: bool, threshold: array<int>)
    returns (found: array<int>)
    requires unused.Length == |inputs| && threshold.Length == NB_TYPES
    ensures fresh(found) && found.Length == NB_TYPES
    ensures forall t: MediaType :: found[t] == Supply(inputs, unused[..], byProgram, t, threshold[t])
  {
    found := new int[NB_TYPES](_ => 0);
    for j := 0 to |inputs|
      invariant forall t: MediaType :: found[t] == Supply(inputs[..j], unused[..j], byProgram, t, threshold[t])
    {
      assert inputs[..j + 1][..j] == inputs[..j] && unused[..j + 1][..j] == unused[..j];
      var skip := byProgram && !inputs[j].inProgram;
      if unused[j] && !inputs[j].dropped && !skip && threshold[inputs[j].kind] <= inputs[j].frames {
        found[inputs[j].kind] := found[inputs[j].kind] + 1;
      }
    }
    assert inputs[..|inputs|] == inputs && unused[..|inputs|] == unused[..];
  }

  lemma WidthDoubles4(e: nat)
    ensures Width(e + 4) == 16 * Width(e)
  {
    assert Width(e + 2) == 2 * Width(e + 1) == 4 * Width(e);
    assert Width(e + 4) == 2 * Width(e + 3) == 4 * Width(e + 2);
  }

  lemma WidthAtStart()
    ensures Width(31) == 0x8000_0000
  {
    assert Width(3) == 8;
    WidthDoubles4(3);
    WidthDoubles4(7);
    WidthDoubles4(11);
    WidthDoubles4(15);
    WidthDoubles4(19);
    WidthDoubles4(23);
    WidthDoubles4(27);
  }

  // One round: raise every threshold by step, and take it back where too few streams are left.
  method SearchRound(inputs: seq<Input>, unused: array<bool>, byProgram: bool, ghost outputs: seq<MediaType>,
                     nbStreams: array<int>, threshold: array<int>, step: int, ghost e: nat)
    requires unused.Length == |inputs|
    requires nbStreams.Length == threshold.Length == NB_TYPES && threshold != nbStreams
    requires forall t: MediaType :: nbStreams[t] == Demand(outputs, t)
    requires e > 0 && step == Width(e - 1)
    requires forall t: MediaType :: Bracketed(inputs, unused[..], byProgram, outputs, t, threshold[t], Width(e))
    modifies threshold
    ensures forall t: MediaType :: Bracketed(inputs, unused[..], byProgram, outputs, t, threshold[t], Width(e - 1))
  {
    ghost var before := threshold[..];
    for t := 0 to NB_TYPES
      invariant forall t': MediaType :: threshold[t'] == before[t'] + (if t' < t then step else 0)
    {
      threshold[t] := threshold[t] + step;
    }
    var found := CountFound(inputs, unused, byProgram, threshold);
    for t := 0 to NB_TYPES
      invariant forall t': MediaType :: found[t'] == Supply(inputs, unused[..], byProgram, t', before[t'] + step)
      invariant forall t': MediaType :: t' < t ==>
                  Bracketed(inputs, unused[..], byProgram, outputs, t', threshold[t'], Width(e - 1))
      invariant forall t': MediaType :: t <= t' ==> threshold[t'] == before[t'] + step
    {
      assert Bracketed(inputs, unused[..], byProgram, outputs, t, before[t], Width(e));
      if found[t] < nbStreams[t] {
        threshold[t] := threshold[t] - step;
      }
    }
  }

  // The loop over step = 1 << 30, ..., 2, 1.
  method SearchThresholds(inputs: seq<Input>, unused: array<bool>, byProgram: bool, outputs: seq<MediaType>)
    returns (threshold: array<int>)
    requires unused.Length == |inputs|
    ensures fresh(threshold) && threshold.Length == NB_TYPES
    ensures forall t: MediaType :: IsThreshold(inputs, unused[..], byProgram, outputs, t, threshold[t])
  {
    var nbStreams := CountOutputs(outputs);
    threshold := new int[NB_TYPES](_ => 0);
    var step := 0x4000_0000;
    ghost var e: nat := 31;
    WidthAtStart();
    while step != 0
      invariant step == Width(e) / 2
      invariant forall t: MediaType :: nbStreams[t] == Demand(outputs, t)
      invariant forall t: MediaType :: Bracketed(inputs, unused[..], byProgram, outputs, t, threshold[t], Width(e))
      decreases e
    {
      SearchRound(inputs, unused, byProgram, outputs, nbStreams, threshold, step, e);
      step, e := step / 2, e - 1;
    }
    forall t: MediaType
      ensures IsThreshold(inputs, unused[..], byProgram, outputs, t, threshold[t])
    {
      BracketClosed(inputs, unused[..], byProgram, outputs, t, threshold[t]);
    }
  }

  lemma BracketClosed(inputs: seq<Input>, unused: seq<bool>, byProgram: bool, outputs: seq<MediaType>, t: MediaType,
                      x: int)
    requires |unused| == |inputs|
    requires Bracketed(inputs, unused, byProgram, outputs, t, x, Width(0))
    ensures IsThreshold(inputs, unused, byProgram, outputs, t, x)
  {
    forall x' | x < x' <= INT_MAX
      ensures !Enough(inputs, unused, byProgram, outputs, t, x')
    {
      SupplyFalls(inputs, unused, byProgram, t, x + 1, x');
    }
  }

  // ---------------------------------------------------------------- first fit

  // The first stream from j on that may be taken.
  function FirstFit(inputs: seq<Input>, unused: seq<bool>, byProgram: bool, t: MediaType, x: int, j: nat)
    : (r: Option<nat>)
    requires |unused| == |inputs| && j <= |inputs|
    ensures r.Some? ==> j <= r.value < |inputs| && Takes(inputs[r.value], unused[r.value], byProgram, t, x)
    ensures forall i :: j <= i < (if r.Some? then r.value else |inputs|) ==>
              !Takes(inputs[i], unused[i], byProgram, t, x)
    decreases |inputs| - j
  {
    if j == |inputs| then None
    else if Takes(inputs[j], unused[j], byProgram, t, x) then Some(j)
    else FirstFit(inputs, unused, byProgram, t, x, j + 1)
  }

  // The last stream below n of the right type, used or not.
  function LastOfType(inputs: seq<Input>, t: MediaType, n: nat): (r: Option<nat>)
    requires n <= |inputs|
    ensures r.Some? ==> r.value < n && inputs[r.value].kind == t && !inputs[r.value].dropped
    ensures forall i :: (if r.Some? then r.value + 1 else 0) <= i < n ==> inputs[i].kind != t || inputs[i].dropped
  {
    if n == 0 then None
    else if inputs[n - 1].kind == t && !inputs[n - 1].dropped then Some(n - 1)
    else LastOfType(inputs, t, n - 1)
  }

  // First fit, else reuse; None is the fatal exit.
  function Pick(inputs: seq<Input>, unused: seq<bool>, byProgram: bool, t: MediaType, x: seq<int>): (r: Option<nat>)
    requires |unused| == |inputs| && |x| == NB_TYPES
    ensures r.Some? ==> r.value < |inputs| && inputs[r.value].kind == t
  {
    var first := FirstFit(inputs, unused, byProgram, t, x[t], 0);
    if first.Some? then first
    else if byProgram then None
    else LastOfType(inputs, t, |inputs|)
  }

  function Picks(inputs: seq<Input>, unused: seq<bool>, byProgram: bool, outputs: seq<MediaType>, x: seq<int>)
    : Option<seq<nat>>
    requires |unused| == |inputs| && |x| == NB_TYPES
    decreases |outputs|
  {
    if outputs == [] then Some([])
    else
      var j := Pick(inputs, unused, byProgram, outputs[0], x);
      if j.None? then None
      else
        var rest := Picks(inputs, unused[j.value := false], byProgram, outputs[1..], x);
        if rest.None? then None else Some([j.value] + rest.value)
  }

  function Following(chosen: seq<nat>, rest: Option<seq<nat>>): Option<seq<nat>> {
    if rest.None? then None else Some(chosen + rest.value)
  }

  method PickSource(inputs: seq<Input>, unused: array<bool>, byProgram: bool, t: MediaType, x: array<int>)
    returns (r: Option<nat>)
    requires unused.Length == |inputs| && x.Length == NB_TYPES
    ensures r == Pick(inputs, unused[..], byProgram, t, x[..])
  {
    var j := 0;
    while j < |inputs|
      invariant j <= |inputs|
      invariant FirstFit(inputs, unused[..], byProgram, t, x[t], 0) ==
                  FirstFit(inputs, unused[..], byProgram, t, x[t], j)
    {
      var skip := byProgram && !inputs[j].inProgram;
      if unused[j] && !inputs[j].dropped && !skip && inputs[j].kind == t && x[inputs[j].kind] <= inputs[j].frames {
        return Some(j);
      }
      j := j + 1;
    }
    r := None;
    if !byProgram {
      // try again and reuse an existing stream
      j := 0;
      while j < |inputs|
        invariant j <= |inputs|
        invariant r == LastOfType(inputs, t, j)
      {
        if inputs[j].kind == t && !inputs[j].dropped {
          r := Some(j);
        }
        j := j + 1;
      }
    }
  }

  // The source_index of every output in turn; None when transcode gives up.  The
  // thresholds x are the search's.
  method SelectSources(inputs: seq<Input>, unused: array<bool>, byProgram: bool, outputs: seq<MediaType>)
    returns (src: Option<seq<nat>>, ghost x: seq<int>)
    requires unused.Length == |inputs|
    modifies unused
    ensures Thresholds(inputs, old(unused[..]), byProgram, outputs, x)
    ensures src == Picks(inputs, old(unused[..]), byProgram, outputs, x)
    ensures forall s: seq<nat> :: src == Some(s) <==> Greedy(inputs, old(unused[..]), byProgram, outputs, x, s)
    ensures src.Some? ==> forall j :: 0 <= j < |inputs| ==> unused[j] == (old(unused[j]) && j !in src.value)
  {
    var threshold := SearchThresholds(inputs, unused, byProgram, outputs);
    x := threshold[..];
    ghost var unused0 := unused[..];
    var chosen: seq<nat> := [];
    PicksStart(inputs, unused0, byProgram, outputs, x);
    for n := 0 to |outputs|
      invariant threshold[..] == x
      invariant forall j :: 0 <= j < |inputs| ==> unused[j] == (unused0[j] && j !in chosen)
      invariant Picks(inputs, unused0, byProgram, outputs, x) ==
                  Following(chosen, Picks(inputs, unused[..], byProgram, outputs[n..], x))
    {
      PicksStep(inputs, unused[..], byProgram, outputs, n, x, chosen);
      var j := PickSource(inputs, unused, byProgram, outputs[n], threshold);
      if j.None? {
        src := None;
        PicksGreedy(inputs, unused0, byProgram, outputs, x);
        return;
      }
      ghost var before := unused[..];
      chosen := chosen + [j.value];
      unused[j.value] := false;
      assert unused[..] == before[j.value := false];
    }
    src := Some(chosen);
    assert chosen + [] == chosen;
    PicksGreedy(inputs, unused0, byProgram, outputs, x);
  }

  lemma PicksStart(inputs: seq<Input>, unused: seq<bool>, byProgram: bool, outputs: seq<MediaType>, x: seq<int>)
    requires |unused| == |inputs| && |x| == NB_TYPES
    ensures Picks(inputs, unused, byProgram, outputs, x) ==
              Following([], Picks(inputs, unused, byProgram, outputs[0..], x))
  {
    assert outputs[0..] == outputs;
    var all := Picks(inputs, unused, byProgram, outputs, x);
    assert all.Some? ==> [] + all.value == all.value;
  }

  lemma PicksStep(inputs: seq<Input>, unused: seq<bool>, byProgram: bool, outputs: seq<MediaType>, n: nat, x: seq<int>,
                  chosen: seq<nat>)
    requires |unused| == |inputs| && |x| == NB_TYPES && n < |outputs|
    ensures var j := Pick(inputs, unused, byProgram, outputs[n], x);
            Following(chosen, Picks(inputs, unused, byProgram, outputs[n..], x)) ==
            if j.None? then None
            else Following(chosen + [j.value], Picks(inputs, unused[j.value := false], byProgram, outputs[n + 1..], x))
  {
    assert outputs[n..][0] == outputs[n] && outputs[n..][1..] == outputs[n + 1..];
    var j := Pick(inputs, unused, byProgram, outputs[n], x);
    if j.Some? {
      var rest := Picks(inputs, unused[j.value := false], byProgram, outputs[n + 1..], x);
      assert rest.Some? ==> chosen + ([j.value] + rest.value) == chosen + [j.value] + rest.value;
    }
  }

  // ---------------------------------------------------------------- which streams it takes

  // Stream j may be taken once those in taken are.
  predicate Eligible(inputs: seq<Input>, unused: seq<bool>, byProgram: bool, t: MediaType, x: int, taken: seq<nat>,
                     j: nat)
    requires |unused| == |inputs|
  {
    j < |inputs| && Takes(inputs[j], unused[j] && j !in taken, byProgram, t, x)
  }

  // Stream j is the first that may be taken; or, with none, the last of the type at all.
  ghost predicate FirstOrLast(inputs: seq<Input>, unused: seq<bool>, byProgram: bool, t: MediaType, x: int,
                              taken: seq<nat>, j: nat)
    requires |unused| == |inputs|
  {
    && j < |inputs|
    && if Eligible(inputs, unused, byProgram, t, x, taken, j)
       then forall i :: 0 <= i < j ==> !Eligible(inputs, unused, byProgram, t, x, taken, i)
       else && (forall i :: 0 <= i < |inputs| ==> !Eligible(inputs, unused, byProgram, t, x, taken, i))
            && !byProgram && inputs[j].kind == t && !inputs[j].dropped
            && forall i :: j < i < |inputs| ==> inputs[i].kind != t || inputs[i].dropped
  }

  // Every output in turn has such a stream, at its type's threshold.
  ghost predicate Greedy(inputs: seq<Input>, unused: seq<bool>, byProgram: bool, outputs: seq<MediaType>, x: seq<int>,
                         src: seq<nat>)
    requires |unused| == |inputs| && |x| == NB_TYPES
  {
    && |src| == |outputs|
    && forall o :: 0 <= o < |outputs| ==>
         FirstOrLast(inputs, unused, byProgram, outputs[o], x[outputs[o]], src[..o], src[o])
  }

  lemma PickIsFirstOrLast(inputs: seq<Input>, unused: seq<bool>, byProgram: bool, t: MediaType, x: seq<int>, j: nat)
    requires |unused| == |inputs| && |x| == NB_TYPES
    ensures Pick(inputs, unused, byProgram, t, x) == Some(j)
            <==> FirstOrLast(inputs, unused, byProgram, t, x[t], [], j)
  {
    var first := FirstFit(inputs, unused, byProgram, t, x[t], 0);
    assert first.Some? ==> Eligible(inputs, unused, byProgram, t, x[t], [], first.value);
  }

  // One stream more taken.
  lemma TakenFirst(inputs: seq<Input>, unused: seq<bool>, byProgram: bool, t: MediaType, x: int, k: nat,
                   taken: seq<nat>, j: nat)
    requires |unused| == |inputs| && k < |inputs|
    ensures FirstOrLast(inputs, unused, byProgram, t, x, [k] + taken, j)
            <==> FirstOrLast(inputs, unused[k := false], byProgram, t, x, taken, j)
  {
    var unused' := unused[k := false];
    assert forall i: nat :: Eligible(inputs, unused, byProgram, t, x, [k] + taken, i)
                            == Eligible(inputs, unused', byProgram, t, x, taken, i);
    if Eligible(inputs, unused, byProgram, t, x, [k] + taken, j) {
      assert FirstOrLast(inputs, unused, byProgram, t, x, [k] + taken, j)
             <==> forall i: nat :: i < j ==> !Eligible(inputs, unused', byProgram, t, x, taken, i);
    } else {
      assert (forall i: nat :: i < |inputs| ==> !Eligible(inputs, unused, byProgram, t, x, [k] + taken, i))
             <==> forall i: nat :: i < |inputs| ==> !Eligible(inputs, unused', byProgram, t, x, taken, i);
    }
  }

  lemma GreedyFirst(inputs: seq<Input>, unused: seq<bool>, byProgram: bool, outputs: seq<MediaType>, x: seq<int>,
                    src: seq<nat>)
    requires |unused| == |inputs| && |x| == NB_TYPES && outputs != [] && |src| == |outputs| && src[0] < |inputs|
    ensures Greedy(inputs, unused, byProgram, outputs, x, src)
            <==> && FirstOrLast(inputs, unused, byProgram, outputs[0], x[outputs[0]], [], src[0])
                 && Greedy(inputs, unused[src[0] := false], byProgram, outputs[1..], x, src[1..])
  {
    var (unused', rest) := (unused[src[0] := false], src[1..]);
    assert src[..0] == [];
    forall o | 0 <= o < |rest|
      ensures FirstOrLast(inputs, unused, byProgram, outputs[o + 1], x[outputs[o + 1]], src[..o + 1], src[o + 1])
              <==> FirstOrLast(inputs, unused', byProgram, outputs[1..][o], x[outputs[1..][o]], rest[..o], rest[o])
    {
      assert src[..o + 1] == [src[0]] + rest[..o];
      TakenFirst(inputs, unused, byProgram, outputs[o + 1], x[outputs[o + 1]], src[0], rest[..o], rest[o]);
    }
    if Greedy(inputs, unused', byProgram, outputs[1..], x, rest) {
      forall o | 0 < o < |outputs|
        ensures FirstOrLast(inputs, unused, byProgram, outputs[o], x[outputs[o]], src[..o], src[o])
      {
        var o' := o - 1;
        assert FirstOrLast(inputs, unused', byProgram, outputs[1..][o'], x[outputs[1..][o']], rest[..o'], rest[o']);
      }
    }
    if Greedy(inputs, unused, byProgram, outputs, x, src) {
      forall o | 0 <= o < |rest|
        ensures FirstOrLast(inputs, unused', byProgram, outputs[1..][o], x[outputs[1..][o]], rest[..o], rest[o])
      {
        var o' := o + 1;
        assert FirstOrLast(inputs, unused, byProgram, outputs[o'], x[outputs[o']], src[..o'], src[o']);
      }
    }
  }

  // Selection gives exactly these streams: each output in turn the first that may still be
  // taken at the threshold or else the last of its type; and gives up when there are none.
  lemma {:induction false} PicksGreedyIff(inputs: seq<Input>, unused: seq<bool>, byProgram: bool,
                                          outputs: seq<MediaType>, x: seq<int>, src: seq<nat>)
    requires |unused| == |inputs| && |x| == NB_TYPES
    ensures Picks(inputs, unused, byProgram, outputs, x) == Some(src)
            <==> Greedy(inputs, unused, byProgram, outputs, x, src)
    decreases |outputs|
  {
    if outputs != [] {
      var picks := Picks(inputs, unused, byProgram, outputs, x);
      var j := Pick(inputs, unused, byProgram, outputs[0], x);
      if |src| == |outputs| && src[0] < |inputs| {
        PickIsFirstOrLast(inputs, unused, byProgram, outputs[0], x, src[0]);
        GreedyFirst(inputs, unused, byProgram, outputs, x, src);
        PicksGreedyIff(inputs, unused[src[0] := false], byProgram, outputs[1..], x, src[1..]);
        assert src == [src[0]] + src[1..];
        assert j == Some(src[0]) ==> (picks == Some(src)
               <==> Picks(inputs, unused[src[0] := false], byProgram, outputs[1..], x) == Some(src[1..]));
      } else {
        if |src| == |outputs| {
          assert !FirstOrLast(inputs, unused, byProgram, outputs[0], x[outputs[0]], src[..0], src[0]);
        }
        PicksLength(inputs, unused, byProgram, outputs, x);
      }
    }
  }

  lemma {:induction false} PicksLength(inputs: seq<Input>, unused: seq<bool>, byProgram: bool, outputs: seq<MediaType>,
                                       x: seq<int>)
    requires |unused| == |inputs| && |x| == NB_TYPES
    ensures var src := Picks(inputs, unused, byProgram, outputs, x); src.Some? ==> |src.value| == |outputs|
    ensures var src := Picks(inputs, unused, byProgram, outputs, x);
            src.Some? && outputs != [] ==> src.value[0] < |inputs|
    decreases |outputs|
  {
    if outputs != [] {
      var j := Pick(inputs, unused, byProgram, outputs[0], x);
      if j.Some? {
        PicksLength(inputs, unused[j.value := false], byProgram, outputs[1..], x);
      }
    }
  }

  lemma PicksGreedy(inputs: seq<Input>, unused: seq<bool>, byProgram: bool, outputs: seq<MediaType>, x: seq<int>)
    requires |unused| == |inputs| && |x| == NB_TYPES
    ensures forall src: seq<nat> :: Picks(inputs, unused, byProgram, outputs, x) == Some(src)
                                    <==> Greedy(inputs, unused, byProgram, outputs, x, src)
  {
    forall src: seq<nat>
      ensures Picks(inputs, unused, byProgram, outputs, x) == Some(src)
              <==> Greedy(inputs, unused, byProgram, outputs, x, src)
    {
      PicksGreedyIff(inputs, unused, byProgram, outputs, x, src);
    }
  }

  // ---------------------------------------------------------------- what selection achieves

  // With enough streams of every type, first fit never falls through.
  lemma {:induction false} PicksAssign(inputs: seq<Input>, unused: seq<bool>, byProgram: bool, outputs: seq<MediaType>,
                                       x: seq<int>)
    requires |unused| == |inputs| && |x| == NB_TYPES
    requires forall t: MediaType :: Enough(inputs, unused, byProgram, outputs, t, x[t])
    ensures var src := Picks(inputs, unused, byProgram, outputs, x);
            src.Some? && Assigns(inputs, unused, byProgram, outputs, src.value, x)
    decreases |outputs|
  {
    if outputs != [] {
      var t0 := outputs[0];
      DemandFirst(outputs, t0);
      SupplyNone(inputs, unused, byProgram, t0, x[t0]);
      var j := FirstFit(inputs, unused, byProgram, t0, x[t0], 0).value;
      var unused' := unused[j := false];
      forall t: MediaType
        ensures Enough(inputs, unused', byProgram, outputs[1..], t, x[t])
      {
        assert Enough(inputs, unused, byProgram, outputs, t, x[t]);
        DemandFirst(outputs, t);
        SupplyTaken(inputs, unused, byProgram, t, x[t], j);
      }
      PicksAssign(inputs, unused', byProgram, outputs[1..], x);
      AssignsFirst(inputs, unused, byProgram, outputs, j, Picks(inputs, unused', byProgram, outputs[1..], x).value, x);
    }
  }

  lemma AssignsFirst(inputs: seq<Input>, unused: seq<bool>, byProgram: bool, outputs: seq<MediaType>, j: nat,
                     rest: seq<nat>, x: seq<int>)
    requires |unused| == |inputs| && |x| == NB_TYPES && outputs != [] && j < |inputs|
    requires Takes(inputs[j], unused[j], byProgram, outputs[0], x[outputs[0]])
    requires Assigns(inputs, unused[j := false], byProgram, outputs[1..], rest, x)
    ensures Assigns(inputs, unused, byProgram, outputs, [j] + rest, x)
  {
    var src := [j] + rest;
    forall o | 0 <= o < |src|
      ensures src[o] < |inputs| && Takes(inputs[src[o]], unused[src[o]], byProgram, outputs[o], x[outputs[o]])
      ensures o > 0 ==> src[o] != j
    {
      if o > 0 {
        assert src[o] == rest[o - 1] && outputs[o] == outputs[1..][o - 1];
      }
    }
  }

  const ANY_FRAMES: seq<int> := [0, 0, 0, 0, 0]

  lemma ThresholdEnough(inputs: seq<Input>, unused: seq<bool>, byProgram: bool, outputs: seq<MediaType>, t: MediaType,
                        x: int)
    requires |unused| == |inputs|
    requires IsThreshold(inputs, unused, byProgram, outputs, t, x)
    requires Enough(inputs, unused, byProgram, outputs, t, 0)
    ensures Enough(inputs, unused, byProgram, outputs, t, x)
  {
  }

  // At its threshold a type has enough streams exactly when it has enough at all.
  lemma ThresholdIff(inputs: seq<Input>, unused: seq<bool>, byProgram: bool, outputs: seq<MediaType>, t: MediaType,
                     x: int)
    requires |unused| == |inputs| && IsThreshold(inputs, unused, byProgram, outputs, t, x)
    ensures Enough(inputs, unused, byProgram, outputs, t, x) <==> Enough(inputs, unused, byProgram, outputs, t, 0)
  {
    SupplyFalls(inputs, unused, byProgram, t, 0, x);
  }

  ghost predicate AllEnough(inputs: seq<Input>, unused: seq<bool>, byProgram: bool, outputs: seq<MediaType>)
    requires |unused| == |inputs|
  {
    forall t: MediaType :: Enough(inputs, unused, byProgram, outputs, t, 0)
  }

  // Outputs that share no stream.
  ghost predicate Distinct(src: seq<nat>) {
    forall o, o' :: 0 <= o < o' < |src| ==> src[o] != src[o']
  }

  lemma EnoughAssigns(inputs: seq<Input>, unused: seq<bool>, byProgram: bool, outputs: seq<MediaType>, x: seq<int>)
    requires |unused| == |inputs| && Thresholds(inputs, unused, byProgram, outputs, x)
    requires AllEnough(inputs, unused, byProgram, outputs)
    ensures var src := Picks(inputs, unused, byProgram, outputs, x);
            src.Some? && Distinct(src.value) && Assigns(inputs, unused, byProgram, outputs, src.value, x)
  {
    forall t: MediaType
      ensures Enough(inputs, unused, byProgram, outputs, t, x[t])
    {
      ThresholdIff(inputs, unused, byProgram, outputs, t, x[t]);
    }
    PicksAssign(inputs, unused, byProgram, outputs, x);
  }

  lemma Relaxed(inputs: seq<Input>, unused: seq<bool>, byProgram: bool, outputs: seq<MediaType>, src: seq<nat>,
                x: seq<int>)
    requires |unused| == |inputs| && |x| == NB_TYPES && Assigns(inputs, unused, byProgram, outputs, src, x)
    requires forall t: MediaType :: x[t] >= 0
    ensures Assigns(inputs, unused, byProgram, outputs, src, ANY_FRAMES)
  {
  }

  lemma AssignedAllEnough(inputs: seq<Input>, unused: seq<bool>, byProgram: bool, outputs: seq<MediaType>,
                          src: seq<nat>)
    requires |unused| == |inputs| && Assigns(inputs, unused, byProgram, outputs, src, ANY_FRAMES)
    ensures AllEnough(inputs, unused, byProgram, outputs)
  {
    forall t: MediaType
      ensures Enough(inputs, unused, byProgram, outputs, t, 0)
    {
      AssignedEnough(inputs, unused, byProgram, outputs, src, ANY_FRAMES, t);
    }
  }

  // From any state of the inputs: every output gets a stream of its own that may be taken
  // exactly when each type has as many of those as outputs.
  lemma SelectionIff(inputs: seq<Input>, unused: seq<bool>, byProgram: bool, outputs: seq<MediaType>, x: seq<int>)
    requires |unused| == |inputs| && Thresholds(inputs, unused, byProgram, outputs, x)
    ensures var src := Picks(inputs, unused, byProgram, outputs, x);
            src.Some? && Assigns(inputs, unused, byProgram, outputs, src.value, ANY_FRAMES)
            <==> AllEnough(inputs, unused, byProgram, outputs)
  {
    var src := Picks(inputs, unused, byProgram, outputs, x);
    if AllEnough(inputs, unused, byProgram, outputs) {
      EnoughAssigns(inputs, unused, byProgram, outputs, x);
      Relaxed(inputs, unused, byProgram, outputs, src.value, x);
    } else if src.Some? && Assigns(inputs, unused, byProgram, outputs, src.value, ANY_FRAMES) {
      AssignedAllEnough(inputs, unused, byProgram, outputs, src.value);
    }
  }

  // Every pick, reuse included, is a stream that could have been taken at the start.
  lemma {:induction false} PicksTake(inputs: seq<Input>, unused: seq<bool>, byProgram: bool, outputs: seq<MediaType>,
                                     x: seq<int>)
    requires |unused| == |inputs| && |x| == NB_TYPES && Plausible(inputs)
    ensures var src := Picks(inputs, unused, byProgram, outputs, x);
            src.Some? ==>
              && |src.value| == |outputs|
              && forall o :: 0 <= o < |outputs| ==>
                   src.value[o] < |inputs| && Takes(inputs[src.value[o]], true, byProgram, outputs[o], 0)
    decreases |outputs|
  {
    if outputs != [] {
      var j := Pick(inputs, unused, byProgram, outputs[0], x);
      if j.Some? {
        PicksTake(inputs, unused[j.value := false], byProgram, outputs[1..], x);
      }
    }
  }

  lemma PicksAny(inputs: seq<Input>, unused: seq<bool>, byProgram: bool, outputs: seq<MediaType>, src: seq<nat>,
                 t: MediaType)
    requires |unused| == |inputs| && |src| == |outputs| && Distinct(src) && forall j :: 0 <= j < |unused| ==> unused[j]
    requires forall o :: 0 <= o < |outputs| ==>
               src[o] < |inputs| && Takes(inputs[src[o]], true, byProgram, outputs[o], 0)
    ensures Enough(inputs, unused, byProgram, outputs, t, 0)
  {
    assert Assigns(inputs, unused, byProgram, outputs, src, ANY_FRAMES);
    AssignedEnough(inputs, unused, byProgram, outputs, src, ANY_FRAMES, t);
  }

  // Starting with every input on discard, as the source does: selection succeeds without
  // any two outputs sharing an input exactly when each type has as many eligible inputs
  // as outputs.
  lemma DistinctIff(inputs: seq<Input>, unused: seq<bool>, byProgram: bool, outputs: seq<MediaType>, x: seq<int>)
    requires |unused| == |inputs| && Thresholds(inputs, unused, byProgram, outputs, x) && Plausible(inputs)
    requires forall j :: 0 <= j < |unused| ==> unused[j]
    ensures var src := Picks(inputs, unused, byProgram, outputs, x);
            src.Some? && Distinct(src.value) <==> AllEnough(inputs, unused, byProgram, outputs)
  {
    var src := Picks(inputs, unused, byProgram, outputs, x);
    if AllEnough(inputs, unused, byProgram, outputs) {
      EnoughAssigns(inputs, unused, byProgram, outputs, x);
    } else if src.Some? && Distinct(src.value) {
      PicksTake(inputs, unused, byProgram, outputs, x);
      forall t: MediaType
        ensures Enough(inputs, unused, byProgram, outputs, t, 0)
      {
        PicksAny(inputs, unused, byProgram, outputs, src.value, t);
      }
    }
  }

  // Type t cannot be reused: a program is asked for, or no input has it.
  predicate NoReuse(inputs: seq<Input>, byProgram: bool, t: MediaType) {
    byProgram || LastOfType(inputs, t, |inputs|).None?
  }

  ghost predicate Hopeless(inputs: seq<Input>, unused: seq<bool>, byProgram: bool, outputs: seq<MediaType>,
                           x: seq<int>, t: MediaType)
    requires |unused| == |inputs| && |x| == NB_TYPES
  {
    !Enough(inputs, unused, byProgram, outputs, t, x[t]) && NoReuse(inputs, byProgram, t)
  }

  // Picking a stream for the first output changes no type's outlook.
  lemma HopelessStep(inputs: seq<Input>, unused: seq<bool>, byProgram: bool, outputs: seq<MediaType>, x: seq<int>,
                     t: MediaType)
    requires |unused| == |inputs| && |x| == NB_TYPES && outputs != []
    requires Pick(inputs, unused, byProgram, outputs[0], x).Some?
    ensures var unused' := unused[Pick(inputs, unused, byProgram, outputs[0], x).value := false];
            Hopeless(inputs, unused, byProgram, outputs, x, t)
            <==> Hopeless(inputs, unused', byProgram, outputs[1..], x, t)
  {
    var t0 := outputs[0];
    var j := Pick(inputs, unused, byProgram, t0, x).value;
    DemandFirst(outputs, t);
    SupplyTaken(inputs, unused, byProgram, t, x[t], j);
    SupplyNone(inputs, unused, byProgram, t0, x[t0]);
  }

  // The fatal exit is taken exactly when some type has too few streams and cannot be reused.
  lemma {:induction false} GivesUpIff(inputs: seq<Input>, unused: seq<bool>, byProgram: bool, outputs: seq<MediaType>,
                                      x: seq<int>)
    requires |unused| == |inputs| && |x| == NB_TYPES
    ensures Picks(inputs, unused, byProgram, outputs, x).None?
            <==> exists t: MediaType :: Hopeless(inputs, unused, byProgram, outputs, x, t)
    decreases |outputs|
  {
    if outputs != [] {
      var t0 := outputs[0];
      var j := Pick(inputs, unused, byProgram, t0, x);
      if j.None? {
        DemandFirst(outputs, t0);
        SupplyNone(inputs, unused, byProgram, t0, x[t0]);
        assert Hopeless(inputs, unused, byProgram, outputs, x, t0);
      } else {
        var unused' := unused[j.value := false];
        GivesUpIff(inputs, unused', byProgram, outputs[1..], x);
        forall t: MediaType
          ensures Hopeless(inputs, unused, byProgram, outputs, x, t)
                  <==> Hopeless(inputs, unused', byProgram, outputs[1..], x, t)
        {
          HopelessStep(inputs, unused, byProgram, outputs, x, t);
        }
        assert Picks(inputs, unused, byProgram, outputs, x).None?
               <==> Picks(inputs, unused', byProgram, outputs[1..], x).None?;
      }
    }
  }

  // So outputs share an input exactly when some type has too few and each such type can
  // be reused.
  lemma SharedIff(inputs: seq<Input>, unused: seq<bool>, byProgram: bool, outputs: seq<MediaType>, x: seq<int>)
    requires |unused| == |inputs| && Thresholds(inputs, unused, byProgram, outputs, x) && Plausible(inputs)
    requires forall j :: 0 <= j < |unused| ==> unused[j]
    ensures var src := Picks(inputs, unused, byProgram, outputs, x);
            src.Some? && !Distinct(src.value) <==>
              && !AllEnough(inputs, unused, byProgram, outputs)
              && forall t: MediaType ::
                   Enough(inputs, unused, byProgram, outputs, t, 0) || !NoReuse(inputs, byProgram, t)
  {
    DistinctIff(inputs, unused, byProgram, outputs, x);
    GivesUpIff(inputs, unused, byProgram, outputs, x);
    forall t: MediaType
      ensures Hopeless(inputs, unused, byProgram, outputs, x, t)
              <==> !Enough(inputs, unused, byProgram, outputs, t, 0) && NoReuse(inputs, byProgram, t)
    {
      ThresholdIff(inputs, unused, byProgram, outputs, t, x[t]);
    }
  }

  // No distinct assignment does better: for whatever stream was chosen, any other
  // assignment gives some output of that type a stream with no more frames.
  lemma SelectionOptimal(inputs: seq<Input>, unused: seq<bool>, byProgram: bool, outputs: seq<MediaType>, x: seq<int>,
                         other: seq<nat>)
    requires |unused| == |inputs| && Thresholds(inputs, unused, byProgram, outputs, x) && Plausible(inputs)
    requires Assigns(inputs, unused, byProgram, outputs, other, ANY_FRAMES)
    ensures var src := Picks(inputs, unused, byProgram, outputs, x);
            && src.Some? && Assigns(inputs, unused, byProgram, outputs, src.value, x)
            && NoBetter(inputs, outputs, src.value, other)
  {
    forall t: MediaType
      ensures Enough(inputs, unused, byProgram, outputs, t, x[t])
    {
      AssignedEnough(inputs, unused, byProgram, outputs, other, ANY_FRAMES, t);
      ThresholdEnough(inputs, unused, byProgram, outputs, t, x[t]);
    }
    PicksAssign(inputs, unused, byProgram, outputs, x);
    var src := Picks(inputs, unused, byProgram, outputs, x).value;
    forall o | 0 <= o < |outputs|
      ensures HasNoMore(inputs, outputs, other, outputs[o], inputs[src[o]].frames)
    {
      SomeNotAbove(inputs, unused, byProgram, outputs, x, other, outputs[o]);
    }
  }

  // Some output of type t has a stream with at most f frames.
  ghost predicate HasNoMore(inputs: seq<Input>, outputs: seq<MediaType>, src: seq<nat>, t: MediaType, f: int)
    requires |src| == |outputs| && forall o :: 0 <= o < |src| ==> src[o] < |inputs|
  {
    exists o :: 0 <= o < |outputs| && outputs[o] == t && inputs[src[o]].frames <= f
  }

  ghost predicate NoBetter(inputs: seq<Input>, outputs: seq<MediaType>, src: seq<nat>, other: seq<nat>)
    requires |src| == |other| == |outputs|
    requires forall o :: 0 <= o < |src| ==> src[o] < |inputs| && other[o] < |inputs|
  {
    forall o :: 0 <= o < |outputs| ==> HasNoMore(inputs, outputs, other, outputs[o], inputs[src[o]].frames)
  }

  lemma SomeNotAbove(inputs: seq<Input>, unused: seq<bool>, byProgram: bool, outputs: seq<MediaType>, x: seq<int>,
                     other: seq<nat>, t: MediaType)
    requires |unused| == |inputs| && |x| == NB_TYPES && Plausible(inputs)
    requires IsThreshold(inputs, unused, byProgram, outputs, t, x[t])
    requires Assigns(inputs, unused, byProgram, outputs, other, ANY_FRAMES)
    requires t in outputs
    ensures HasNoMore(inputs, outputs, other, t, x[t])
  {
    if !HasNoMore(inputs, outputs, other, t, x[t]) {
      var k :| 0 <= k < |outputs| && outputs[k] == t;
      assert x[t] < inputs[other[k]].frames <= INT_MAX;
      AssignedEnough(inputs, unused, byProgram, outputs, other, ANY_FRAMES[t := x[t] + 1], t);
      assert false;
    }
  }
}
