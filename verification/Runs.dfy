/** Whole runs of the timer, killed cycles included: what is live, and how far it is from the master. */
module Runs {
  import opened Options
  import opened Decimal
  import opened Host
  import opened Chain
  import opened Cycle

  /** A cycle that ended, or one that was killed in a state it went through; then `rep` says how it would have ended
      and `took` whether a store had taken the candidate's depth by that state. */
  datatype Step = Ended(rep: Report) | Killed(rep: Report, took: bool) {
    /** A new golden is on the disk base, and stays. */
    predicate Promotes() {
      match this
      case Ended(rep) => rep.Promotes()
      case Killed(_, took) => took
    }
  }

  ghost predicate Taken(before: Fs, after: Fs, cfg: Config, master: bool, step: Step) {
    match step
    case Ended(rep) => Cycled(before, after, cfg, master, rep)
    case Killed(rep, took) =>
      && InState(before, after, cfg, CandidateCounts(rep, ChainLength(before, cfg), cfg), rep.Promotes(), rep.StoreTookDepth(), took)
      && FromGoldenBelowLimit(before, cfg, master, rep) && (rep.outcome.Some? ==> rep.source.Some?)
  }

  /** Cycles one after another, each from the stores the last one left, whichever way it ended. */
  ghost predicate IsRun(states: seq<Fs>, steps: seq<Step>, cfg: Config, master: bool) {
    && |states| == |steps| + 1
    && forall i :: 0 <= i < |steps| ==> Taken(states[i], states[i + 1], cfg, master, steps[i])
  }

  /** Every state a cycle goes through is a state it may be killed in. */
  lemma AnyStateMayBeTheLast(visited: set<Fs>, earlier: set<Fs>, late: set<Fs>, before: Fs, after: Fs, x: Fs, cfg: Config, master: bool, rep: Report)
    requires CycleStates(visited, earlier, late, before, cfg, rep) && Cycled(before, after, cfg, master, rep)
    requires x in visited && x !in earlier
    ensures Taken(before, x, cfg, master, Killed(rep, x in late))
  {
  }

  function Promotions(steps: seq<Step>): nat {
    if steps == [] then 0
    else Promotions(steps[..|steps| - 1]) + if steps[|steps| - 1].Promotes() then 1 else 0
  }

  /** The one case the schedule leaves out: at least one store takes the depth of every promotion, and no cycle is killed
      between publishing and recording, when the disk base is new and the depth is not. */
  ghost predicate Orderly(before: Fs, after: Fs, step: Step) {
    && (step.rep.Promotes() ==> step.rep.StoreTookDepth())
    && (step.Killed? && !step.took ==> Contents(after, DISK) == Contents(before, DISK))
  }

  ghost predicate OrderlyRun(states: seq<Fs>, steps: seq<Step>)
    requires |states| == |steps| + 1
  {
    forall i :: 0 <= i < |steps| ==> Orderly(states[i], states[i + 1], steps[i])
  }

  /** No promotion was a bake from the master. */
  predicate GoldenBased(steps: seq<Step>) {
    forall i :: 0 <= i < |steps| && steps[i].Promotes() ==> steps[i].rep.source == Some(Golden)
  }

  /** Every candidate's depth was written beside it. */
  predicate AllWrote(steps: seq<Step>) {
    forall i :: 0 <= i < |steps| && steps[i].Promotes() ==> steps[i].rep.wrote
  }

  /** What one step does to the depth. */
  predicate Deepens(before: int, after: int, cfg: Config, step: Step) {
    if step.Promotes() then
      && (step.rep.source == Some(Master) || step.rep.source == Some(Golden))
      && after == (if !step.rep.wrote then cfg.maxChain else if step.rep.source == Some(Master) then 0 else before + 1)
      && (step.rep.source == Some(Golden) ==> before < cfg.maxChain)
    else
      after == before
  }

  lemma DepthAfterStep(before: Fs, after: Fs, cfg: Config, step: Step)
    requires Taken(before, after, cfg, true, step) && Orderly(before, after, step)
    ensures Deepens(ChainLength(before, cfg), ChainLength(after, cfg), cfg, step)
  {
    assert step.rep.source.Some? ==> step.rep.source.value == Master || step.rep.source.value == Golden;
  }

  /** The depths a stretch of golden-based steps goes through. */
  lemma {:induction false} DepthsGrow(depths: seq<int>, steps: seq<Step>, cfg: Config)
    requires |depths| == |steps| + 1 && GoldenBased(steps)
    requires forall i :: 0 <= i < |steps| ==> Deepens(depths[i], depths[i + 1], cfg, steps[i])
    ensures AllWrote(steps) ==> depths[|steps|] == depths[0] + Promotions(steps)
    ensures !AllWrote(steps) ==> depths[|steps|] == cfg.maxChain
    ensures Promotions(steps) > 0 ==> depths[0] + Promotions(steps) <= cfg.maxChain
    ensures Promotions(steps) == 0 ==> depths[|steps|] == depths[0]
    decreases |steps|
  {
    var n := |steps|;
    if n > 0 {
      var less := steps[..n - 1];
      DepthsGrow(depths[..n], less, cfg);
      assert Deepens(depths[n - 1], depths[n], cfg, steps[n - 1]);
      assert AllWrote(steps) <==> AllWrote(less) && (steps[n - 1].Promotes() ==> steps[n - 1].rep.wrote) by {
        assert forall k :: 0 <= k < n - 1 ==> less[k] == steps[k];
      }
    }
  }

  /** Golden-based promotions deepen the chain by exactly one each where the depth was written beside the candidate, and
      end it where it was not; none starts at the limit. */
  lemma ChainGrows(states: seq<Fs>, steps: seq<Step>, cfg: Config)
    requires IsRun(states, steps, cfg, true) && OrderlyRun(states, steps) && GoldenBased(steps)
    ensures AllWrote(steps) ==> ChainLength(states[|steps|], cfg) == ChainLength(states[0], cfg) + Promotions(steps)
    ensures !AllWrote(steps) ==> ChainLength(states[|steps|], cfg) == cfg.maxChain
    ensures Promotions(steps) > 0 ==> ChainLength(states[0], cfg) + Promotions(steps) <= cfg.maxChain
    ensures Promotions(steps) == 0 ==> ChainLength(states[|steps|], cfg) == ChainLength(states[0], cfg)
  {
    var depths := seq(|states|, i requires 0 <= i < |states| => ChainLength(states[i], cfg));
    forall i | 0 <= i < |steps|
      ensures Deepens(depths[i], depths[i + 1], cfg, steps[i])
    {
      assert Taken(states[i], states[i + 1], cfg, true, steps[i]) && Orderly(states[i], states[i + 1], steps[i]);
      DepthAfterStep(states[i], states[i + 1], cfg, steps[i]);
    }
    DepthsGrow(depths, steps, cfg);
  }

  /** With the master present, wherever in a run it starts, a stretch of golden-based promotions is no longer than the
      distance from the depth it starts at to the limit. */
  lemma MasterWithinMaxChain(states: seq<Fs>, steps: seq<Step>, cfg: Config, i: nat, j: nat)
    requires IsRun(states, steps, cfg, true) && OrderlyRun(states, steps) && i <= j <= |steps|
    requires GoldenBased(steps[i..j])
    ensures Promotions(steps[i..j]) <= if ChainLength(states[i], cfg) < cfg.maxChain then cfg.maxChain - ChainLength(states[i], cfg) else 0
  {
    var s, r := states[i..j + 1], steps[i..j];
    forall k | 0 <= k < |r|
      ensures Taken(s[k], s[k + 1], cfg, true, r[k]) && Orderly(s[k], s[k + 1], r[k])
    {
      assert Taken(states[i + k], states[i + k + 1], cfg, true, steps[i + k]);
      assert Orderly(states[i + k], states[i + k + 1], steps[i + k]);
    }
    ChainGrows(s, r, cfg);
  }

  /** A depth that is no negative number never becomes one. */
  lemma {:induction false} NeverNegative(states: seq<Fs>, steps: seq<Step>, cfg: Config, i: nat)
    requires IsRun(states, steps, cfg, true) && OrderlyRun(states, steps) && i <= |steps|
    requires ChainLength(states[0], cfg) >= 0
    ensures ChainLength(states[i], cfg) >= 0
  {
    if i > 0 {
      NeverNegative(states, steps, cfg, i - 1);
      assert Taken(states[i - 1], states[i], cfg, true, steps[i - 1]) && Orderly(states[i - 1], states[i], steps[i - 1]);
      DepthAfterStep(states[i - 1], states[i], cfg, steps[i - 1]);
    }
  }

  lemma AtMostMaxChainInARow(states: seq<Fs>, steps: seq<Step>, cfg: Config, i: nat, j: nat)
    requires IsRun(states, steps, cfg, true) && OrderlyRun(states, steps) && i <= j <= |steps|
    requires ChainLength(states[0], cfg) >= 0
    requires Promotions(steps[i..j]) > cfg.maxChain
    ensures exists k :: i <= k < j && steps[k].Promotes() && steps[k].rep.source == Some(Master)
  {
    if forall k :: i <= k < j && steps[k].Promotes() ==> steps[k].rep.source != Some(Master) {
      forall k | 0 <= k < |steps[i..j]| && steps[i..j][k].Promotes()
        ensures steps[i..j][k].rep.source == Some(Golden)
      {
        assert steps[i..j][k] == steps[i + k] && steps[i + k].rep.source != Some(Master);
        assert Taken(states[i + k], states[i + k + 1], cfg, true, steps[i + k]);
        assert Orderly(states[i + k], states[i + k + 1], steps[i + k]);
        DepthAfterStep(states[i + k], states[i + k + 1], cfg, steps[i + k]);
      }
      NeverNegative(states, steps, cfg, i);
      MasterWithinMaxChain(states, steps, cfg, i, j);
      assert false;
    }
  }

  /** Whatever fails along the way and wherever cycles are killed, what is live is what was live at first or bytes for
      which the gate returned true. */
  lemma {:induction false} OnlyAcceptedBytesGoLive(states: seq<Fs>, steps: seq<Step>, cfg: Config, master: bool)
    requires IsRun(states, steps, cfg, master)
    ensures GatedOrKept(states[0], states[|steps|], DISK, cfg)
    ensures GatedOrKept(states[0], states[|steps|], RAM, cfg)
  {
    var n := |steps|;
    if n > 0 {
      OnlyAcceptedBytesGoLive(states[..n], steps[..n - 1], cfg, master);
      assert Taken(states[n - 1], states[n], cfg, master, steps[n - 1]);
      assert states[..n][n - 1] == states[n - 1];
    }
  }

  /** And every backup is an initial one or a whole copy of a golden that was live when one of the cycles began. */
  lemma {:induction false} BackupsAreGoldens(states: seq<Fs>, steps: seq<Step>, cfg: Config, master: bool, stamp: nat)
    requires IsRun(states, steps, cfg, master) && At(states[|steps|], Backup(stamp)).Some?
    ensures At(states[|steps|], Backup(stamp)) == At(states[0], Backup(stamp))
            || exists k :: 0 <= k < |steps| && IsFile(states[k], DISK) && Contents(states[|steps|], Backup(stamp)) == Contents(states[k], DISK)
  {
    var n := |steps|;
    if n > 0 {
      assert Taken(states[n - 1], states[n], cfg, master, steps[n - 1]);
      if At(states[n], Backup(stamp)) == At(states[n - 1], Backup(stamp)) {
        BackupsAreGoldens(states[..n], steps[..n - 1], cfg, master, stamp);
        assert forall k :: 0 <= k < n ==> states[..n][k] == states[k];
      }
    }
  }

  // ---- how far the schedule reaches when the record holds a negative number

  /** A golden on both stores with `depth` in its record. */
  function GoldenAt(depth: int): Fs {
    map[DISK := Regular("golden", 1, MODE_0644), RAM := Regular("golden", 1, MODE_0644), Record := Regular(Show(depth), 1, MODE_0644)]
  }

  lemma GoldenReads(depth: int, cfg: Config)
    ensures ChainLength(GoldenAt(depth), cfg) == depth
  {
    ShowReads(depth);
    assert NewestMarkers(GoldenAt(depth)) == {};
  }

  /** The n-th cycle's names are free. */
  ghost predicate NamesFree(fs: Fs, n: nat) {
    forall i: nat :: i >= n ==>
      At(fs, Image(Candidate, i)) == None && At(fs, Sidecar(Image(Candidate, i))) == None && At(fs, Marker(Image(Candidate, i))) == None
  }

  /** One cycle on a host where nothing fails, with a gate that accepts everything. */
  method OneRebake(h: Host, cfg: Config, n: nat) returns (rep: Report)
    requires h.Valid() && cfg.Valid() && h.reliable && forall b :: cfg.Gate(b)
    requires IsFile(h.fs, DISK) && ChainLength(h.fs, cfg) < cfg.maxChain && NamesFree(h.fs, n)
    modifies h
    ensures h.Valid() && h.reliable && IsFile(h.fs, DISK) && NamesFree(h.fs, n + 1)
    ensures Cycled(old(h.fs), h.fs, cfg, true, rep)
    ensures rep.Promotes() && rep.StoreTookDepth() && rep.wrote && rep.source == Some(Golden)
    ensures ChainLength(h.fs, cfg) == ChainLength(old(h.fs), cfg) + 1
  {
    ghost var late;
    rep, late := RefreshAndRotate(h, cfg, {}, false, true, Image(Candidate, n), Image(RebakeSource(0), n), n);
    forall i: nat | i >= n + 1
      ensures At(h.fs, Image(Candidate, i)) == None && At(h.fs, Sidecar(Image(Candidate, i))) == None
              && At(h.fs, Marker(Image(Candidate, i))) == None
    {
      assert Unrelated(Image(Candidate, i), Image(Candidate, n)) && Unrelated(Sidecar(Image(Candidate, i)), Image(Candidate, n))
             && Unrelated(Marker(Image(Candidate, i)), Image(Candidate, n));
    }
  }

  /** Cycles one after another that promote from the golden, with the depth in a store. */
  ghost predicate Rebaked(states: seq<Fs>, reports: seq<Report>, cfg: Config) {
    |states| == |reports| + 1 && forall i :: 0 <= i < |reports| ==> RebakeStep(states[i], states[i + 1], cfg, reports[i])
  }

  ghost predicate RebakeStep(before: Fs, after: Fs, cfg: Config, rep: Report) {
    rep.Promotes() && rep.StoreTookDepth() && rep.source == Some(Golden) && Cycled(before, after, cfg, true, rep)
  }

  lemma RebakedOn(states: seq<Fs>, reports: seq<Report>, cfg: Config, after: Fs, rep: Report)
    requires Rebaked(states, reports, cfg) && RebakeStep(states[|reports|], after, cfg, rep)
    ensures Rebaked(states + [after], reports + [rep], cfg)
  {
  }

  lemma RebakedIsRun(states: seq<Fs>, reports: seq<Report>, cfg: Config)
    requires Rebaked(states, reports, cfg)
    ensures IsRun(states, seq(|reports|, i requires 0 <= i < |reports| => Ended(reports[i])), cfg, true)
    ensures forall i :: 0 <= i < |reports| ==>
              reports[i].Promotes() && reports[i].StoreTookDepth() && reports[i].source == Some(Golden)
  {
    forall i | 0 <= i < |reports|
      ensures reports[i].Promotes() && reports[i].StoreTookDepth() && reports[i].source == Some(Golden)
    {
      assert RebakeStep(states[i], states[i + 1], cfg, reports[i]);
    }
  }

  /** The bound is attained by the program itself, from every depth below the limit, negative ones included: with -1 in
      the record, `maxChain` + 1 cycles in a row promote from the golden although the master is present. */
  method RebakeUntilDue(cfg: Config, depth: int) returns (reports: seq<Report>, ghost states: seq<Fs>)
    requires cfg.Valid() && depth < cfg.maxChain && forall b :: cfg.Gate(b)
    ensures |reports| == cfg.maxChain - depth
    ensures forall i :: 0 <= i < |reports| ==>
              reports[i].Promotes() && reports[i].StoreTookDepth() && reports[i].source == Some(Golden)
    ensures IsRun(states, seq(|reports|, i requires 0 <= i < |reports| => Ended(reports[i])), cfg, true)
    ensures ChainLength(states[0], cfg) == depth
  {
    GoldenReads(depth, cfg);
    var h := new Host(GoldenAt(depth), 1, true);
    reports := [];
    states := [h.fs];
    for n := 0 to cfg.maxChain - depth
      invariant h.Valid() && h.reliable && IsFile(h.fs, DISK) && NamesFree(h.fs, n) && fresh(h)
      invariant ChainLength(h.fs, cfg) == depth + n && |reports| == n && Rebaked(states, reports, cfg) && states[n] == h.fs
      invariant ChainLength(states[0], cfg) == depth
    {
      var rep := OneRebake(h, cfg, n);
      RebakedOn(states, reports, cfg, h.fs, rep);
      reports := reports + [rep];
      states := states + [h.fs];
    }
    RebakedIsRun(states, reports, cfg);
  }
}
