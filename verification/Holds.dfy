/** Holds under interleaving: builds, retries and rotations as steps of many processes that share the
    rotation lock.  A prune reads the holds one by one, then removes; sweeps and releases need no
    lock; a process may die between any two steps. */
module Holds {
  import opened Options
  import opened Host
  import opened Promotion
  import opened Retention

  /** A builder's hold: the image it is for and the process it is valid with. */
  datatype Hold = Hold(image: Path, owner: Proc)

  /** A prune under way: the holds it has yet to judge and the images it will leave. */
  datatype Pruning = Pruning(unread: set<Hold>, kept: set<Path>)

  /** `guarded` says which image a live process holds: from the write of its hold to its release. */
  datatype State = State(
    images: set<Path>,
    holds: set<Hold>,
    lock: Option<Proc>,
    pruning: Option<Pruning>,
    live: set<Proc>,
    guarded: map<Proc, Path>)

  datatype Step =
    | Start(p: Proc)
    | Die(p: Proc)
    | Lock(p: Proc)
    | Unlock(p: Proc)
    | Create(p: Proc, image: Path)
    | WriteHold(p: Proc, image: Path)
    | Flatten(p: Proc, image: Path)
    | Release(p: Proc, removed: bool)
    | BeginPrune(p: Proc, named: set<Path>)
    | JudgeHold(p: Proc, hold: Hold, removed: bool)
    | PruneImage(p: Proc, image: Path, removed: bool)
    | EndPrune(p: Proc)
    | SweepTemp(p: Proc, image: Path)
    | SweepStranded(p: Proc, image: Path)

  predicate Enabled(s: State, step: Step) {
    match step
    case Start(p) => p !in s.live
    case Die(p) => p in s.live
    case Lock(p) => p in s.live && s.lock == None
    case Unlock(p) => s.lock == Some(p) && s.pruning == None
    case Create(p, x) => p in s.live
    // under the lock, while no prune iterates, for an image that is there
    case WriteHold(p, x) => s.lock == Some(p) && s.pruning == None && x in s.images && p !in s.guarded
    // what a build does with its base, held or not
    case Flatten(p, x) => p in s.live
    case Release(p, removed) => p in s.live && p in s.guarded
    case BeginPrune(p, named) => s.lock == Some(p) && s.pruning == None
    case JudgeHold(p, h, removed) => s.lock == Some(p) && s.pruning.Some? && h in s.pruning.value.unread
    case PruneImage(p, x, removed) =>
      s.lock == Some(p) && s.pruning.Some? && s.pruning.value.unread == {} && x in s.images && InGlob(x) && x !in s.pruning.value.kept
    case EndPrune(p) => s.lock == Some(p) && s.pruning.Some?
    case SweepTemp(p, x) => s.lock == Some(p) && x in s.images && Sweepable(x)
    case SweepStranded(p, x) =>
      p in s.live && x in s.images && x.Image? && x.kind.RebakeSource? && !LivePid(s.live, x.kind.pid)
  }

  function Next(s: State, step: Step): State {
    match step
    case Start(p) => s.(live := s.live + {p})
    // the lock goes with the descriptor, and a prune with its process
    case Die(p) =>
      s.(live := s.live - {p}, guarded := s.guarded - {p},
         lock := if s.lock == Some(p) then None else s.lock, pruning := if s.lock == Some(p) then None else s.pruning)
    case Lock(p) => s.(lock := Some(p))
    case Unlock(p) => s.(lock := None)
    case Create(p, x) => s.(images := s.images + {x})
    case WriteHold(p, x) => s.(holds := s.holds + {Hold(x, p)}, guarded := s.guarded[p := x])
    case Flatten(p, x) => s
    case Release(p, removed) =>
      s.(guarded := s.guarded - {p},
         holds := if removed && p in s.guarded then s.holds - {Hold(s.guarded[p], p)} else s.holds)
    case BeginPrune(p, named) => s.(pruning := Some(Pruning(s.holds, named)))
    case JudgeHold(p, h, removed) =>
      if s.pruning == None then s
      else if InGlob(h.image) && h.owner in s.live then
        s.(pruning := Some(Pruning(s.pruning.value.unread - {h}, s.pruning.value.kept + {h.image})))
      else
        s.(pruning := Some(s.pruning.value.(unread := s.pruning.value.unread - {h})),
           holds := if removed && InGlob(h.image) then s.holds - {h} else s.holds)
    case PruneImage(p, x, removed) => if removed then s.(images := s.images - {x}) else s
    case EndPrune(p) => s.(pruning := None)
    case SweepTemp(p, x) => s.(images := s.images - {x})
    case SweepStranded(p, x) => s.(images := s.images - {x})
  }

  ghost predicate IsRun(states: seq<State>, steps: seq<Step>) {
    && |states| == |steps| + 1
    && Initial(states[0])
    && forall i :: 0 <= i < |steps| ==> Enabled(states[i], steps[i]) && states[i + 1] == Next(states[i], steps[i])
  }

  ghost predicate Initial(s: State) {
    s.lock == None && s.pruning == None && s.guarded == map[]
  }

  /** A live process's hold is on the store, and a prune that is under way keeps its image or has
      the hold still to judge. */
  ghost predicate Inv(s: State) {
    && (s.pruning.Some? ==> s.lock.Some?)
    && (s.lock.Some? ==> s.lock.value in s.live)
    && (forall p :: p in s.guarded ==> p in s.live && Hold(s.guarded[p], p) in s.holds)
    && (s.pruning.Some? ==>
          forall p :: p in s.guarded && InGlob(s.guarded[p]) ==>
            Hold(s.guarded[p], p) in s.pruning.value.unread || s.guarded[p] in s.pruning.value.kept)
  }

  lemma StepKeepsInv(s: State, step: Step)
    requires Inv(s) && Enabled(s, step)
    ensures Inv(Next(s, step))
  {
    var t := Next(s, step);
    forall p | p in t.guarded
      ensures p in t.live && Hold(t.guarded[p], p) in t.holds
    {
      if p in s.guarded {
        assert Hold(s.guarded[p], p) in s.holds;
      }
    }
  }

  lemma {:induction false} RunKeepsInv(states: seq<State>, steps: seq<Step>, i: nat)
    requires IsRun(states, steps) && i <= |steps|
    ensures Inv(states[i])
  {
    if i > 0 {
      RunKeepsInv(states, steps, i - 1);
      StepKeepsInv(states[i - 1], steps[i - 1]);
    }
  }

  predicate Removal(step: Step) {
    step.PruneImage? || step.SweepTemp? || step.SweepStranded?
  }

  /** What no hold protects: a name the temp sweep reclaims, and a rebake-source copy whose builder is gone. */
  predicate Exposed(s: State, x: Path) {
    Sweepable(x) || (x.Image? && x.kind.RebakeSource? && !LivePid(s.live, x.kind.pid))
  }

  /** No prune and no sweep, in any interleaving, removes an image between the writing of a live
      process's hold on it and its release, unless it is one of the exposed kinds. */
  lemma HeldImageStays(states: seq<State>, steps: seq<Step>, i: nat, p: Proc)
    requires IsRun(states, steps) && i < |steps|
    requires p in states[i].guarded && Removal(steps[i])
    requires !Exposed(states[i], states[i].guarded[p])
    ensures states[i].guarded[p] in states[i].images ==> states[i].guarded[p] in states[i + 1].images
  {
    RunKeepsInv(states, steps, i);
  }

  /** From write to release, over any number of steps of anyone. */
  lemma {:induction false} HeldImageIsThere(states: seq<State>, steps: seq<Step>, i: nat, j: nat, p: Proc, x: Path)
    requires IsRun(states, steps) && i <= j <= |steps|
    requires forall k :: i <= k <= j ==> p in states[k].guarded && states[k].guarded[p] == x && !Exposed(states[k], x)
    requires x in states[i].images
    ensures x in states[j].images
  {
    if i < j {
      HeldImageIsThere(states, steps, i, j - 1, p, x);
      if Removal(steps[j - 1]) {
        HeldImageStays(states, steps, j - 1, p);
      }
    }
  }

  /** The exposed kinds are exactly the ones a hold does not protect: while anyone at all has the lock, some prune or
      sweep can take a held image if and only if it is one of them. */
  lemma ExposedIsExact(states: seq<State>, steps: seq<Step>, i: nat, p: Proc)
    requires IsRun(states, steps) && i < |states| && p in states[i].guarded
    requires states[i].guarded[p] in states[i].images && states[i].lock.Some?
    ensures (exists step :: Removal(step) && Enabled(states[i], step) && states[i].guarded[p] !in Next(states[i], step).images)
            <==> Exposed(states[i], states[i].guarded[p])
  {
    RunKeepsInv(states, steps, i);
    var s, x := states[i], states[i].guarded[p];
    if Sweepable(x) {
      var q := s.lock.value;
      assert Enabled(s, SweepTemp(q, x)) && x !in Next(s, SweepTemp(q, x)).images;
    } else if Exposed(s, x) {
      assert Enabled(s, SweepStranded(p, x)) && x !in Next(s, SweepStranded(p, x)).images;
    }
  }

  /** While nobody has the lock, it is so if and only if the image is a rebake-source copy whose builder is gone. */
  lemma UnlockedIsExact(states: seq<State>, steps: seq<Step>, i: nat, p: Proc)
    requires IsRun(states, steps) && i < |states| && p in states[i].guarded
    requires states[i].guarded[p] in states[i].images && states[i].lock == None
    ensures (exists step :: Removal(step) && Enabled(states[i], step) && states[i].guarded[p] !in Next(states[i], step).images)
            <==> var x := states[i].guarded[p]; x.Image? && x.kind.RebakeSource? && !LivePid(states[i].live, x.kind.pid)
  {
    RunKeepsInv(states, steps, i);
    var s, x := states[i], states[i].guarded[p];
    if x.Image? && x.kind.RebakeSource? && !LivePid(s.live, x.kind.pid) {
      assert Enabled(s, SweepStranded(p, x)) && x !in Next(s, SweepStranded(p, x)).images;
    }
  }
}
