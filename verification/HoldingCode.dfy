/** The code that takes and respects holds, the retry, the build from a retained backup and the prune, as it runs: step
    by step over the shared stores, with any number of other processes' steps between any two of its own. */
module HoldingCode {
  import opened Options
  import opened Host
  import opened Retention
  import opened Holds

  /** What a process holds, and the state it has held it from. */
  datatype Held = Held(image: Path, from: nat)

  class Stores {
    var s: State
    ghost var states: seq<State>
    ghost var steps: seq<Step>

    constructor (s: State)
      requires s.lock == None && s.pruning == None && s.guarded == map[]
      ensures Valid() && this.s == s && steps == []
    {
      this.s := s;
      states, steps := [s], [];
    }

    /** Everything so far is a run of the protocol, and this is where it stands. */
    ghost predicate Valid()
      reads this
    {
      IsRun(states, steps) && states[|steps|] == s
    }

    twostate predicate Extends()
      reads this
    {
      old(states) <= states && old(steps) <= steps
    }

    /** `p` has held `x` in every state from `from` on. */
    ghost predicate HeldSince(p: Proc, x: Path, from: nat)
      reads this
    {
      from < |states| && forall k :: from <= k < |states| ==> p in states[k].guarded && states[k].guarded[p] == x
    }

    ghost predicate Holding(p: Proc, held: Option<Held>)
      reads this
    {
      if held.Some? then HeldSince(p, held.value.image, held.value.from) else p !in s.guarded
    }

    method Take(step: Step)
      requires Valid() && Enabled(s, step)
      modifies this
      ensures Valid() && Extends() && s == Next(old(s), step) && steps == old(steps) + [step] && states == old(states) + [s]
    {
      s := Next(s, step);
      states, steps := states + [s], steps + [step];
    }

    /** Whatever the others do.  They leave a process alive, its hold on record, and what it does under the lock alone. */
    method Others(p: Proc, ghost held: Option<Held>)
      requires Valid() && p in s.live
      requires Holding(p, held)
      modifies this
      ensures Valid() && Extends() && Undisturbed(old(s), s, p)
      ensures Holding(p, held)
    {
      var n: int := *;
      while n > 0
        invariant Valid() && Extends() && Undisturbed(old(s), s, p)
        invariant Holding(p, held)
      {
        var step: Step := *;
        if Enabled(s, step) && step.p != p {
          OthersLeave(s, step, p);
          Take(step);
        }
        n := n - 1;
      }
    }

    /** The lock, when it is free. */
    method Acquire(p: Proc, ghost held: Option<Held>) returns (ok: bool)
      requires Valid() && p in s.live
      requires Holding(p, held)
      modifies this
      ensures Valid() && Extends() && p in s.live && (ok ==> s.lock == Some(p) && s.pruning == None)
      ensures Holding(p, held)
    {
      Others(p, held);
      RunKeepsInv(states, steps, |steps|);
      ok := s.lock == None;
      if ok {
        Take(Lock(p));
      }
    }

    /** `_held_backups`: every hold is judged, one after another, before anything goes. */
    method JudgeHolds(p: Proc, ghost held: Option<Held>)
      requires Valid() && p in s.live && s.lock == Some(p) && s.pruning.Some?
      requires Holding(p, held)
      modifies this
      ensures Valid() && Extends() && p in s.live && s.lock == Some(p) && s.pruning.Some? && s.pruning.value.unread == {}
      ensures Holding(p, held)
      ensures AllJudged(old(s).pruning.value.unread, steps, p, |old(steps)|, |steps|)
    {
      ghost var all, from := s.pruning.value.unread, |steps|;
      while s.pruning.value.unread != {}
        invariant Valid() && Extends() && p in s.live && s.lock == Some(p) && s.pruning.Some?
        invariant Holding(p, held)
        invariant s.pruning.value.unread <= all && AllJudged(all - s.pruning.value.unread, steps, p, from, |steps|)
        decreases s.pruning.value.unread
      {
        JudgeOne(p, held, all, from);
      }
      assert all - s.pruning.value.unread == all;
    }

    method JudgeOne(p: Proc, ghost held: Option<Held>, ghost all: set<Hold>, ghost from: nat)
      requires Valid() && p in s.live && s.lock == Some(p) && s.pruning.Some? && s.pruning.value.unread != {}
      requires Holding(p, held) && from <= |steps|
      requires s.pruning.value.unread <= all && AllJudged(all - s.pruning.value.unread, steps, p, from, |steps|)
      modifies this
      ensures Valid() && Extends() && p in s.live && s.lock == Some(p) && s.pruning.Some?
      ensures Holding(p, held)
      ensures s.pruning.value.unread < old(s).pruning.value.unread
      ensures AllJudged(all - s.pruning.value.unread, steps, p, from, |steps|)
    {
      ghost var unread, before := s.pruning.value.unread, steps;
      Others(p, held);
      JudgedLater(all - unread, before, steps, p, from);
      var hold :| hold in s.pruning.value.unread;
      var removed: bool := *;
      JudgedNext(all - unread, steps, p, from, hold, removed);
      Take(JudgeHold(p, hold, removed));
      assert all - s.pruning.value.unread == all - unread + {hold};
    }

    /** The removals of a prune whose holds are judged: each surplus image that is there and not kept, or a refusal. */
    method RemoveImages(p: Proc, surplus: set<Path>, ghost held: Option<Held>)
      requires Valid() && p in s.live && s.lock == Some(p) && s.pruning.Some? && s.pruning.value.unread == {}
      requires Holding(p, held)
      modifies this
      ensures Valid() && Extends() && p in s.live && s.lock == Some(p) && s.pruning == old(s.pruning)
      ensures Holding(p, held)
      ensures AllTried(surplus - s.pruning.value.kept, states, steps, p, |old(steps)|, |steps|)
    {
      ghost var from := |steps|;
      var todo := surplus;
      while todo != {}
        invariant Valid() && Extends() && p in s.live && s.lock == Some(p) && s.pruning == old(s.pruning)
        invariant Holding(p, held) && todo <= surplus
        invariant AllTried(surplus - s.pruning.value.kept - todo, states, steps, p, from, |steps|)
        decreases todo
      {
        var x :| x in todo;
        ghost var done, earlier, before := surplus - s.pruning.value.kept - todo, states, steps;
        todo := todo - {x};
        TryImage(p, x, held);
        TriedLater(done, earlier, before, states, steps, p, from);
        TriedNext(surplus - s.pruning.value.kept - todo, done, states, steps, p, from, |before|, x);
      }
    }

    /** One image: left if it is kept, is none of the prune's or is gone, else tried. */
    method TryImage(p: Proc, x: Path, ghost held: Option<Held>)
      requires Valid() && p in s.live && s.lock == Some(p) && s.pruning.Some? && s.pruning.value.unread == {}
      requires Holding(p, held)
      modifies this
      ensures Valid() && Extends() && p in s.live && s.lock == Some(p) && s.pruning == old(s.pruning)
      ensures Holding(p, held)
      ensures AllTried({x} - s.pruning.value.kept, states, steps, p, |old(steps)|, |steps|)
    {
      Others(p, held);
      if x in s.images && InGlob(x) && x !in s.pruning.value.kept {
        var removed: bool := *;
        ghost var before := steps;
        Take(PruneImage(p, x, removed));
        assert Tries(steps[|before|], p, x);
      } else {
        assert InGlob(x) && x !in s.pruning.value.kept ==> x !in states[|steps|].images;
      }
    }

    /** `_prune_backups` under the lock, from reading the holds to the last removal. */
    method Prune(p: Proc, named: set<Path>, surplus: set<Path>, ghost held: Option<Held>) returns (ghost began: nat, ghost ended: nat)
      requires Valid() && p in s.live && s.lock == Some(p) && s.pruning == None
      requires Holding(p, held)
      modifies this
      ensures Valid() && Extends() && p in s.live && s.lock == Some(p) && s.pruning == None
      ensures Holding(p, held)
      ensures |old(steps)| <= began && WholePrune(states, steps, p, named, surplus, began, ended)
    {
      began := |steps|;
      ghost var holds := s.holds;
      Take(BeginPrune(p, named));
      JudgeHolds(p, held);
      ghost var judged := steps;
      RemoveImages(p, surplus, held);
      ended := |steps|;
      ghost var kept, earlier, before := s.pruning.value.kept, states, steps;
      Take(EndPrune(p));
      JudgedLater(holds, judged, steps, p, began + 1);
      TriedLater(surplus - kept, earlier, before, states, steps, p, |judged|);
      assert JudgedThenTried(states, steps, p, surplus, began, |judged|, ended);
    }

    /** `_mark_kept` under the lock, for an image that is there. */
    method Hold(p: Proc, x: Path) returns (ok: bool, ghost held: Option<Held>)
      requires Valid() && p in s.live && s.lock == Some(p) && s.pruning == None && p !in s.guarded
      modifies this
      ensures Valid() && Extends() && p in s.live && s.lock == Some(p) && s.pruning == None
      ensures Holding(p, held) && (ok <==> held.Some?)
      ensures ok ==> held.value.image == x && |old(steps)| < held.value.from <= |steps| && x in states[held.value.from].images
    {
      Others(p, None);
      ok, held := *, None;
      ok := ok && x in s.images;
      if ok {
        Take(WriteHold(p, x));
        held := Some(Held(x, |steps|));
      }
    }

    /** The hold, written under the lock; the preflight's prune follows under the same one. */
    method HoldUnderLock(p: Proc, x: Path, prunes: bool, surplus: set<Path>)
      returns (ok: bool, ghost held: Option<Held>, ghost began: nat, ghost ended: nat)
      requires Valid() && p in s.live && p !in s.guarded
      modifies this
      ensures Valid() && Extends() && p in s.live && Holding(p, held) && (ok <==> held.Some?)
      ensures ok ==> held.value.image == x && |old(steps)| < held.value.from && x in states[held.value.from].images
      ensures ok && prunes ==> held.value.from <= began && WholePrune(states, steps, p, {x}, surplus, began, ended)
    {
      held, began, ended := None, 0, 0;
      ok := Acquire(p, None);
      if ok {
        ok, held, began, ended := HoldThenPrune(p, x, prunes, surplus);
        ghost var earlier, before := states, steps;
        Take(Unlock(p));
        if ok && prunes {
          WholeLater(earlier, before, states, steps, p, {x}, surplus, began, ended);
        }
      }
    }

    method HoldThenPrune(p: Proc, x: Path, prunes: bool, surplus: set<Path>)
      returns (ok: bool, ghost held: Option<Held>, ghost began: nat, ghost ended: nat)
      requires Valid() && p in s.live && s.lock == Some(p) && s.pruning == None && p !in s.guarded
      modifies this
      ensures Valid() && Extends() && p in s.live && s.lock == Some(p) && s.pruning == None && Holding(p, held) && (ok <==> held.Some?)
      ensures ok ==> held.value.image == x && |old(steps)| < held.value.from && x in states[held.value.from].images
      ensures ok && prunes ==> held.value.from <= began && WholePrune(states, steps, p, {x}, surplus, began, ended)
    {
      began, ended := 0, 0;
      ok, held := Hold(p, x);
      if ok && prunes {
        began, ended := Prune(p, {x}, surplus, held);
      }
    }

    /** A build from a retained backup: held under the lock, flattened for as long as that takes, and only then released. */
    method BuildFromBackup(p: Proc, x: Path) returns (built: bool, ghost from: nat, ghost flattened: nat, ghost until: nat)
      requires Valid() && p in s.live && p !in s.guarded
      modifies this
      ensures Valid() && Extends()
      ensures built ==> Throughout(p, x, from, until) && |old(steps)| < from <= flattened < until
      ensures built ==> steps[flattened] == Flatten(p, x) && Releases(p, until)
      ensures built && x.Backup? ==> forall k :: from <= k <= until ==> x in states[k].images
    {
      from, flattened, until := 0, 0, 0;
      ghost var held, began, ended;
      built, held, began, ended := HoldUnderLock(p, x, false, {});
      if built {
        from := held.value.from;
        Others(p, held);
        flattened := |steps|;
        Take(Flatten(p, x));
        until := LetGo(p, held.value);
        BackupIsThere(p, x, from, until);
      }
    }

    /** The rotation under its own lock, with its prune. */
    method RotateHeld(p: Proc, x: Path, surplus: set<Path>, ghost held: Held) returns (rotated: bool, ghost began: nat, ghost ended: nat)
      requires Valid() && p in s.live && Holding(p, Some(held)) && held.image == x
      modifies this
      ensures Valid() && Extends() && p in s.live && Holding(p, Some(held))
      ensures rotated ==> |old(steps)| <= began && WholePrune(states, steps, p, {x}, surplus, began, ended)
    {
      began, ended := 0, 0;
      rotated := Acquire(p, Some(held));
      if rotated {
        began, ended := Prune(p, {x}, surplus, Some(held));
        ghost var earlier, before := states, steps;
        Take(Unlock(p));
        WholeLater(earlier, before, states, steps, p, {x}, surplus, began, ended);
      }
    }

    /** `rotate <candidate>`: held under the preflight's lock before its prune, across the gap, through the rotation and
        its prune, and released at the end.  `pruned` are where the two prunes began and ended. */
    method Retry(p: Proc, x: Path, surplus: set<Path>, surplusThen: set<Path>)
      returns (rotated: bool, ghost from: nat, ghost pruned: seq<nat>, ghost until: nat)
      requires Valid() && p in s.live && p !in s.guarded
      modifies this
      ensures Valid() && Extends()
      ensures rotated ==> Throughout(p, x, from, until) && |old(steps)| < from && Releases(p, until)
      ensures rotated ==> |pruned| == 4 && from <= pruned[0] && pruned[1] < pruned[2] && pruned[3] < until
      ensures rotated ==>
                && WholePrune(states, steps, p, {x}, surplus, pruned[0], pruned[1])
                && WholePrune(states, steps, p, {x}, surplusThen, pruned[2], pruned[3])
    {
      from, pruned, until := 0, [], 0;
      ghost var held, began, ended;
      rotated, held, began, ended := HoldUnderLock(p, x, true, surplus);
      if rotated {
        from := held.value.from;
        ghost var earlier, before := states, steps;
        ghost var again, over;
        rotated, again, over := RotateHeld(p, x, surplusThen, held.value);
        WholeLater(earlier, before, states, steps, p, {x}, surplus, began, ended);
        pruned := [began, ended, again, over];
        earlier, before := states, steps;
        until := LetGo(p, held.value);
        WholeLater(earlier, before, states, steps, p, {x}, surplus, began, ended);
        if rotated {
          WholeLater(earlier, before, states, steps, p, {x}, surplusThen, again, over);
        }
      }
    }

    /** The release in the `finally`: the sidecar may refuse to go, the hold ends with it or with the process. */
    method LetGo(p: Proc, ghost held: Held) returns (ghost until: nat)
      requires Valid() && p in s.live && Holding(p, Some(held)) && held.image in states[held.from].images
      modifies this
      ensures Valid() && Extends() && p !in s.guarded
      ensures Throughout(p, held.image, held.from, until) && |old(steps)| <= until && Releases(p, until)
    {
      Others(p, Some(held));
      until := |steps|;
      HeldImageThroughout(p, held.image, held.from);
      var removed: bool := *;
      Take(Release(p, removed));
    }

    /** The hold ends with step `until`. */
    ghost predicate Releases(p: Proc, until: nat)
      reads this
    {
      until < |steps| && steps[until].Release? && steps[until].p == p
    }

    /** From `from` to `until` the hold stood, and the image with it unless it is of a kind no hold protects. */
    ghost predicate Throughout(p: Proc, x: Path, from: nat, until: nat)
      reads this
    {
      && from <= until < |states|
      && (forall k :: from <= k <= until ==> p in states[k].guarded && states[k].guarded[p] == x)
      && ((forall k :: from <= k <= until ==> !Exposed(states[k], x)) ==> forall k :: from <= k <= until ==> x in states[k].images)
    }

    /** A retained backup is of no exposed kind. */
    lemma BackupIsThere(p: Proc, x: Path, from: nat, until: nat)
      requires Throughout(p, x, from, until)
      ensures x.Backup? ==> forall k :: from <= k <= until ==> x in states[k].images
    {
      assert x.Backup? ==> forall k :: from <= k <= until ==> !Exposed(states[k], x);
    }

    lemma HeldImageThroughout(p: Proc, x: Path, from: nat)
      requires Valid() && HeldSince(p, x, from) && x in states[from].images
      ensures Throughout(p, x, from, |steps|)
    {
      if forall k :: from <= k <= |steps| ==> !Exposed(states[k], x) {
        forall k | from <= k <= |steps|
          ensures x in states[k].images
        {
          HeldImageIsThere(states, steps, from, k, p, x);
        }
      }
    }
  }

  predicate Judges(step: Step, p: Proc, hold: Hold) {
    step.JudgeHold? && step.p == p && step.hold == hold
  }

  ghost predicate AllJudged(holds: set<Hold>, steps: seq<Step>, p: Proc, from: nat, to: nat) {
    to <= |steps| && forall hold :: hold in holds ==> exists k :: from <= k < to && Judges(steps[k], p, hold)
  }

  predicate Tries(step: Step, p: Proc, x: Path) {
    step.PruneImage? && step.p == p && step.image == x
  }

  /** Each of `images` that a prune may take was tried, or was not there to try. */
  ghost predicate AllTried(images: set<Path>, states: seq<State>, steps: seq<Step>, p: Proc, from: nat, to: nat) {
    && to <= |steps| && |states| == |steps| + 1
    && forall x :: x in images && InGlob(x) ==>
         (exists k :: from <= k < to && Tries(steps[k], p, x)) || exists k :: from <= k <= to && x !in states[k].images
  }

  /** A whole prune: every hold on record when it began is judged, then every surplus image that is not kept is tried. */
  ghost predicate WholePrune(states: seq<State>, steps: seq<Step>, p: Proc, named: set<Path>, surplus: set<Path>, began: nat, ended: nat) {
    && began < ended < |steps| && |states| == |steps| + 1
    && steps[began] == BeginPrune(p, named) && steps[ended] == EndPrune(p)
    && exists judged: nat :: JudgedThenTried(states, steps, p, surplus, began, judged, ended)
  }

  ghost predicate JudgedThenTried(states: seq<State>, steps: seq<Step>, p: Proc, surplus: set<Path>, began: nat, judged: nat, ended: nat)
    requires began < ended < |steps| && |states| == |steps| + 1
  {
    && began < judged <= ended && AllJudged(states[began].holds, steps, p, began + 1, judged)
    && states[ended].pruning.Some? && AllTried(surplus - states[ended].pruning.value.kept, states, steps, p, judged, ended)
  }

  lemma WholeLater(earlier: seq<State>, a: seq<Step>, states: seq<State>, b: seq<Step>, p: Proc, named: set<Path>, surplus: set<Path>,
                   began: nat, ended: nat)
    requires WholePrune(earlier, a, p, named, surplus, began, ended)
    requires a <= b && earlier <= states && |states| == |b| + 1
    ensures WholePrune(states, b, p, named, surplus, began, ended)
  {
    var judged: nat :| JudgedThenTried(earlier, a, p, surplus, began, judged, ended);
    assert states[began] == earlier[began] && states[ended] == earlier[ended];
    JudgedLater(earlier[began].holds, a[..judged], b, p, began + 1);
    TriedLater(surplus - states[ended].pruning.value.kept, earlier[..ended + 1], a[..ended], states, b, p, judged);
    assert JudgedThenTried(states, b, p, surplus, began, judged, ended);
  }

  lemma JudgedLater(holds: set<Hold>, a: seq<Step>, b: seq<Step>, p: Proc, from: nat)
    requires AllJudged(holds, a, p, from, |a|) && a <= b
    ensures AllJudged(holds, b, p, from, |b|) && AllJudged(holds, b, p, from, |a|)
  {
    forall hold | hold in holds
      ensures exists k :: from <= k < |a| && Judges(b[k], p, hold)
    {
      var k :| from <= k < |a| && Judges(a[k], p, hold);
      assert Judges(b[k], p, hold);
    }
  }

  lemma JudgedNext(holds: set<Hold>, a: seq<Step>, p: Proc, from: nat, hold: Hold, removed: bool)
    requires AllJudged(holds, a, p, from, |a|) && from <= |a|
    ensures AllJudged(holds + {hold}, a + [JudgeHold(p, hold, removed)], p, from, |a| + 1)
  {
    var b := a + [JudgeHold(p, hold, removed)];
    JudgedLater(holds, a, b, p, from);
    assert Judges(b[|a|], p, hold);
  }

  lemma TriedNext(images: set<Path>, done: set<Path>, states: seq<State>, steps: seq<Step>, p: Proc, from: nat, since: nat, x: Path)
    requires AllTried(done, states, steps, p, from, |steps|) && from <= since
    requires forall y :: y in images ==> y in done || (y == x && AllTried({x}, states, steps, p, since, |steps|))
    ensures AllTried(images, states, steps, p, from, |steps|)
  {
    forall y | y in images && InGlob(y) && y !in done
      ensures (exists k :: from <= k < |steps| && Tries(steps[k], p, y)) || exists k :: from <= k <= |steps| && y !in states[k].images
    {
      assert y == x && y in {x};
    }
  }

  lemma TriedLater(images: set<Path>, earlier: seq<State>, a: seq<Step>, states: seq<State>, b: seq<Step>, p: Proc, from: nat)
    requires AllTried(images, earlier, a, p, from, |a|) && a <= b && earlier <= states && |states| == |b| + 1
    ensures AllTried(images, states, b, p, from, |b|) && AllTried(images, states, b, p, from, |a|)
  {
    forall x | x in images && InGlob(x)
      ensures (exists k :: from <= k < |a| && Tries(b[k], p, x)) || exists k :: from <= k <= |a| && x !in states[k].images
    {
      if k :| from <= k < |a| && Tries(a[k], p, x) {
        assert Tries(b[k], p, x);
      } else {
        var k :| from <= k <= |a| && x !in earlier[k].images;
        assert states[k] == earlier[k];
      }
    }
  }

  /** What others leave alone. */
  predicate Undisturbed(a: State, b: State, p: Proc) {
    && p in b.live
    && (p in b.guarded <==> p in a.guarded) && (p in b.guarded ==> b.guarded[p] == a.guarded[p])
    && (a.lock == Some(p) ==> b.lock == Some(p) && b.pruning == a.pruning)
  }

  lemma OthersLeave(s: State, step: Step, p: Proc)
    requires Enabled(s, step) && step.p != p && p in s.live
    ensures Undisturbed(s, Next(s, step), p)
  {
  }
}
