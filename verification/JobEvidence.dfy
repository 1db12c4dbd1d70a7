/** Evidence: the spooled input of a job whose digest a claim thread found to differ from the recorded one. */
module JobEvidence {
  import opened Options
  import opened Spool
  import opened Jobs
  import opened JobRuns

  /** The steps that take an input's name, a claim thread's own clean-up aside. */
  predicate Unlinks(step: Step, id: Id) {
    match step
    case Uploads(i, m) => i == id && m.Undoes? && m.unlinks
    case Consumes(i, unlinks) => i == id && unlinks
    case Removes(i, input, _) => i == id && input
    case _ => false
  }

  /** The one claim thread there can be for the job is reading its input, or means to keep it. */
  ghost predicate Spares(s: State, id: Id, c: ClaimId) {
    && id in s.jobs && s.jobs[id].row.Some? && s.jobs[id].row.value.status != Queued && s.jobs[id].row.value.claim == c
    && (c in s.workers && s.workers[c].id == id ==> s.workers[c].at.Copying? || s.workers[c].keepInput)
  }

  lemma NameUnderUpload(site: Site, clock: int, j: Job, m: UploadMove)
    requires UploadEnabled(site, j, m)
    ensures UploadNext(site, clock, j, m).named <==> j.named && !(m.Undoes? && m.unlinks)
  {
    match m {
      case Undoes(unlinks, _) => assert UploadNext(site, clock, j, m).named == (j.named && !unlinks);
      case _ => assert UploadNext(site, clock, j, m).named == j.named;
    }
  }

  lemma NameUnderWork(clock: int, j: Job, c: ClaimId, w: Worker, m: WorkMove)
    requires WorkEnabled(clock, j, c, w, m) && (w.at.Copying? || w.keepInput)
    ensures WorkJob(clock, j, c, w, m).named <==> j.named
  {
    match m {
      case Leaves(_) =>
      case _ => assert WorkJob(clock, j, c, w, m).named == j.named;
    }
  }

  /** No other thread has the job, so only the unlinking steps take the name. */
  lemma NameUnderStep(site: Site, s: State, step: Step, id: Id, c: ClaimId)
    requires Inv(site, s) && Enabled(site, s, step) && Spares(s, id, c)
    ensures id in Next(site, s, step).jobs
    ensures Next(site, s, step).jobs[id].named <==> s.jobs[id].named && !Unlinks(step, id)
  {
    match step {
      case Uploads(i, m) => NameUnderUpload(site, s.clock, s.jobs[i], m);
      case Works(d, m) =>
        var w := s.workers[d];
        if w.id == id {
          assert WorkerInv(site, s.jobs[id], d, w);
          NameUnderWork(s.clock, s.jobs[id], d, w, m);
        }
      case _ =>
    }
  }

  /** What its own move does to a thread's record. */
  lemma ThreadMoves(site: Site, clock: int, j: Job, c: ClaimId, w: Worker, m: WorkMove)
    requires WorkEnabled(clock, j, c, w, m)
    ensures var went := WorkNext(site, clock, j, c, w, m);
            went.Some? ==>
              && went.value.id == w.id && (w.keepInput ==> went.value.keepInput) && went.value.at != Opening
              && (went.value.at.Copying? ==> w.at == Opening || w.at.Copying?)
  {
  }

  /** A thread's record after a step that is not its own. */
  lemma ThreadRests(site: Site, s: State, step: Step, c: ClaimId)
    requires Enabled(site, s, step) && c < s.nextClaim && !(step.Works? && step.claim == c)
    ensures var t := Next(site, s, step);
            c < t.nextClaim && (c in t.workers <==> c in s.workers) && (c in s.workers ==> t.workers[c] == s.workers[c])
  {
  }

  /** Where a claim thread stood one step earlier. */
  lemma OneStepBefore(site: Site, s: State, step: Step, c: ClaimId)
    requires Inv(site, s) && Enabled(site, s, step) && c < s.nextClaim
    ensures c < Next(site, s, step).nextClaim
    ensures c in Next(site, s, step).workers ==>
              var before, after := s.workers, Next(site, s, step).workers;
              && c in before && before[c].id == after[c].id && (before[c].keepInput ==> after[c].keepInput)
              && (after[c].at == Opening ==> before[c].at == Opening)
              && (after[c].at.Copying? ==> before[c].at == Opening || before[c].at.Copying?)
  {
    if step.Works? && step.claim == c {
      ThreadMoves(site, s.clock, s.jobs[s.workers[c].id], c, s.workers[c], step.work);
    } else {
      ThreadRests(site, s, step, c);
    }
  }

  /** A thread that found a mismatch keeps sparing the input, to its end and beyond. */
  lemma MismatchSpares(site: Site, s: State, step: Step, id: Id, c: ClaimId)
    requires Inv(site, s) && Enabled(site, s, step) && Spares(s, id, c) && c < s.nextClaim
    requires c in s.workers && s.workers[c].id == id ==> s.workers[c].keepInput
    ensures var t := Next(site, s, step);
            Spares(t, id, c) && c < t.nextClaim && (c in t.workers && t.workers[c].id == id ==> t.workers[c].keepInput)
  {
    StepKeepsInv(site, s, step);
    OneStepBefore(site, s, step, c);
    assert Onward(s.jobs[id], Next(site, s, step).jobs[id]);
  }

  /** A claim thread found the input to differ: it opened it at `o`, and reached its end with another digest at `i`. */
  ghost predicate Mismatched(states: seq<State>, steps: seq<Step>, id: Id, c: ClaimId, o: nat, i: nat)
    requires |states| == |steps| + 1
  {
    && o < i < |steps| && steps[o] == Works(c, Opens(true, true)) && steps[i] == Works(c, Ends)
    && c in states[o].workers && states[o].workers[c].id == id
    && c in states[i + 1].workers && states[i + 1].workers[c].keepInput
  }

  /** Once its input is open a thread never waits to open it again. */
  lemma {:induction false} OpenedOnce(site: Site, states: seq<State>, steps: seq<Step>, c: ClaimId, o: nat, t: nat)
    requires IsRun(site, states, steps) && o < t <= |steps| && steps[o] == Works(c, Opens(true, true))
    ensures c < states[t].nextClaim && (c in states[t].workers ==> states[t].workers[c].at != Opening)
    decreases t
  {
    RunKeepsInv(site, states, steps, t - 1);
    if t == o + 1 {
      OneStepBefore(site, states[o], steps[o], c);
      ThreadMoves(site, states[o].clock, states[o].jobs[states[o].workers[c].id], c, states[o].workers[c], steps[o].work);
    } else {
      OpenedOnce(site, states, steps, c, o, t - 1);
      OneStepBefore(site, states[t - 1], steps[t - 1], c);
    }
  }

  /** The thread is reading the input of `id`. */
  ghost predicate Reading(s: State, c: ClaimId, id: Id) {
    c in s.workers && s.workers[c].id == id && s.workers[c].at.Copying?
  }

  lemma ReadBefore(site: Site, s: State, step: Step, c: ClaimId, who: Id)
    requires Inv(site, s) && Enabled(site, s, step) && c < s.nextClaim
    requires c in s.workers ==> s.workers[c].at != Opening
    requires Reading(Next(site, s, step), c, who)
    ensures Reading(s, c, who)
  {
    OneStepBefore(site, s, step, c);
  }

  /** From the opening to the mismatch the thread reads. */
  lemma {:induction false} ReadsUntilMismatch(site: Site, states: seq<State>, steps: seq<Step>, c: ClaimId, who: Id, o: nat, i: nat, t: nat)
    requires IsRun(site, states, steps) && o < t <= i < |steps|
    requires steps[o] == Works(c, Opens(true, true)) && Reading(states[i], c, who)
    ensures Reading(states[t], c, who)
    decreases i - t
  {
    if t < i {
      ReadsUntilMismatch(site, states, steps, c, who, o, i, t + 1);
      RunKeepsInv(site, states, steps, t);
      OpenedOnce(site, states, steps, c, o, t);
      ReadBefore(site, states[t], steps[t], c, who);
    }
  }

  lemma EndsReading(site: Site, s: State, c: ClaimId)
    requires Enabled(site, s, Works(c, Ends))
    ensures c in s.workers && s.workers[c].at.Copying?
  {
  }

  /** Throughout, from the opening on, the job's thread spares its input. */
  lemma {:induction false} SparedThroughout(site: Site, states: seq<State>, steps: seq<Step>, id: Id, c: ClaimId, o: nat, i: nat, t: nat)
    requires IsRun(site, states, steps) && Mismatched(states, steps, id, c, o, i) && o < t <= |steps|
    ensures Spares(states[t], id, c) && c < states[t].nextClaim
    ensures t > i && c in states[t].workers && states[t].workers[c].id == id ==> states[t].workers[c].keepInput
    decreases t
  {
    RunKeepsInv(site, states, steps, t);
    if t <= i {
      SameThread(site, states, steps, id, c, o, i);
      EndsReading(site, states[i], c);
      ReadsUntilMismatch(site, states, steps, c, id, o, i, t);
      ItsThreadSpares(site, states[t], id, c);
    } else if t == i + 1 {
      SameThread(site, states, steps, id, c, o, i);
      RunKeepsInv(site, states, steps, i);
      OneStepBefore(site, states[i], steps[i], c);
      ItsThreadSpares(site, states[t], id, c);
    } else {
      RunKeepsInv(site, states, steps, t - 1);
      SparedThroughout(site, states, steps, id, c, o, i, t - 1);
      MismatchSpares(site, states[t - 1], steps[t - 1], id, c);
    }
  }

  /** A thread of the job that is reading, or means to keep, spares its input. */
  lemma ItsThreadSpares(site: Site, s: State, id: Id, c: ClaimId)
    requires Inv(site, s) && c in s.workers && s.workers[c].id == id && (s.workers[c].at.Copying? || s.workers[c].keepInput)
    ensures Spares(s, id, c) && c < s.nextClaim
  {
    assert WorkerInv(site, s.jobs[id], c, s.workers[c]);
  }

  /** It is one thread and one job from the opening to the mismatch. */
  lemma SameThread(site: Site, states: seq<State>, steps: seq<Step>, id: Id, c: ClaimId, o: nat, i: nat)
    requires IsRun(site, states, steps) && Mismatched(states, steps, id, c, o, i)
    ensures c in states[i].workers && states[i].workers[c].id == id
  {
    RunKeepsInv(site, states, steps, o);
    EndsReading(site, states[i], c);
    ReadsUntilMismatch(site, states, steps, c, states[i].workers[c].id, o, i, o + 1);
    OneStepBefore(site, states[o], steps[o], c);
  }

  /** No step after `o` and before `k` takes the input's name. */
  predicate NeverUnlinked(steps: seq<Step>, id: Id, o: nat, k: nat)
    requires k <= |steps|
  {
    forall t :: o < t < k ==> !Unlinks(steps[t], id)
  }

  /** After a mismatch the input is still named, in any later state of any run, if and only if since the thread opened it
      no upload's clean-up, no orphan recovery and no sweep has unlinked it. */
  lemma {:induction false} EvidenceSurvives(site: Site, states: seq<State>, steps: seq<Step>, id: Id, c: ClaimId, o: nat, i: nat, k: nat)
    requires IsRun(site, states, steps) && Mismatched(states, steps, id, c, o, i) && o < k <= |steps|
    ensures id in states[k].jobs
    ensures states[k].jobs[id].named <==> NeverUnlinked(steps, id, o, k)
    decreases k
  {
    if k == o + 1 {
      OpenedIsNamed(site, states[o], steps[o], id, c);
    } else {
      EvidenceSurvives(site, states, steps, id, c, o, i, k - 1);
      SparedThroughout(site, states, steps, id, c, o, i, k - 1);
      RunKeepsInv(site, states, steps, k - 1);
      NameUnderStep(site, states[k - 1], steps[k - 1], id, c);
      OneStepOn(steps, id, o, k);
    }
  }

  lemma OneStepOn(steps: seq<Step>, id: Id, o: nat, k: nat)
    requires o + 1 < k <= |steps|
    ensures NeverUnlinked(steps, id, o, k) <==> NeverUnlinked(steps, id, o, k - 1) && !Unlinks(steps[k - 1], id)
  {
  }

  lemma OpenedIsNamed(site: Site, s: State, step: Step, id: Id, c: ClaimId)
    requires Enabled(site, s, step) && step == Works(c, Opens(true, true)) && s.workers[c].id == id
    ensures id in Next(site, s, step).jobs && Next(site, s, step).jobs[id].named
  {
  }

  /** An input is consumed only after an orphan recovery took the RUNNING row and was told so. */
  lemma {:induction false} ConsumedAfterOrphan(site: Site, states: seq<State>, steps: seq<Step>, id: Id, t: nat) returns (w: nat)
    requires IsRun(site, states, steps) && t <= |steps| && id in states[t].jobs && states[t].jobs[id].recovering
    ensures w < t && steps[w].Orphans? && steps[w].id == id && steps[w].answers
    decreases t
  {
    w := t - 1;
    RecoveringArises(site, states[w], steps[w], id);
    if !(steps[w].Orphans? && steps[w].id == id && steps[w].answers) {
      w := ConsumedAfterOrphan(site, states, steps, id, w);
    }
  }

  lemma RecoveringArises(site: Site, s: State, step: Step, id: Id)
    requires Enabled(site, s, step) && id in Next(site, s, step).jobs && Next(site, s, step).jobs[id].recovering
    ensures id in s.jobs
    ensures (step.Orphans? && step.id == id && step.answers) || s.jobs[id].recovering
  {
    match step {
      case Uploads(i, m) => SameFlag(UploadNext(site, s.clock, s.jobs[i], m), s.jobs[i], site, s.clock, m);
      case _ =>
    }
  }

  lemma SameFlag(b: Job, a: Job, site: Site, clock: int, m: UploadMove)
    requires b == UploadNext(site, clock, a, m)
    ensures b.recovering == a.recovering
  {
    match m {
      case Creates(_) =>
      case _ => assert UploadNext(site, clock, a, m).recovering == a.recovering;
    }
  }

  /** A failure write that was committed settles the matter: no orphan recovery ever consumes that input. */
  lemma RecordedEvidenceIsSafe(site: Site, states: seq<State>, steps: seq<Step>, id: Id, c: ClaimId, f: nat, t: nat)
    requires IsRun(site, states, steps) && f < |steps| && t < |steps|
    requires c in states[f].workers && states[f].workers[c].id == id
    requires steps[f].Works? && steps[f].claim == c && steps[f].work.RecordsFailure? && steps[f].work.outcome.commits
    ensures !(steps[t].Consumes? && steps[t].id == id)
  {
    if steps[t].Consumes? && steps[t].id == id {
      var w := ConsumedAfterOrphan(site, states, steps, id, t);
      if w < f {
        RowsOnlyMoveForward(site, states, steps, id, w + 1, f);
      } else {
        RowsOnlyMoveForward(site, states, steps, id, f + 1, w);
      }
      assert false;
    }
  }

  /** A claim thread that read a tampered input and means to keep it as evidence. */
  ghost predicate KeepsEvidence(s: State) {
    && s.clock == 0 && 0 in s.jobs && s.jobs[0].named && 0 in s.workers && s.workers[0].id == 0 && s.workers[0].keepInput
    && s.workers[0].at == Recovering && s.jobs[0].row.Some?
    && s.jobs[0].row.value.status == Running && s.jobs[0].row.value.claim == 0
  }

  lemma MismatchIsEvidence(site: Site) returns (states: seq<State>, steps: seq<Step>)
    requires site.cap > 0 && site.bound > 0 && Digest(site.hash, [0]) != Digest(site.hash, [1])
    ensures IsRun(site, states, steps) && KeepsEvidence(states[|steps|])
  {
    var none: Bytes, one: Bytes := [], [1];
    assert none + one[0..1] == one;
    states, steps := ClaimedTampered(site);
    states, steps := Extend(site, states, steps, Works(0, Opens(true, true)));
    states, steps := Extend(site, states, steps, Works(0, Reads(1)));
    states, steps := Extend(site, states, steps, Works(0, Ends));
  }

  lemma UploadedZero(site: Site) returns (states: seq<State>, steps: seq<Step>)
    requires site.cap > 0
    ensures IsRun(site, states, steps)
    ensures var s := states[|steps|];
            && s.clock == 0 && s.nextClaim == 0 && 0 in s.jobs && s.jobs[0].named && s.jobs[0].dir.Some?
            && s.jobs[0].row == Some(Row(Queued, 0, Some(Digest(site.hash, [0])), 0))
  {
    var none: Bytes, zero: Bytes := [], [0];
    assert none + zero == zero;
    states, steps := [State(0, map[], 0, map[])], [];
    states, steps := Extend(site, states, steps, Begin(0));
    states, steps := Extend(site, states, steps, Uploads(0, Spools(zero)));
    states, steps := Extend(site, states, steps, Uploads(0, Creates(Outcome(true, true))));
  }

  lemma ClaimedTampered(site: Site) returns (states: seq<State>, steps: seq<Step>)
    requires site.cap > 0
    ensures IsRun(site, states, steps)
    ensures var s := states[|steps|];
            && s.clock == 0 && 0 in s.jobs && s.jobs[0].named && s.jobs[0].dir.Some? && s.jobs[0].data == [1]
            && s.jobs[0].row == Some(Row(Running, 0, Some(Digest(site.hash, [0])), 0))
            && 0 in s.workers && s.workers[0] == Worker(0, Some(Digest(site.hash, [0])), Opening, false, false, false)
  {
    states, steps := UploadedZero(site);
    states, steps := Extend(site, states, steps, Tampers(0, [1]));
    states, steps := Extend(site, states, steps, Claims(0, true));
  }

  /** The evidence is safe from the thread that found the mismatch, not from the next start: when its failure write
      is lost the row stays RUNNING, and orphan recovery consumes the input. */
  lemma EvidenceConsumedAtRestart(site: Site) returns (states: seq<State>, steps: seq<Step>, i: nat)
    requires site.cap > 0 && site.bound > 0 && Digest(site.hash, [0]) != Digest(site.hash, [1])
    ensures IsRun(site, states, steps) && i < |states| && KeepsEvidence(states[i])
    ensures 0 in states[|steps|].jobs && !states[|steps|].jobs[0].named
  {
    states, steps := MismatchIsEvidence(site);
    i := |steps|;
    states, steps := Extend(site, states, steps, Works(0, RecordsFailure(Outcome(false, false), 0)));
    states, steps := Extend(site, states, steps, Works(0, Leaves(true)));
    states, steps := Extend(site, states, steps, Orphans(0, true, 0));
    states, steps := Extend(site, states, steps, Consumes(0, true));
  }
}
