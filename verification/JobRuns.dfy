/** What holds over whole runs of the two tiers, and the runs that show where the promises end. */
module JobRuns {
  import opened Options
  import opened Spool
  import opened Jobs

  /** A job's row through a run: each step keeps it or moves it one stage on; nothing leaves a terminal stage. */
  lemma {:induction false} RowsOnlyMoveForward(site: Site, states: seq<State>, steps: seq<Step>, id: Id, i: nat, k: nat)
    requires IsRun(site, states, steps) && i <= k < |states|
    requires id in states[i].jobs && states[i].jobs[id].row.Some?
    ensures id in states[k].jobs && states[k].jobs[id].row.Some?
    ensures var a, b := states[i].jobs[id].row.value, states[k].jobs[id].row.value;
            a.sha == b.sha && Rank(a.status) <= Rank(b.status) && (!Live(a) ==> a == b)
            && (k == i + 1 ==> Forward(a, b))
    decreases k - i
  {
    if i < k {
      RowsOnlyMoveForward(site, states, steps, id, i, k - 1);
      StepIsOnward(site, states, steps, id, k - 1);
    }
  }

  lemma StepIsOnward(site: Site, states: seq<State>, steps: seq<Step>, id: Id, i: nat)
    requires IsRun(site, states, steps) && i < |steps| && id in states[i].jobs
    ensures id in states[i + 1].jobs && Onward(states[i].jobs[id], states[i + 1].jobs[id])
  {
    RunKeepsInv(site, states, steps, i);
    StepKeepsInv(site, states[i], steps[i]);
  }

  /** Only an upload's own moves touch what it is at and what it lost. */
  lemma OnlyUploadMoves(site: Site, s: State, step: Step, id: Id)
    requires Enabled(site, s, step) && id in Next(site, s, step).jobs && !(step.Uploads? && step.id == id)
    ensures id in s.jobs || (Next(site, s, step).jobs[id].upload == Spooling && !Next(site, s, step).jobs[id].lost
                             && !Next(site, s, step).jobs[id].late)
    ensures id in s.jobs ==>
              var a, b := s.jobs[id], Next(site, s, step).jobs[id];
              a.upload == b.upload && a.lost == b.lost && a.late == b.late && a.since == b.since
  {
  }

  /** The ambiguous case: `create` committed and raised, then `get` raised, then the clean-up unlinked. */
  ghost predicate Silenced(steps: seq<Step>, id: Id, a: nat, b: nat, c: nat) {
    && a < b < c < |steps|
    && steps[a] == Uploads(id, Creates(Outcome(true, false)))
    && steps[b] == Uploads(id, Asks(false))
    && steps[c].Uploads? && steps[c].id == id && steps[c].move.Undoes? && steps[c].move.unlinks
  }

  lemma RowNeedsUpload(site: Site, s: State, step: Step, id: Id)
    requires Enabled(site, s, step) && id in Next(site, s, step).jobs && !(step.Uploads? && step.id == id)
    requires Next(site, s, step).jobs[id].row.Some?
    ensures id in s.jobs && s.jobs[id].row.Some?
  {
  }

  predicate UndoingRow(j: Job) {
    j.upload == Undoing && j.row.Some?
  }

  lemma AskingArises(site: Site, s: State, step: Step, id: Id)
    requires Enabled(site, s, step) && id in Next(site, s, step).jobs
    requires Next(site, s, step).jobs[id].upload == Asking(true)
    ensures step == Uploads(id, Creates(Outcome(true, false))) || (id in s.jobs && s.jobs[id].upload == Asking(true))
  {
    if step.Uploads? && step.id == id {
      AskedUpload(site, s.clock, s.jobs[id], step.move);
    } else {
      OnlyUploadMoves(site, s, step, id);
    }
  }

  lemma AskedUpload(site: Site, clock: int, j: Job, m: UploadMove)
    requires UploadEnabled(site, j, m)
    ensures UploadNext(site, clock, j, m).upload == Asking(true) ==>
              m == Creates(Outcome(true, false)) || j.upload == Asking(true)
    ensures SpoolInv(site, clock, j) && UndoingRow(UploadNext(site, clock, j, m)) ==>
              UndoingRow(j) || (j.upload == Asking(true) && m == Asks(false))
  {
    match m {
      case Creates(_) =>
      case _ => assert UploadNext(site, clock, j, m).row == j.row;
    }
  }

  lemma {:induction false} CreateWasSilent(site: Site, states: seq<State>, steps: seq<Step>, id: Id, i: nat) returns (a: nat)
    requires IsRun(site, states, steps) && i < |states| && id in states[i].jobs
    requires states[i].jobs[id].upload == Asking(true)
    ensures a < i && steps[a] == Uploads(id, Creates(Outcome(true, false)))
  {
    var k := i - 1;
    AskingArises(site, states[k], steps[k], id);
    if steps[k] == Uploads(id, Creates(Outcome(true, false))) {
      a := k;
    } else {
      a := CreateWasSilent(site, states, steps, id, k);
    }
  }

  lemma UndoingArises(site: Site, s: State, step: Step, id: Id)
    requires Inv(site, s) && Enabled(site, s, step) && id in Next(site, s, step).jobs
    requires UndoingRow(Next(site, s, step).jobs[id])
    ensures id in s.jobs
    ensures UndoingRow(s.jobs[id]) || (s.jobs[id].upload == Asking(true) && step == Uploads(id, Asks(false)))
  {
    if step.Uploads? && step.id == id {
      AskedUpload(site, s.clock, s.jobs[id], step.move);
    } else {
      OnlyUploadMoves(site, s, step, id);
      RowNeedsUpload(site, s, step, id);
    }
  }

  lemma {:induction false} AskWasSilent(site: Site, states: seq<State>, steps: seq<Step>, id: Id, i: nat) returns (a: nat, b: nat)
    requires IsRun(site, states, steps) && i < |states| && id in states[i].jobs && UndoingRow(states[i].jobs[id])
    ensures a < b < i && steps[a] == Uploads(id, Creates(Outcome(true, false))) && steps[b] == Uploads(id, Asks(false))
  {
    var k := i - 1;
    RunKeepsInv(site, states, steps, k);
    UndoingArises(site, states[k], steps[k], id);
    if UndoingRow(states[k].jobs[id]) {
      a, b := AskWasSilent(site, states, steps, id, k);
    } else {
      b := k;
      a := CreateWasSilent(site, states, steps, id, k);
    }
  }

  /** An input is lost to the store's silence alone: in the run so far, `create` committed without saying so,
      the follow-up `get` raised, and the clean-up then unlinked. */
  lemma {:induction false} LostToSilence(site: Site, states: seq<State>, steps: seq<Step>, id: Id, i: nat)
    requires IsRun(site, states, steps) && i < |states| && id in states[i].jobs && states[i].jobs[id].lost
    ensures exists a: nat, b: nat, c: nat :: Silenced(steps, id, a, b, c) && c < i
  {
    var k := i - 1;
    LostArises(site, states[k], steps[k], id);
    if states[k].jobs[id].lost {
      LostToSilence(site, states, steps, id, k);
    } else {
      var a, b := AskWasSilent(site, states, steps, id, k);
      assert Silenced(steps, id, a, b, k);
    }
  }

  lemma LostArises(site: Site, s: State, step: Step, id: Id)
    requires Enabled(site, s, step) && id in Next(site, s, step).jobs && Next(site, s, step).jobs[id].lost
    ensures id in s.jobs
    ensures s.jobs[id].lost || (step.Uploads? && step.id == id && step.move.Undoes? && step.move.unlinks && UndoingRow(s.jobs[id]))
  {
    if !(step.Uploads? && step.id == id) {
      OnlyUploadMoves(site, s, step, id);
    }
  }

  /** The clean-up of a silenced upload takes the input of a job that has a row. */
  lemma SilenceLoses(site: Site, states: seq<State>, steps: seq<Step>, id: Id, a: nat, b: nat, c: nat, i: nat)
    requires IsRun(site, states, steps) && Silenced(steps, id, a, b, c) && c < i < |states|
    ensures id in states[i].jobs && states[i].jobs[id].lost
    decreases i
  {
    if i == c + 1 {
      assert id in states[a + 1].jobs && states[a + 1].jobs[id].row.Some?;
      RowsOnlyMoveForward(site, states, steps, id, a + 1, c);
    } else {
      SilenceLoses(site, states, steps, id, a, b, c, i - 1);
      StepIsOnward(site, states, steps, id, i - 1);
    }
  }

  /** A queued or running job whose upload took less than the retention window has its spooled input in every
      reachable state, with one exception that is exactly this: the store committed `create` without saying so,
      stayed silent on the follow-up `get`, and the clean-up unlinked. */
  lemma LiveJobHasItsInput(site: Site, states: seq<State>, steps: seq<Step>, id: Id, i: nat)
    requires IsRun(site, states, steps) && i < |states| && id in states[i].jobs
    requires HasLiveRow(states[i].jobs[id]) && !states[i].jobs[id].late
    ensures states[i].jobs[id].named <==> !(exists a: nat, b: nat, c: nat :: Silenced(steps, id, a, b, c) && c < i)
    ensures !states[i].jobs[id].tampered ==> states[i].jobs[id].data == states[i].jobs[id].spooled
  {
    RunKeepsInv(site, states, steps, i);
    if states[i].jobs[id].lost {
      LostToSilence(site, states, steps, id, i);
    }
    if a: nat, b: nat, c: nat :| Silenced(steps, id, a, b, c) && c < i {
      SilenceLoses(site, states, steps, id, a, b, c, i);
    }
  }

  lemma LateArises(site: Site, s: State, step: Step, id: Id)
    requires Enabled(site, s, step) && id in Next(site, s, step).jobs && Next(site, s, step).jobs[id].late
    ensures id in s.jobs
    ensures s.jobs[id].late || (step.Uploads? && step.id == id && step.move.Creates? && step.move.outcome.commits
                                && s.clock >= s.jobs[id].since + site.retention)
  {
    if !(step.Uploads? && step.id == id) {
      OnlyUploadMoves(site, s, step, id);
    }
  }

  /** A late job is one whose `create` committed when its upload had taken the retention window or longer. */
  lemma {:induction false} LateUpload(site: Site, states: seq<State>, steps: seq<Step>, id: Id, i: nat) returns (a: nat)
    requires IsRun(site, states, steps) && i < |states| && id in states[i].jobs && states[i].jobs[id].late
    ensures a < i && steps[a].Uploads? && steps[a].id == id && steps[a].move.Creates? && steps[a].move.outcome.commits
    ensures id in states[a].jobs && states[a].clock >= states[a].jobs[id].since + site.retention
  {
    a := i - 1;
    LateArises(site, states[a], steps[a], id);
    if states[a].jobs[id].late {
      a := LateUpload(site, states, steps, id, a);
    }
  }

  /** Output is published by the claim whose verdict write won, and at most once. */
  lemma PublishedOnceByTheWinner(site: Site, states: seq<State>, steps: seq<Step>, id: Id, i: nat)
    requires IsRun(site, states, steps) && i < |states| && id in states[i].jobs && states[i].jobs[id].published != []
    ensures var j := states[i].jobs[id];
            && j.row.Some? && !Live(j.row.value) && j.verdict.Some?
            && j.published == [j.verdict.value.claim] && j.row.value.claim == j.verdict.value.claim
            && j.row.value.status == j.verdict.value.status
  {
    RunKeepsInv(site, states, steps, i);
  }

  /** A job is DONE only for bytes whose digest is the one the ingress computed over its own chunks; untampered
      with, for the uploaded bytes themselves. */
  lemma DoneForTheRecordedDigest(site: Site, states: seq<State>, steps: seq<Step>, id: Id, i: nat)
    requires IsRun(site, states, steps) && i < |states| && id in states[i].jobs
    requires states[i].jobs[id].row.Some? && states[i].jobs[id].row.value.status == Done
    ensures var j := states[i].jobs[id];
            && j.verdict.Some? && j.verdict.value.status == Done && |j.verdict.value.bytes| <= site.bound
            && !site.engineError(j.verdict.value.bytes)
            && j.row.value.sha == Some(Digest(site.hash, j.verdict.value.bytes))
            && Digest(site.hash, j.verdict.value.bytes) == Digest(site.hash, j.spooled)
            && (!j.tampered ==> j.verdict.value.bytes == j.spooled)
  {
    RunKeepsInv(site, states, steps, i);
  }

  /** The sweep leaves a published output alone until the retention has passed since the job finished. */
  lemma SealedOutputStays(site: Site, states: seq<State>, steps: seq<Step>, id: Id, i: nat)
    requires IsRun(site, states, steps) && i < |states| && id in states[i].jobs
    requires states[i].jobs[id].published != [] && !states[i].jobs[id].late && states[i].jobs[id].row.Some?
    requires states[i].clock < states[i].jobs[id].row.value.finishedAt + site.retention
    ensures states[i].jobs[id].output == Some(states[i].jobs[id].published[0])
  {
    RunKeepsInv(site, states, steps, i);
  }

  // ---- runs that show the limits

  lemma Extend(site: Site, states: seq<State>, steps: seq<Step>, step: Step) returns (more: seq<State>, longer: seq<Step>)
    requires IsRun(site, states, steps) && Enabled(site, states[|steps|], step)
    ensures IsRun(site, more, longer) && |longer| == |steps| + 1 && longer[|steps|] == step
    ensures more[|longer|] == Next(site, states[|steps|], step) && states <= more
  {
    more, longer := states + [Next(site, states[|steps|], step)], steps + [step];
  }

  /** One upload, the store silent twice: a queued row without its input. */
  lemma SilentStoreLosesTheInput(site: Site) returns (states: seq<State>, steps: seq<Step>)
    ensures IsRun(site, states, steps) && 0 in states[|steps|].jobs
    ensures HasLiveRow(states[|steps|].jobs[0]) && !states[|steps|].jobs[0].named
  {
    states, steps := [State(0, map[], 0, map[])], [];
    states, steps := Extend(site, states, steps, Begin(0));
    states, steps := Extend(site, states, steps, Uploads(0, Creates(Outcome(true, false))));
    states, steps := Extend(site, states, steps, Uploads(0, Asks(false)));
    states, steps := Extend(site, states, steps, Uploads(0, Undoes(true, true)));
  }

  /** An upload as long as the retention window: the sweep found no row, the row landed, the sweep removed. */
  lemma SlowUploadLosesTheInput(site: Site) returns (states: seq<State>, steps: seq<Step>)
    requires site.retention > 0
    ensures IsRun(site, states, steps) && 0 in states[|steps|].jobs
    ensures HasLiveRow(states[|steps|].jobs[0]) && !states[|steps|].jobs[0].named && !states[|steps|].jobs[0].lost
  {
    states, steps := [State(0, map[], 0, map[])], [];
    states, steps := Extend(site, states, steps, Begin(0));
    states, steps := Extend(site, states, steps, Tick(site.retention));
    states, steps := Extend(site, states, steps, Ages(0, 0));
    states, steps := Extend(site, states, steps, Looks(0, 0));
    states, steps := Extend(site, states, steps, Uploads(0, Creates(Outcome(true, true))));
    states, steps := Extend(site, states, steps, Removes(0, true, true));
  }
}
