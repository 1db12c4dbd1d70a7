/** The code of the two tiers as it runs, the end of `scan`, `_process`, `_recover_orphans` and `_sweep_one`: step
    by step over the shared store and job root, with any number of others' steps between any two of its own. */
module Tiers {
  import opened Options
  import opened Spool
  import opened Jobs
  import opened JobRuns

  predicate Mine(step: Step, me: ClaimId) {
    step.Works? && step.claim == me
  }

  /** The clean-ups of one claim thread in a run. */
  function LeavesOf(steps: seq<Step>, me: ClaimId): seq<WorkMove>
    decreases |steps|
  {
    if steps == [] then []
    else
      var last := steps[|steps| - 1];
      LeavesOf(steps[..|steps| - 1], me) + if Mine(last, me) && last.work.Leaves? then [last.work] else []
  }

  lemma OneMoreStep(steps: seq<Step>, step: Step, me: ClaimId)
    ensures LeavesOf(steps + [step], me) == LeavesOf(steps, me) + if Mine(step, me) && step.work.Leaves? then [step.work] else []
  {
    assert (steps + [step])[..|steps|] == steps;
  }

  datatype Read = Broken | AtEnd | Got(chunk: Bytes)

  /** A claim thread after a chunk: past the bound it gives up. */
  function AfterChunk(site: Site, w: Worker, chunk: Bytes): Worker
    requires w.at.Copying?
  {
    w.(at := if |w.at.bytes| + |chunk| > site.bound then Recovering else Copying(w.at.bytes + chunk))
  }

  /** The steps of others that touch a running job: its upload's, orphan recovery's, a sweep's removal, a tampering hand's. */
  predicate Disturbs(step: Step, id: Id) {
    match step
    case Uploads(i, _) => i == id
    case Orphans(i, _, _) => i == id
    case Consumes(i, _) => i == id
    case Removes(i, _, _) => i == id
    case Tampers(i, _) => i == id
    case _ => false
  }

  /** Nobody but its claim thread has touched the job since step `from`. */
  ghost predicate LeftAlone(steps: seq<Step>, id: Id, from: nat) {
    forall k :: from <= k < |steps| ==> !Disturbs(steps[k], id)
  }

  lemma LeftAloneSoFar(a: seq<Step>, b: seq<Step>, id: Id, from: nat)
    requires a <= b && from <= |a|
    ensures LeftAlone(b, id, from) ==> LeftAlone(a, id, from) && LeftAlone(b, id, |a|)
  {
    if LeftAlone(b, id, from) {
      forall k | from <= k < |a|
        ensures !Disturbs(a[k], id)
      {
        assert a[k] == b[k];
      }
    }
  }

  /** The same job, a sweep's looks at it aside. */
  predicate Alike(a: Job, b: Job) {
    b == a.(looked := b.looked, doomed := b.doomed)
  }

  predicate CanOpen(j: Job) {
    j.named && j.dir.Some?
  }

  /** Within the bound, and what the row says was uploaded. */
  predicate Matches(site: Site, j: Job, sha: Option<int>) {
    |j.data| <= site.bound && (sha.Some? ==> sha.value == Digest(site.hash, j.data))
  }

  /** A verdict of claim `c` over `bytes` is in the row, and nothing else happened to the job. */
  predicate JudgedAs(site: Site, a: Job, b: Job, c: ClaimId, bytes: Bytes) {
    && b.verdict.Some? && b.verdict.value.claim == c && b.verdict.value.bytes == bytes
    && b.row.Some? && b.row.value.status == b.verdict.value.status
    && b.row.value.status == Answer(site, bytes)
    && b.dir == a.dir && b.output == a.output && b.published == a.published && b.named == a.named
  }

  /** The output of claim `c` is out. */
  predicate PublishedBy(a: Job, b: Job, c: ClaimId) {
    b.output == Some(c) && b.published == a.published + [c] && b.verdict == a.verdict && b.row == a.row && b.named == a.named
  }

  /** A job as a claim should find it: running under it, its input there, within the bound and as uploaded, nothing published. */
  predicate Ready(site: Site, j: Job, c: ClaimId, sha: Option<int>) {
    Holds(j, c) && CanOpen(j) && Matches(site, j, sha) && j.output == None
  }

  /** And as it should leave it: judged over its input's bytes, with the output out. */
  predicate Finished(site: Site, a: Job, b: Job, c: ClaimId) {
    && b.verdict.Some? && b.verdict.value.claim == c && b.verdict.value.bytes == a.data
    && b.row.Some? && b.row.value.status == b.verdict.value.status
    && b.row.value.status == (if site.engineError(a.data) then Failed else Done)
    && b.output == Some(c) && b.published == a.published + [c]
  }

  predicate Consumed(a: Job, b: Job, gone: bool) {
    Alike(a.(named := a.named && !gone), b)
  }

  predicate Terminal(s: State, id: Id) {
    id in s.jobs && s.jobs[id].row.Some? && !Live(s.jobs[id].row.value)
  }

  class Tier {
    const site: Site
    var s: State
    ghost var states: seq<State>
    ghost var steps: seq<Step>
    ghost var refusals: nat

    constructor (site: Site)
      ensures Valid() && this.site == site && steps == []
    {
      this.site := site;
      s := State(0, map[], 0, map[]);
      states, steps, refusals := [State(0, map[], 0, map[])], [], 0;
    }

    /** Everything so far is a run of the protocol, and this is where it stands. */
    ghost predicate Valid()
      reads this
    {
      IsRun(site, states, steps) && states[|steps|] == s
    }

    ghost predicate At(me: ClaimId, w: Worker)
      reads this
    {
      me in s.workers && s.workers[me] == w && w.id in s.jobs
    }

    twostate predicate Extends()
      reads this
    {
      old(states) <= states && old(steps) <= steps && old(refusals) <= refusals
    }

    /** What the world may refuse: a call that raises, a read that fails, an answer that does not come. */
    method Allowed() returns (ok: bool)
      modifies this`refusals
      ensures refusals == if ok then old(refusals) else old(refusals) + 1
    {
      ok := *;
      if !ok {
        refusals := refusals + 1;
      }
    }

    method Take(step: Step)
      requires Valid() && Enabled(site, s, step)
      modifies this
      ensures Valid() && Extends() && s == Next(site, old(s), step) && steps == old(steps) + [step] && refusals == old(refusals)
    {
      s := Next(site, s, step);
      states, steps := states + [s], steps + [step];
    }

    /** One step of a claim thread that is still there after it. */
    method Act(me: ClaimId, ghost w: Worker, m: WorkMove)
      requires Valid() && At(me, w) && WorkEnabled(s.clock, s.jobs[w.id], me, w, m) && Judges(site, w, m) && !m.Leaves? && !m.Dies?
      modifies this
      ensures Valid() && Extends() && At(me, WorkNext(site, old(s.clock), old(s.jobs[w.id]), me, w, m).value)
      ensures steps == old(steps) + [Works(me, m)] && refusals == old(refusals)
      ensures s.jobs[w.id] == WorkJob(old(s.clock), old(s.jobs[w.id]), me, w, m)
      ensures LeavesOf(steps, me) == old(LeavesOf(steps, me))
    {
      OneMoreStep(steps, Works(me, m), me);
      Take(Works(me, m));
    }

    /** Whatever the others do, in any order and number; a claim thread's own record is its own. */
    method Others(me: ClaimId, ghost w: Worker)
      requires Valid() && At(me, w)
      modifies this
      ensures Valid() && Extends() && At(me, w) && LeavesOf(steps, me) == old(LeavesOf(steps, me)) && refusals == old(refusals)
      ensures LeftAlone(steps, w.id, |old(steps)|) ==> Alike(old(s.jobs[w.id]), s.jobs[w.id])
      ensures Terminal(old(s), w.id) ==> Terminal(s, w.id)
    {
      var n: int := *;
      while n > 0
        invariant Valid() && At(me, w) && Extends() && LeavesOf(steps, me) == old(LeavesOf(steps, me)) && refusals == old(refusals)
        invariant LeftAlone(steps, w.id, |old(steps)|) ==> Alike(old(s.jobs[w.id]), s.jobs[w.id])
        invariant Terminal(old(s), w.id) ==> Terminal(s, w.id)
      {
        ghost var earlier := steps;
        AnotherStep(me, w);
        LeftAloneSoFar(earlier, steps, w.id, |old(steps)|);
        n := n - 1;
      }
    }

    /** One step of another, or none. */
    method AnotherStep(me: ClaimId, ghost w: Worker)
      requires Valid() && At(me, w)
      modifies this
      ensures Valid() && Extends() && At(me, w) && LeavesOf(steps, me) == old(LeavesOf(steps, me)) && refusals == old(refusals)
      ensures LeftAlone(steps, w.id, |old(steps)|) ==> Alike(old(s.jobs[w.id]), s.jobs[w.id])
      ensures Terminal(old(s), w.id) ==> Terminal(s, w.id)
    {
      var step: Step := *;
      if Enabled(site, s, step) && !Mine(step, me) {
        RunKeepsInv(site, states, steps, |steps|);
        OtherWorkersRecord(site, s, step, me);
        OtherLeavesJob(site, s, step, me);
        TerminalStays(site, s, step, w.id);
        OneMoreStep(steps, step, me);
        Take(step);
        assert steps[|old(steps)|] == step;
      }
    }

    // ---- the ingress

    /** Whatever the others do to an upload's job: its own record of itself stays, and only it makes the row. */
    method OthersThan(id: Id, ghost j: Job)
      requires Valid() && id in s.jobs && s.jobs[id] == j
      modifies this
      ensures Valid() && Extends() && id in s.jobs && SameUpload(j, s.jobs[id]) && refusals == old(refusals)
    {
      var n: int := *;
      while n > 0
        invariant Valid() && Extends() && id in s.jobs && SameUpload(j, s.jobs[id]) && refusals == old(refusals)
      {
        var step: Step := *;
        if Enabled(site, s, step) && !(step.Uploads? && step.id == id) {
          OthersLeaveUpload(site, states, steps, step, id);
          Take(step);
        }
        n := n - 1;
      }
    }

    method Upload(id: Id, m: UploadMove)
      requires Valid() && id in s.jobs && UploadEnabled(site, s.jobs[id], m)
      modifies this
      ensures Valid() && Extends() && id in s.jobs && refusals == old(refusals)
      ensures s.jobs[id] == UploadNext(site, old(s.clock), old(s.jobs[id]), m)
    {
      Take(Uploads(id, m));
    }

    /** `scan` once the upload is spooled: `create`, and when that raises the question whether it committed.  An
        input is lost to a refused upload only when the store was silent twice about a row it has. */
    method Submit(id: Id) returns (accepted: bool, silent: bool, unlinks: bool)
      requires Valid() && id in s.jobs && s.jobs[id].upload == Spooling
      modifies this
      ensures Valid() && Extends() && id in s.jobs && s.jobs[id].upload == Over
      ensures accepted ==> s.jobs[id].row.Some?
      ensures s.jobs[id].lost <==> !accepted && silent && unlinks && s.jobs[id].row.Some?
      ensures refusals == old(refusals) ==> accepted
      ensures s.jobs[id].lost ==> refusals >= old(refusals) + 2
      ensures s.jobs[id].row == None && refusals == old(refusals) + 1 ==> !accepted && !s.jobs[id].named
    {
      silent, unlinks := false, false;
      RunKeepsInv(site, states, steps, |steps|);
      OthersThan(id, s.jobs[id]);
      accepted := Allowed();
      var lands: bool := *;
      Upload(id, Creates(Outcome(accepted || lands, accepted)));
      if !accepted {
        silent, unlinks := AskAndUndo(id);
      }
    }

    /** After a `create` that raised: a row that is seen keeps its input, anything else is cleaned up. */
    method AskAndUndo(id: Id) returns (silent: bool, unlinks: bool)
      requires Valid() && id in s.jobs && s.jobs[id].upload.Asking? && !s.jobs[id].lost
      modifies this
      ensures Valid() && Extends() && id in s.jobs && s.jobs[id].upload == Over
      ensures s.jobs[id].lost <==> silent && unlinks && s.jobs[id].row.Some?
      ensures silent ==> refusals > old(refusals)
      ensures s.jobs[id].row == None && refusals == old(refusals) ==> !s.jobs[id].named
    {
      OthersThan(id, s.jobs[id]);
      var replies := Allowed();
      silent, unlinks := !replies, false;
      var committed := replies && s.jobs[id].row.Some?;
      Upload(id, Asks(replies));
      if !committed {
        unlinks := Undo(id);
      }
    }

    /** The clean-up of a refused upload. */
    method Undo(id: Id) returns (unlinks: bool)
      requires Valid() && id in s.jobs && s.jobs[id].upload == Undoing && !s.jobs[id].lost
      modifies this
      ensures Valid() && Extends() && id in s.jobs && s.jobs[id].upload == Over
      ensures s.jobs[id].row.Some? <==> old(s.jobs[id]).row.Some?
      ensures s.jobs[id].lost <==> unlinks && s.jobs[id].row.Some?
      ensures unlinks ==> !s.jobs[id].named
      ensures unlinks || refusals > old(refusals)
    {
      OthersThan(id, s.jobs[id]);
      var rmdirs: bool := *;
      unlinks := Allowed();
      Upload(id, Undoes(unlinks, rmdirs));
    }

    // ---- the pool manager

    /** The spooled input, if it is there, and the checks on it. */
    method OpenInput(me: ClaimId, ghost w: Worker) returns (raised: bool, inFd: bool)
      requires Valid() && At(me, w) && w.at == Opening && !w.recorded && !w.keepInput
      modifies this
      ensures Valid() && Extends() && At(me, w.(inFd := inFd, at := if raised then Recovering else Copying([])))
      ensures LeftAlone(steps, w.id, |old(steps)|) ==> Alike(old(s.jobs[w.id]), s.jobs[w.id])
      ensures LeftAlone(steps, w.id, |old(steps)|) && refusals == old(refusals) && CanOpen(old(s.jobs[w.id])) ==> !raised && inFd
      ensures LeavesOf(steps, me) == old(LeavesOf(steps, me))
    {
      Others(me, w);
      var opens := Allowed();
      var passes := Allowed();
      var j := s.jobs[s.workers[me].id];
      inFd := opens && j.named && j.dir.Some?;
      raised := !(inFd && passes);
      Act(me, w, Opens(inFd, inFd && passes));
    }

    /** One read of the spooled input. */
    method ReadChunk(me: ClaimId, ghost w: Worker, copied: nat) returns (read: Read)
      requires Valid() && At(me, w) && w.at.Copying? && copied == |w.at.bytes|
      modifies this
      ensures Valid() && Extends() && LeavesOf(steps, me) == old(LeavesOf(steps, me))
      ensures match read
              case Broken => At(me, w.(at := Recovering))
              case AtEnd => At(me, w) && copied >= |s.jobs[w.id].data|
              case Got(chunk) => chunk != [] && At(me, AfterChunk(site, w, chunk))
      ensures LeftAlone(steps, w.id, |old(steps)|) ==> Alike(old(s.jobs[w.id]), s.jobs[w.id])
      ensures LeftAlone(steps, w.id, |old(steps)|) && w.at.bytes <= old(s.jobs[w.id]).data ==>
                match read
                case Broken => refusals > old(refusals)
                case AtEnd => w.at.bytes == old(s.jobs[w.id]).data
                case Got(chunk) => w.at.bytes + chunk <= old(s.jobs[w.id]).data
    {
      Others(me, w);
      ghost var earlier := steps;
      read := ReadNow(me, w, copied);
      LeftAloneSoFar(earlier, steps, w.id, |old(steps)|);
    }

    method ReadNow(me: ClaimId, ghost w: Worker, copied: nat) returns (read: Read)
      requires Valid() && At(me, w) && w.at.Copying? && copied == |w.at.bytes|
      modifies this
      ensures Valid() && Extends() && LeavesOf(steps, me) == old(LeavesOf(steps, me))
      ensures match read
              case Broken => At(me, w.(at := Recovering)) && refusals > old(refusals)
              case AtEnd => At(me, w) && copied >= |s.jobs[w.id].data|
              case Got(chunk) => chunk != [] && At(me, AfterChunk(site, w, chunk))
      ensures s.jobs[w.id] == old(s.jobs[w.id])
      ensures read.Got? && w.at.bytes <= s.jobs[w.id].data ==> w.at.bytes + read.chunk <= s.jobs[w.id].data
    {
      var works := Allowed();
      var n: int := *;
      var data := s.jobs[s.workers[me].id].data;
      if !works {
        Act(me, w, Fails);
        return Broken;
      }
      if copied >= |data| {
        return AtEnd;
      }
      var chunk := ReadSome(me, w, data[copied..], n);
      return Got(chunk);
    }

    /** A read of at least one byte, and of no more than there is. */
    method ReadSome(me: ClaimId, ghost w: Worker, left: Bytes, n: int) returns (chunk: Bytes)
      requires Valid() && At(me, w) && w.at.Copying? && left != []
      requires |w.at.bytes| <= |s.jobs[w.id].data| && left == s.jobs[w.id].data[|w.at.bytes|..]
      modifies this
      ensures Valid() && Extends() && LeavesOf(steps, me) == old(LeavesOf(steps, me))
      ensures chunk != [] && chunk <= left && At(me, AfterChunk(site, w, chunk))
      ensures s.jobs[w.id] == old(s.jobs[w.id]) && refusals == old(refusals) && LeftAlone(steps, w.id, |old(steps)|)
    {
      var size := if n <= 0 then 1 else if n > |left| then |left| else n;
      chunk := left[..size];
      ReadGives(site, s.clock, s.jobs[w.id], me, w, size);
      Act(me, w, Reads(size));
    }

    /** The bounded copy with its running digest, and the check against the row's sha256. */
    method CopyAndCheck(me: ClaimId, ghost w: Worker) returns (raised: bool, keepInput: bool, ghost bytes: Bytes)
      requires Valid() && At(me, w) && w.at == Copying([]) && !w.keepInput
      modifies this
      ensures Valid() && Extends() && LeavesOf(steps, me) == old(LeavesOf(steps, me))
      ensures At(me, w.(keepInput := keepInput, at := if raised then Recovering else Checked(bytes)))
      ensures LeftAlone(steps, w.id, |old(steps)|) ==> Alike(old(s.jobs[w.id]), s.jobs[w.id])
      ensures LeftAlone(steps, w.id, |old(steps)|) && refusals == old(refusals) && Matches(site, old(s.jobs[w.id]), w.sha) ==>
                !raised && bytes == old(s.jobs[w.id]).data
      ensures keepInput ==> raised && w.sha.Some? && w.sha.value != Digest(site.hash, bytes)
      ensures !raised ==> |bytes| <= site.bound && (w.sha.Some? ==> w.sha.value == Digest(site.hash, bytes))
    {
      var digest;
      keepInput := false;
      raised, digest, bytes := Copy(me, w);
      if !raised {
        ghost var earlier := steps;
        var sha := s.workers[me].sha;
        Act(me, w.(at := Copying(bytes)), Ends);
        LeftAloneSoFar(earlier, steps, w.id, |old(steps)|);
        raised := sha.Some? && digest != sha.value;
        keepInput := raised;
      }
    }

    /** The copy to the end of the input: it raises on a broken read and past the bound. */
    method Copy(me: ClaimId, ghost w: Worker) returns (raised: bool, digest: int, ghost bytes: Bytes)
      requires Valid() && At(me, w) && w.at == Copying([]) && !w.keepInput
      modifies this
      ensures Valid() && Extends() && LeavesOf(steps, me) == old(LeavesOf(steps, me))
      ensures At(me, w.(at := if raised then Recovering else Copying(bytes)))
      ensures !raised ==> |s.jobs[w.id].data| <= |bytes| <= site.bound && digest == Digest(site.hash, bytes)
      ensures LeftAlone(steps, w.id, |old(steps)|) ==> Alike(old(s.jobs[w.id]), s.jobs[w.id]) && (!raised ==> bytes == s.jobs[w.id].data)
      ensures raised && refusals == old(refusals) && LeftAlone(steps, w.id, |old(steps)|) ==> |old(s.jobs[w.id]).data| > site.bound
    {
      var copied := 0;
      ghost var first, from := s.jobs[w.id], |steps|;
      digest, bytes := site.hash.init, [];
      while true
        invariant Valid() && Extends() && LeavesOf(steps, me) == old(LeavesOf(steps, me))
        invariant At(me, w.(at := Copying(bytes)))
        invariant from <= |steps| && CopySoFar(first, s.jobs[w.id], steps, w.id, from, bytes)
        invariant copied == |bytes| <= site.bound && digest == Digest(site.hash, bytes)
        decreases site.bound - copied
      {
        var read := ReadNext(me, w, copied, bytes, first, from);
        if read == Broken {
          return true, digest, bytes;
        }
        if read == AtEnd {
          return false, digest, bytes;
        }
        copied := copied + |read.chunk|;
        AbsorbedAppend(site.hash, site.hash.init, bytes, read.chunk);
        digest := Absorbed(site.hash, digest, read.chunk);
        if copied > site.bound {
          return true, digest, bytes;
        }
        bytes := bytes + read.chunk;
      }
    }

    /** One read of the copy, seen from where the copy began. */
    method ReadNext(me: ClaimId, ghost w: Worker, copied: nat, ghost bytes: Bytes, ghost first: Job, ghost from: nat) returns (read: Read)
      requires Valid() && At(me, w.(at := Copying(bytes))) && w.at.Copying? && copied == |bytes|
      requires from <= |steps| && CopySoFar(first, s.jobs[w.id], steps, w.id, from, bytes)
      modifies this
      ensures Valid() && Extends() && LeavesOf(steps, me) == old(LeavesOf(steps, me))
      ensures match read
              case Broken => At(me, w.(at := Recovering)) && (LeftAlone(steps, w.id, from) ==> refusals > old(refusals))
              case AtEnd => At(me, w.(at := Copying(bytes))) && copied >= |s.jobs[w.id].data|
              case Got(chunk) => chunk != [] && At(me, AfterChunk(site, w.(at := Copying(bytes)), chunk))
      ensures CopySoFar(first, s.jobs[w.id], steps, w.id, from, if read.Got? then bytes + read.chunk else bytes)
    {
      ghost var before, earlier := s.jobs[w.id], steps;
      read := ReadChunk(me, w.(at := Copying(bytes)), copied);
      LeftAloneSoFar(earlier, steps, w.id, from);
      CopyGoesOn(first, before, s.jobs[w.id], earlier, steps, w.id, from, bytes, if read.Got? then bytes + read.chunk else bytes);
    }

    /** The verdict's compare-and-set. */
    method RecordVerdict(me: ClaimId, ghost w: Worker) returns (raised: bool, recorded: bool)
      requires Valid() && At(me, w) && w.at.Checked? && !w.recorded
      modifies this
      ensures Valid() && Extends()
      ensures At(me, w.(recorded := recorded, at := if raised then Recovering else if recorded then Publishing else Leaving))
      ensures raised ==> !recorded
      ensures LeftAlone(steps, w.id, |old(steps)|) && refusals == old(refusals) && Holds(old(s.jobs[w.id]), me) ==>
                recorded && JudgedAs(site, old(s.jobs[w.id]), s.jobs[w.id], me, w.at.bytes)
      ensures refusals == old(refusals) ==> Terminal(s, w.id)
      ensures LeavesOf(steps, me) == old(LeavesOf(steps, me))
    {
      Others(me, w);
      ghost var earlier := steps;
      var validates := Allowed();
      if validates {
        raised, recorded := WriteVerdict(me, w);
      } else {
        Act(me, w, Fails);
        raised, recorded := true, false;
      }
      LeftAloneSoFar(earlier, steps, w.id, |old(steps)|);
    }

    method WriteVerdict(me: ClaimId, ghost w: Worker) returns (raised: bool, recorded: bool)
      requires Valid() && At(me, w) && w.at.Checked? && !w.recorded
      modifies this
      ensures Valid() && Extends()
      ensures At(me, w.(recorded := recorded, at := if raised then Recovering else if recorded then Publishing else Leaving))
      ensures raised ==> !recorded
      ensures refusals == old(refusals) && Holds(old(s.jobs[w.id]), me) ==>
                recorded && JudgedAs(site, old(s.jobs[w.id]), s.jobs[w.id], me, w.at.bytes)
      ensures refusals == old(refusals) ==> Terminal(s, w.id)
      ensures LeavesOf(steps, me) == old(LeavesOf(steps, me))
    {
      RunKeepsInv(site, states, steps, |steps|);
      var status := if site.engineError(s.workers[me].at.bytes) then Failed else Done;
      var o, at := Cas(me, w);
      if o.answers {
        VerdictWritten(site, s.clock, s.jobs[w.id], me, w, status, o, at);
      }
      Act(me, w, Records(status, o, at));
      return !o.answers, o.answers && o.commits;
    }

    /** The sealed output, for a verdict that is in the row; a refusal that is not an OSError or ValueError escapes. */
    method Publish(me: ClaimId, ghost w: Worker) returns (raised: bool)
      requires Valid() && At(me, w) && w.at == Publishing
      modifies this
      ensures Valid() && Extends() && At(me, w.(at := if raised then Recovering else Leaving))
      ensures LeftAlone(steps, w.id, |old(steps)|) && refusals == old(refusals) && old(s.jobs[w.id]).dir.Some? && old(s.jobs[w.id]).output == None ==>
                !raised && PublishedBy(old(s.jobs[w.id]), s.jobs[w.id], me)
      ensures Terminal(old(s), w.id) ==> Terminal(s, w.id)
      ensures LeavesOf(steps, me) == old(LeavesOf(steps, me))
    {
      Others(me, w);
      var publishes := Allowed();
      var answers := Allowed();
      raised := !answers;
      var j := s.jobs[s.workers[me].id];
      if raised {
        Act(me, w, Fails);
      } else {
        Act(me, w, Publishes(publishes && j.dir.Some? && j.output == None));
      }
    }

    /** What the store may do with this claim's compare-and-set. */
    method Cas(me: ClaimId, ghost w: Worker) returns (o: Outcome, at: int)
      requires At(me, w)
      modifies this`refusals
      ensures refusals == if o.answers then old(refusals) else old(refusals) + 1
      ensures WriteEnabled(s.clock, s.jobs[w.id], me, o, at)
    {
      var answers := Allowed();
      var lands: bool, ago: int := *, *;
      var holds := Holds(s.jobs[s.workers[me].id], me);
      o := if answers then Outcome(holds, true) else Outcome(lands && holds, false);
      at := if ago > 0 then s.clock - ago else s.clock;
    }

    /** The recovery write, through the same store: when it raises, `recorded` stays what it was. */
    method RecordFailure(me: ClaimId, ghost w: Worker, before: bool) returns (recorded: bool)
      requires Valid() && At(me, w) && w.at == Recovering && w.recorded == before
      modifies this
      ensures Valid() && Extends() && At(me, w.(at := Leaving, recorded := recorded))
      ensures refusals == old(refusals) ==> Terminal(s, w.id)
      ensures LeavesOf(steps, me) == old(LeavesOf(steps, me))
    {
      Others(me, w);
      recorded := WriteFailure(me, w, before);
    }

    method WriteFailure(me: ClaimId, ghost w: Worker, before: bool) returns (recorded: bool)
      requires Valid() && At(me, w) && w.at == Recovering && w.recorded == before
      modifies this
      ensures Valid() && Extends() && At(me, w.(at := Leaving, recorded := recorded))
      ensures refusals == old(refusals) ==> Terminal(s, w.id)
      ensures LeavesOf(steps, me) == old(LeavesOf(steps, me))
    {
      RunKeepsInv(site, states, steps, |steps|);
      var o, at := Cas(me, w);
      if o.answers {
        FailureWritten(site, s.clock, s.jobs[w.id], me, w, o, at);
      }
      Act(me, w, RecordsFailure(o, at));
      recorded := if o.answers then o.commits else before;
    }

    /** The `finally`: the spooled input goes when it was open, the row is known terminal and it is no evidence. */
    method Leave(me: ClaimId, ghost w: Worker, consumes: bool) returns (unlinks: bool)
      requires Valid() && At(me, w) && w.at == Leaving
      modifies this
      ensures Valid() && Extends() && me !in s.workers && (unlinks ==> consumes)
      ensures w.id in s.jobs && s.jobs[w.id].row.Some? && (w.recorded ==> !Live(s.jobs[w.id].row.value))
      ensures refusals == old(refusals) && consumes ==> unlinks
      ensures LeftAlone(steps, w.id, |old(steps)|) ==> Consumed(old(s.jobs[w.id]), s.jobs[w.id], unlinks && w.inFd && w.recorded && !w.keepInput)
      ensures Terminal(old(s), w.id) ==> Terminal(s, w.id)
      ensures LeavesOf(steps, me) == old(LeavesOf(steps, me)) + [Leaves(unlinks)]
    {
      Others(me, w);
      ghost var earlier := steps;
      unlinks := false;
      if consumes {
        unlinks := Allowed();
      }
      LeaveNow(me, w, unlinks);
      LeftAloneSoFar(earlier, steps, w.id, |old(steps)|);
    }

    method LeaveNow(me: ClaimId, ghost w: Worker, unlinks: bool)
      requires Valid() && At(me, w) && w.at == Leaving
      modifies this
      ensures Valid() && Extends() && me !in s.workers && refusals == old(refusals)
      ensures w.id in s.jobs && s.jobs[w.id].row.Some? && (w.recorded ==> !Live(s.jobs[w.id].row.value))
      ensures Consumed(old(s.jobs[w.id]), s.jobs[w.id], unlinks && w.inFd && w.recorded && !w.keepInput)
      ensures s.jobs[w.id].row == old(s.jobs[w.id]).row
      ensures LeavesOf(steps, me) == old(LeavesOf(steps, me)) + [Leaves(unlinks)]
    {
      RunKeepsInv(site, states, steps, |steps|);
      LeavingConsumes(s.clock, s.jobs[w.id], me, w, unlinks);
      OneMoreStep(steps, Works(me, Leaves(unlinks)), me);
      Take(Works(me, Leaves(unlinks)));
    }

    /** The body of the `try`, with the flags as it leaves them.  With nothing refused and the job left alone it ends
        with the verdict in the row and the output out. */
    method Try(me: ClaimId, ghost w: Worker) returns (raised: bool, inFd: bool, recorded: bool, keepInput: bool)
      requires Valid() && At(me, w) && w == Worker(w.id, w.sha, Opening, false, false, false)
      modifies this
      ensures Valid() && Extends() && LeavesOf(steps, me) == old(LeavesOf(steps, me))
      ensures At(me, Worker(w.id, w.sha, if raised then Recovering else Leaving, inFd, recorded, keepInput))
      ensures keepInput ==> !recorded
      ensures !raised && refusals == old(refusals) ==> Terminal(s, w.id)
      ensures LeftAlone(steps, w.id, |old(steps)|) && refusals == old(refusals) && Ready(site, old(s.jobs[w.id]), me, w.sha) ==>
                !raised && inFd && recorded && !keepInput && Finished(site, old(s.jobs[w.id]), s.jobs[w.id], me)
    {
      recorded := false;
      ghost var bytes: Bytes;
      raised, inFd, keepInput, bytes := TakeSample(me, w);
      if !raised {
        ghost var earlier := steps;
        raised, recorded := Judge(me, w.(inFd := inFd, at := Checked(bytes)));
        LeftAloneSoFar(earlier, steps, w.id, |old(steps)|);
      }
    }

    /** The input opened, copied and checked. */
    method TakeSample(me: ClaimId, ghost w: Worker) returns (raised: bool, inFd: bool, keepInput: bool, ghost bytes: Bytes)
      requires Valid() && At(me, w) && w == Worker(w.id, w.sha, Opening, false, false, false)
      modifies this
      ensures Valid() && Extends() && LeavesOf(steps, me) == old(LeavesOf(steps, me))
      ensures At(me, w.(inFd := inFd, keepInput := keepInput, at := if raised then Recovering else Checked(bytes)))
      ensures keepInput ==> raised
      ensures LeftAlone(steps, w.id, |old(steps)|) ==> Alike(old(s.jobs[w.id]), s.jobs[w.id])
      ensures LeftAlone(steps, w.id, |old(steps)|) && refusals == old(refusals) && Ready(site, old(s.jobs[w.id]), me, w.sha) ==>
                !raised && inFd && bytes == old(s.jobs[w.id]).data
    {
      keepInput, bytes := false, [];
      raised, inFd := OpenInput(me, w);
      if !raised {
        ghost var earlier := steps;
        raised, keepInput, bytes := CopyAndCheck(me, w.(inFd := inFd, at := Copying([])));
        LeftAloneSoFar(earlier, steps, w.id, |old(steps)|);
      }
    }

    /** The verdict, and the output when the verdict is in the row. */
    method Judge(me: ClaimId, ghost w: Worker) returns (raised: bool, recorded: bool)
      requires Valid() && At(me, w) && w.at.Checked? && !w.recorded
      modifies this
      ensures Valid() && Extends() && LeavesOf(steps, me) == old(LeavesOf(steps, me))
      ensures At(me, w.(recorded := recorded, at := if raised then Recovering else Leaving))
      ensures !raised && refusals == old(refusals) ==> Terminal(s, w.id)
      ensures LeftAlone(steps, w.id, |old(steps)|) && refusals == old(refusals) && Holds(old(s.jobs[w.id]), me)
              && old(s.jobs[w.id]).dir.Some? && old(s.jobs[w.id]).output == None && old(s.jobs[w.id]).data == w.at.bytes ==>
                !raised && recorded && Finished(site, old(s.jobs[w.id]), s.jobs[w.id], me)
    {
      raised, recorded := RecordVerdict(me, w);
      if recorded {
        ghost var earlier := steps;
        raised := Publish(me, w.(recorded := true, at := Publishing));
        LeftAloneSoFar(earlier, steps, w.id, |old(steps)|);
      }
    }

    /** `_process`: one claimed job, from its row to the clean-up.  It unlinks the spooled input only when a
        terminal status is in the row and the digest was not found to differ; the row is terminal at its end unless
        something was refused; and with nothing refused a job that nobody else touches is judged, published and
        consumed. */
    method Process(me: ClaimId, ghost w: Worker) returns (recorded: bool, keepInput: bool, unlinks: bool)
      requires Valid() && At(me, w) && w == Worker(w.id, w.sha, Opening, false, false, false)
      modifies this
      ensures Valid() && Extends() && me !in s.workers
      ensures w.id in s.jobs && s.jobs[w.id].row.Some? && (recorded ==> !Live(s.jobs[w.id].row.value))
      ensures unlinks ==> recorded && !keepInput
      ensures LeavesOf(steps, me) == old(LeavesOf(steps, me)) + [Leaves(unlinks)]
      ensures refusals == old(refusals) ==> Terminal(s, w.id)
      ensures LeftAlone(steps, w.id, |old(steps)|) && refusals == old(refusals) && Ready(site, old(s.jobs[w.id]), me, w.sha) ==>
                recorded && unlinks && Finished(site, old(s.jobs[w.id]), s.jobs[w.id], me) && !s.jobs[w.id].named
    {
      var raised, inFd;
      raised, inFd, recorded, keepInput := Try(me, w);
      ghost var earlier := steps;
      recorded, unlinks := Close(me, Worker(w.id, w.sha, if raised then Recovering else Leaving, inFd, recorded, keepInput), raised, inFd, recorded, keepInput);
      LeftAloneSoFar(earlier, steps, w.id, |old(steps)|);
    }

    /** What follows the `try`: the failure's write when it raised, and the clean-up. */
    method Close(me: ClaimId, ghost w: Worker, raised: bool, inFd: bool, before: bool, keepInput: bool) returns (recorded: bool, unlinks: bool)
      requires Valid() && At(me, w) && w == Worker(w.id, w.sha, if raised then Recovering else Leaving, inFd, before, keepInput)
      modifies this
      ensures Valid() && Extends() && me !in s.workers
      ensures w.id in s.jobs && s.jobs[w.id].row.Some? && (recorded ==> !Live(s.jobs[w.id].row.value))
      ensures unlinks ==> recorded && !keepInput
      ensures LeavesOf(steps, me) == old(LeavesOf(steps, me)) + [Leaves(unlinks)]
      ensures refusals == old(refusals) && (!raised ==> Terminal(old(s), w.id)) ==> Terminal(s, w.id)
      ensures !raised ==> recorded == before
      ensures !raised && inFd && before && !keepInput && refusals == old(refusals) && LeftAlone(steps, w.id, |old(steps)|) ==>
                unlinks && Consumed(old(s.jobs[w.id]), s.jobs[w.id], true)
    {
      recorded := before;
      if raised {
        recorded := RecordFailure(me, w, before);
      }
      ghost var earlier := steps;
      unlinks := Leave(me, Worker(w.id, w.sha, Leaving, inFd, recorded, keepInput), inFd && recorded && !keepInput);
      LeftAloneSoFar(earlier, steps, w.id, |old(steps)|);
    }

    /** Whatever anyone does. */
    method Anyone(ghost id: Id)
      requires Valid()
      modifies this
      ensures Valid() && Extends() && Later(old(s), s) && s.clock >= old(s.clock) && refusals == old(refusals)
      ensures Rested(states, steps, id, |old(steps)|, |steps|) && id in old(s.jobs) ==> Alike(old(s.jobs[id]), s.jobs[id])
    {
      var n: int := *;
      while n > 0
        invariant Valid() && Extends() && Later(old(s), s) && s.clock >= old(s.clock) && refusals == old(refusals)
        invariant Rested(states, steps, id, |old(steps)|, |steps|) && id in old(s.jobs) ==> Alike(old(s.jobs[id]), s.jobs[id])
      {
        ghost var mid, earlier, before := s, states, steps;
        AnyStep(id);
        RestedSoFar(earlier, before, states, steps, id, |old(steps)|, |steps|);
        LaterTwice(old(s), mid, s);
        n := n - 1;
      }
    }

    /** One step of anyone, or none. */
    method AnyStep(ghost id: Id)
      requires Valid()
      modifies this
      ensures Valid() && Extends() && Later(old(s), s) && s.clock >= old(s.clock) && refusals == old(refusals)
      ensures Rested(states, steps, id, |old(steps)|, |steps|) && id in old(s.jobs) ==> Alike(old(s.jobs[id]), s.jobs[id])
    {
      var step: Step := *;
      if Enabled(site, s, step) {
        if id in s.jobs {
          RestedStep(site, s, step, id);
        }
        Go(step);
        assert states[|old(steps)|] == old(s) && steps[|old(steps)|] == step;
      }
    }

    /** One step, with what it keeps. */
    method Go(step: Step)
      requires Valid() && Enabled(site, s, step)
      modifies this
      ensures Valid() && Extends() && s == Next(site, old(s), step) && Later(old(s), s) && s.clock >= old(s.clock)
      ensures steps == old(steps) + [step] && refusals == old(refusals)
    {
      RunKeepsInv(site, states, steps, |steps|);
      NextIsLater(site, s, step);
      Take(step);
    }

    predicate IsRunning(id: Id)
      reads this
    {
      RunningIn(s, id)
    }

    predicate IsSettled(id: Id)
      reads this
    {
      Terminal(s, id)
    }

    method MarkFailed(id: Id, answers: bool)
      requires Valid() && IsRunning(id)
      modifies this
      ensures Valid() && Extends() && Later(old(s), s) && IsSettled(id) && (answers ==> s.jobs[id].recovering)
      ensures s.jobs[id].row.value.status == Failed
    {
      Go(Orphans(id, answers, s.clock));
    }

    /** One orphan: RUNNING becomes FAILED whoever claimed it, then its kept input is consumed.  `silent` when the
        store raised. */
    method RecoverOne(id: Id) returns (silent: bool)
      requires Valid() && (IsRunning(id) || IsSettled(id))
      modifies this
      ensures Valid() && Extends() && Later(old(s), s)
      ensures if silent then refusals > old(refusals) else IsSettled(id)
    {
      Anyone(id);
      ghost var listed := s;
      silent := RecoverNow(id);
      LaterTwice(old(s), listed, s);
    }

    /** The write, and what follows when it was answered: with nothing refused the input of a job that is still RUNNING is
        gone. */
    method RecoverNow(id: Id) returns (silent: bool)
      requires Valid() && (IsRunning(id) || IsSettled(id))
      modifies this
      ensures Valid() && Extends() && Later(old(s), s)
      ensures if silent then refusals > old(refusals) else IsSettled(id)
      ensures old(IsRunning(id)) && refusals == old(refusals) ==> IsSettled(id) && s.jobs[id].row.value.status == Failed && !s.jobs[id].named
    {
      var answers := Allowed();
      var commits: bool := *;
      silent := !answers;
      if IsRunning(id) && (commits || answers) {
        FailAndConsume(id, answers);
      }
    }

    method FailAndConsume(id: Id, answers: bool)
      requires Valid() && IsRunning(id)
      modifies this
      ensures Valid() && Extends() && Later(old(s), s) && IsSettled(id)
      ensures s.jobs[id].row.value.status == Failed && (answers && refusals == old(refusals) ==> !s.jobs[id].named)
    {
      MarkFailed(id, answers);
      if answers {
        ghost var marked := s;
        Consume(id);
        LaterTwice(old(s), marked, s);
        assert LaterJob(marked.jobs[id], s.jobs[id]);
      }
    }

    method Consume(id: Id)
      requires Valid() && id in s.jobs && s.jobs[id].recovering
      modifies this
      ensures Valid() && Extends() && Later(old(s), s)
      ensures refusals == old(refusals) ==> !s.jobs[id].named
    {
      Anyone(id);
      var unlinks := Allowed();
      Go(Consumes(id, unlinks));
    }

    /** `_recover_orphans`: every job listed as RUNNING is terminal afterwards, unless the store raised for it. */
    method RecoverOrphans() returns (stale: set<Id>, silent: set<Id>)
      requires Valid()
      modifies this
      ensures Valid() && Extends() && Later(old(s), s)
      ensures stale == set id | id in old(s.jobs) && old(IsRunning(id))
      ensures |silent| <= refusals - old(refusals)
      ensures silent <= stale && forall id :: id in stale && id !in silent ==> IsSettled(id)
    {
      stale, silent := set id | id in s.jobs && IsRunning(id), {};
      var todo := stale;
      while todo != {}
        invariant Valid() && Extends() && Later(old(s), s) && todo <= stale && silent <= stale - todo
        invariant |silent| <= refusals - old(refusals)
        invariant Recovered(s, stale, todo, silent)
      {
        var id :| id in todo;
        ghost var soFar := s;
        silent := RecoverNext(id, silent, stale, todo);
        LaterTwice(old(s), soFar, s);
        todo := todo - {id};
      }
    }

    method RecoverNext(id: Id, silent: set<Id>, ghost stale: set<Id>, ghost todo: set<Id>) returns (now: set<Id>)
      requires Valid() && id in todo && id !in silent && id in stale && Recovered(s, stale, todo, silent)
      modifies this
      ensures Valid() && Extends() && Later(old(s), s) && silent <= now <= silent + {id}
      ensures |now| <= |silent| + refusals - old(refusals)
      ensures Recovered(s, stale, todo - {id}, now)
    {
      var mute := RecoverOne(id);
      RecoveredNext(old(s), s, stale, todo, silent, id, mute);
      now := if mute then silent + {id} else silent;
    }

    /** `_sweep_one` for the job root: what it removes has no row, or one that was terminal by the cutoff; only a row
        that lands later than the retention allows can be caught. */
    method SweepOne(id: Id, cutoff: int) returns (removes: bool)
      requires Valid() && site.retention > 0 && cutoff + site.retention <= s.clock
      modifies this
      ensures Valid() && Extends() && Later(old(s), s)
      ensures removes ==> id in s.jobs && (s.jobs[id].late || s.jobs[id].row.None? || IsSettled(id))
      ensures removes && IsSettled(id) && !s.jobs[id].late ==> s.jobs[id].row.value.finishedAt + site.retention <= s.clock
      ensures refusals == old(refusals) && IsDue(old(s), id, cutoff)
              && Rested(states, steps, id, |old(steps)|, if removes then |steps| - 1 else |steps|) ==>
                removes && !s.jobs[id].named && s.jobs[id].output == None && s.jobs[id].dir == None
    {
      removes := Dooms(id, cutoff);
      ghost var earlier, before := states, steps;
      if removes {
        Remove(id);
        RestedSoFar(earlier, before, states, steps, id, |old(steps)|, |steps| - 1);
      }
    }

    /** The sweep's two checks, the directory's age and then the row. */
    method Dooms(id: Id, cutoff: int) returns (doomed: bool)
      requires Valid() && site.retention > 0 && cutoff + site.retention <= s.clock
      modifies this
      ensures Valid() && Extends() && Later(old(s), s)
      ensures doomed ==> id in s.jobs && s.jobs[id].doomed
      ensures refusals == old(refusals) && IsDue(old(s), id, cutoff) && Rested(states, steps, id, |old(steps)|, |steps|) ==> doomed
    {
      if id !in s.jobs || s.jobs[id].dir.None? || s.jobs[id].dir.value > cutoff {
        return false;
      }
      Age(id, cutoff);
      ghost var aged, earlier, before := s, states, steps;
      doomed := LookUp(id, cutoff);
      LaterTwice(old(s), aged, s);
      RestedSoFar(earlier, before, states, steps, id, |old(steps)|, |steps|);
    }

    /** The look at the row, some time after the look at the directory. */
    method LookUp(id: Id, cutoff: int) returns (doomed: bool)
      requires Valid() && id in s.jobs && cutoff in s.jobs[id].looked
      modifies this
      ensures Valid() && Extends() && Later(old(s), s)
      ensures doomed ==> id in s.jobs && s.jobs[id].doomed
      ensures refusals == old(refusals) && !Spared(old(s).jobs[id], cutoff) && Rested(states, steps, id, |old(steps)|, |steps|) ==> doomed
    {
      Anyone(id);
      var answers := Allowed();
      assert LaterJob(old(s).jobs[id], s.jobs[id]);
      doomed := answers && !Spared(s.jobs[id], cutoff);
      if doomed {
        ghost var asked, earlier, before := s, states, steps;
        Look(id, cutoff);
        LaterTwice(old(s), asked, s);
      }
    }

    method Look(id: Id, cutoff: int)
      requires Valid() && Enabled(site, s, Looks(id, cutoff)) && !Spared(s.jobs[id], cutoff)
      modifies this
      ensures Valid() && Extends() && Later(old(s), s) && id in s.jobs && s.jobs[id].doomed
      ensures steps == old(steps) + [Looks(id, cutoff)] && refusals == old(refusals)
    {
      Go(Looks(id, cutoff));
    }

    method Age(id: Id, cutoff: int)
      requires Valid() && Enabled(site, s, Ages(id, cutoff))
      modifies this
      ensures Valid() && Extends() && Later(old(s), s) && id in s.jobs && cutoff in s.jobs[id].looked
      ensures steps == old(steps) + [Ages(id, cutoff)] && refusals == old(refusals)
      ensures Alike(old(s.jobs[id]), s.jobs[id])
    {
      Go(Ages(id, cutoff));
    }

    /** The removal, which may stop part of the way. */
    method Remove(id: Id)
      requires Valid() && id in s.jobs && s.jobs[id].doomed
      modifies this
      ensures Valid() && Extends() && Later(old(s), s)
      ensures id in s.jobs && (s.jobs[id].late || s.jobs[id].row.None? || IsSettled(id))
      ensures IsSettled(id) && !s.jobs[id].late ==> s.jobs[id].row.value.finishedAt + site.retention <= s.clock
      ensures |steps| > |old(steps)|
      ensures refusals == old(refusals) ==> !s.jobs[id].named && s.jobs[id].output == None && s.jobs[id].dir == None
    {
      Anyone(id);
      var input := Allowed();
      var sealed := Allowed();
      RemoveNow(id, input, sealed);
    }

    method RemoveNow(id: Id, input: bool, sealed: bool)
      requires Valid() && id in s.jobs && s.jobs[id].doomed
      modifies this
      ensures Valid() && Extends() && Later(old(s), s) && |steps| > |old(steps)| && refusals == old(refusals)
      ensures id in s.jobs && (s.jobs[id].late || s.jobs[id].row.None? || IsSettled(id))
      ensures IsSettled(id) && !s.jobs[id].late ==> s.jobs[id].row.value.finishedAt + site.retention <= s.clock
      ensures input && sealed ==> !s.jobs[id].named && s.jobs[id].output == None && s.jobs[id].dir == None
    {
      Go(Removes(id, input, sealed));
      RunKeepsInv(site, states, steps, |steps|);
      assert SweepInv(site, s.clock, s.jobs[id]);
    }
  }

  /** No step from `from` to `to` did anything to the job but look at it. */
  ghost predicate Rested(states: seq<State>, steps: seq<Step>, id: Id, from: nat, to: int) {
    to <= |steps| <= |states| && forall k :: from <= k < to ==> Moves(states[k], steps[k]) != Some(id) || steps[k].Ages? || steps[k].Looks?
  }

  lemma RestedSoFar(earlier: seq<State>, a: seq<Step>, states: seq<State>, b: seq<Step>, id: Id, from: nat, to: nat)
    requires earlier <= states && a <= b && from <= |a| <= to <= |b| && |a| <= |earlier|
    ensures Rested(states, b, id, from, to) ==> Rested(earlier, a, id, from, |a|) && Rested(states, b, id, |a|, to)
    ensures Rested(states, b, id, from, |b|) ==> Rested(earlier, a, id, from, |a|) && Rested(states, b, id, |a|, |b|)
  {
    if Rested(states, b, id, from, to) || Rested(states, b, id, from, |b|) {
      forall k | from <= k < |a|
        ensures Moves(earlier[k], a[k]) != Some(id) || a[k].Ages? || a[k].Looks?
      {
        assert earlier[k] == states[k] && a[k] == b[k];
      }
    }
  }

  lemma RestedStep(site: Site, s: State, step: Step, id: Id)
    requires Enabled(site, s, step) && id in s.jobs
    ensures id in Next(site, s, step).jobs
    ensures Moves(s, step) != Some(id) || step.Ages? || step.Looks? ==> Alike(s.jobs[id], Next(site, s, step).jobs[id])
  {
    if Moves(s, step) == Some(id) {
      LooksAreAlike(site, s, step, id);
    } else {
      OtherJobsStay(site, s, step, id);
    }
  }

  /** An entry the sweep is there for: its directory is that old, and its row is no reason to spare it. */
  predicate IsDue(s: State, id: Id, cutoff: int) {
    && id in s.jobs && s.jobs[id].dir.Some? && s.jobs[id].dir.value <= cutoff
    && (s.jobs[id].row.Some? ==>
          (s.jobs[id].row.value.status == Done || s.jobs[id].row.value.status == Failed) && s.jobs[id].row.value.finishedAt <= cutoff)
  }

  /** What an upload knows of its own job. */
  predicate SameUpload(a: Job, b: Job) {
    a.upload == b.upload && a.lost == b.lost && (a.row.Some? <==> b.row.Some?)
  }

  lemma OthersLeaveUpload(site: Site, states: seq<State>, steps: seq<Step>, step: Step, id: Id)
    requires IsRun(site, states, steps) && Enabled(site, states[|steps|], step) && !(step.Uploads? && step.id == id)
    requires id in states[|steps|].jobs
    ensures var t := Next(site, states[|steps|], step);
            id in t.jobs && SameUpload(states[|steps|].jobs[id], t.jobs[id])
  {
    var s := states[|steps|];
    RunKeepsInv(site, states, steps, |steps|);
    StepKeepsInv(site, s, step);
    OnlyUploadMoves(site, s, step, id);
    if Next(site, s, step).jobs[id].row.Some? {
      RowNeedsUpload(site, s, step, id);
    }
  }

  lemma ReadGives(site: Site, clock: int, j: Job, c: ClaimId, w: Worker, n: nat)
    requires w.at.Copying? && n > 0 && |w.at.bytes| + n <= |j.data|
    ensures WorkNext(site, clock, j, c, w, Reads(n)) == Some(AfterChunk(site, w, j.data[|w.at.bytes|..][..n]))
  {
    assert j.data[|w.at.bytes|..][..n] == j.data[|w.at.bytes|..|w.at.bytes| + n];
  }

  /** Rows moved forward, and checks that passed stay passed. */
  ghost predicate Later(s: State, t: State) {
    forall id :: id in s.jobs ==> id in t.jobs && LaterJob(s.jobs[id], t.jobs[id])
  }

  /** Where orphan recovery stands: what it has yet to do is running or settled, what it has done is settled or silent. */
  ghost predicate Recovered(s: State, stale: set<Id>, todo: set<Id>, silent: set<Id>) {
    forall id :: id in stale && id !in silent ==> Terminal(s, id) || (id in todo && RunningIn(s, id))
  }

  predicate RunningIn(s: State, id: Id) {
    id in s.jobs && s.jobs[id].row.Some? && s.jobs[id].row.value.status == Running
  }

  lemma RecoveredNext(a: State, b: State, stale: set<Id>, todo: set<Id>, silent: set<Id>, id: Id, mute: bool)
    requires Recovered(a, stale, todo, silent) && Later(a, b) && (mute || Terminal(b, id))
    ensures Recovered(b, stale, todo - {id}, if mute then silent + {id} else silent)
  {
    SettledStays(a, b);
  }

  lemma LaterTwice(a: State, b: State, c: State)
    requires Later(a, b) && Later(b, c)
    ensures Later(a, c)
  {
    forall id | id in a.jobs
      ensures id in c.jobs && LaterJob(a.jobs[id], c.jobs[id])
    {
      assert LaterJob(a.jobs[id], b.jobs[id]) && LaterJob(b.jobs[id], c.jobs[id]);
    }
  }

  /** A row that is there stays, and a terminal one as it is. */
  lemma SettledStays(a: State, b: State)
    requires Later(a, b)
    ensures forall id :: id in a.jobs && a.jobs[id].row.Some? ==>
              && id in b.jobs && b.jobs[id].row.Some? && (!Live(a.jobs[id].row.value) ==> b.jobs[id].row == a.jobs[id].row)
              && (a.jobs[id].row.value.status == Running ==> b.jobs[id].row.value.status == Running || !Live(b.jobs[id].row.value))
  {
    forall id | id in a.jobs && a.jobs[id].row.Some?
      ensures id in b.jobs && LaterJob(a.jobs[id], b.jobs[id])
    {
    }
  }

  predicate LaterJob(a: Job, b: Job) {
    && (a.row.Some? ==> b.row.Some? && Rank(a.row.value.status) <= Rank(b.row.value.status)
                        && (!Live(a.row.value) ==> a.row == b.row))
    && SameChecks(a, b)
  }

  lemma NextIsLater(site: Site, s: State, step: Step)
    requires Inv(site, s) && Enabled(site, s, step)
    ensures Later(s, Next(site, s, step))
  {
    StepKeepsInv(site, s, step);
    ChecksStay(site, s, step);
  }

  predicate SameChecks(a: Job, b: Job) {
    a.looked <= b.looked && (a.doomed ==> b.doomed) && (a.recovering ==> b.recovering)
  }

  lemma ChecksStay(site: Site, s: State, step: Step)
    requires Enabled(site, s, step)
    ensures forall id :: id in s.jobs ==> id in Next(site, s, step).jobs && SameChecks(s.jobs[id], Next(site, s, step).jobs[id])
  {
    match step {
      case Uploads(id, m) => UploadChecks(site, s.clock, s.jobs[id], m);
      case Works(c, m) => WorkChecks(s.clock, s.jobs[s.workers[c].id], c, s.workers[c], m);
      case _ =>
    }
  }

  lemma UploadChecks(site: Site, clock: int, j: Job, m: UploadMove)
    ensures SameChecks(j, UploadNext(site, clock, j, m))
  {
  }

  lemma WorkChecks(clock: int, j: Job, c: ClaimId, w: Worker, m: WorkMove)
    requires WorkEnabled(clock, j, c, w, m)
    ensures SameChecks(j, WorkJob(clock, j, c, w, m))
  {
  }

  lemma LeavingConsumes(clock: int, j: Job, c: ClaimId, w: Worker, unlinks: bool)
    requires w.at == Leaving
    ensures Consumed(j, WorkJob(clock, j, c, w, Leaves(unlinks)), unlinks && w.inFd && w.recorded && !w.keepInput)
    ensures WorkJob(clock, j, c, w, Leaves(unlinks)).row == j.row
  {
  }

  /** What a verdict's write does that is answered. */
  lemma VerdictWritten(site: Site, clock: int, j: Job, c: ClaimId, w: Worker, status: Status, o: Outcome, at: int)
    requires WorkerInv(site, j, c, w) && WorkEnabled(clock, j, c, w, Records(status, o, at)) && o.answers
    ensures var k := WorkJob(clock, j, c, w, Records(status, o, at));
            && k.row.Some? && !Live(k.row.value) && (Holds(j, c) && status == Answer(site, w.at.bytes) ==> o.commits && JudgedAs(site, j, k, c, w.at.bytes))
  {
  }

  lemma FailureWritten(site: Site, clock: int, j: Job, c: ClaimId, w: Worker, o: Outcome, at: int)
    requires WorkerInv(site, j, c, w) && WorkEnabled(clock, j, c, w, RecordsFailure(o, at)) && o.answers
    ensures var k := WorkJob(clock, j, c, w, RecordsFailure(o, at)); k.row.Some? && !Live(k.row.value)
  {
  }

  /** A copy of what the job held at first, for as long as it is left alone. */
  ghost predicate CopySoFar(first: Job, now: Job, steps: seq<Step>, id: Id, from: nat, bytes: Bytes) {
    LeftAlone(steps, id, from) ==> Alike(first, now) && bytes <= first.data
  }

  lemma CopyGoesOn(first: Job, a: Job, b: Job, earlier: seq<Step>, steps: seq<Step>, id: Id, from: nat, bytes: Bytes, more: Bytes)
    requires CopySoFar(first, a, earlier, id, from, bytes) && earlier <= steps && from <= |earlier|
    requires LeftAlone(steps, id, |earlier|) ==> Alike(a, b)
    requires LeftAlone(steps, id, |earlier|) && bytes <= a.data ==> more <= a.data
    ensures CopySoFar(first, b, steps, id, from, more)
  {
    LeftAloneSoFar(earlier, steps, id, from);
  }

  /** A job nobody else touches is changed by its claim thread alone. */
  lemma OtherLeavesJob(site: Site, s: State, step: Step, me: ClaimId)
    requires Inv(site, s) && Enabled(site, s, step) && me in s.workers && !Mine(step, me)
    ensures var id := s.workers[me].id; id in s.jobs && id in Next(site, s, step).jobs
    ensures var id := s.workers[me].id; !Disturbs(step, id) ==> Alike(s.jobs[id], Next(site, s, step).jobs[id])
  {
    var id := s.workers[me].id;
    assert WorkerInv(site, s.jobs[id], me, s.workers[me]);
    if step.Works? {
      OneThreadAJob(site, s, me, step.claim);
    }
    assert Moves(s, step) == Some(id) ==> step.Ages? || step.Looks? || Disturbs(step, id);
    RestedStep(site, s, step, id);
  }

  /** The one job a step may change. */
  function Moves(s: State, step: Step): Option<Id> {
    match step
    case Tick(_) => None
    case Begin(id) => Some(id)
    case Uploads(id, _) => Some(id)
    case Claims(id, _) => Some(id)
    case Works(c, _) => if c in s.workers then Some(s.workers[c].id) else None
    case Orphans(id, _, _) => Some(id)
    case Consumes(id, _) => Some(id)
    case Ages(id, _) => Some(id)
    case Looks(id, _) => Some(id)
    case Removes(id, _, _) => Some(id)
    case Tampers(id, _) => Some(id)
  }

  lemma OtherJobsStay(site: Site, s: State, step: Step, id: Id)
    requires Enabled(site, s, step) && id in s.jobs && Moves(s, step) != Some(id)
    ensures id in Next(site, s, step).jobs && Next(site, s, step).jobs[id] == s.jobs[id]
  {
  }

  lemma LooksAreAlike(site: Site, s: State, step: Step, id: Id)
    requires Enabled(site, s, step) && Moves(s, step) == Some(id) && id in s.jobs
    ensures id in Next(site, s, step).jobs
    ensures step.Ages? || step.Looks? ==> Alike(s.jobs[id], Next(site, s, step).jobs[id])
  {
  }

  /** A job has one claim thread at most. */
  lemma OneThreadAJob(site: Site, s: State, c: ClaimId, d: ClaimId)
    requires Inv(site, s) && c in s.workers && d in s.workers && c != d
    ensures s.workers[c].id != s.workers[d].id
  {
    assert WorkerInv(site, s.jobs[s.workers[c].id], c, s.workers[c]) && WorkerInv(site, s.jobs[s.workers[d].id], d, s.workers[d]);
  }

  lemma TerminalStays(site: Site, s: State, step: Step, id: Id)
    requires Inv(site, s) && Enabled(site, s, step)
    ensures Terminal(s, id) ==> Terminal(Next(site, s, step), id)
  {
    StepKeepsInv(site, s, step);
    if Terminal(s, id) {
      assert Onward(s.jobs[id], Next(site, s, step).jobs[id]);
    }
  }

  /** A step that is not its own leaves a claim thread's record alone. */
  lemma OtherWorkersRecord(site: Site, s: State, step: Step, me: ClaimId)
    requires Inv(site, s) && Enabled(site, s, step) && me in s.workers && !Mine(step, me)
    ensures me in Next(site, s, step).workers && Next(site, s, step).workers[me] == s.workers[me]
    ensures forall id :: id in s.jobs ==> id in Next(site, s, step).jobs
  {
    if step.Works? {
      assert Next(site, s, step).workers.Keys >= s.workers.Keys - {step.claim};
    }
  }
}
