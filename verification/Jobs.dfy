/** The life of a job across the two tiers, as interleaved steps: uploads, the pool manager's claim
    threads, its orphan recovery, its retention sweep, and a hand that tampers with spooled bytes.
    Any actor may stop for ever between two steps, and any store call may fail after it committed. */
module Jobs {
  import opened Options
  import opened Spool

  type Id = nat
  type ClaimId = nat

  /** `cap` is the ingress's bound on an upload, `bound` the pool manager's on what it copies; `engineError` says of which
      samples the engine's envelope is an error. */
  datatype Site = Site(hash: Hash, retention: nat, cap: nat, bound: nat, engineError: Bytes -> bool)

  datatype Status = Queued | Running | Done | Failed

  /** A store row; `claim` means nothing before the row is first claimed. */
  datatype Row = Row(status: Status, claim: ClaimId, sha: Option<int>, finishedAt: int)

  /** Where an upload is.  Asking: `create` raised, and `landed` says whether it had committed. */
  datatype Upload = Spooling | Asking(landed: bool) | Undoing | Over

  /** A verdict that a claim's write recorded: over which bytes, with which status. */
  datatype Verdict = Verdict(claim: ClaimId, bytes: Bytes, status: Status)

  /** One job: its upload, its row, its directory.  `spooled` is what the ingress hashed, `data` what the
      spooled file holds, `named` whether its name is there, `dir` the directory's mtime.  `looked`, `doomed`
      and `recovering` are others' checks that passed: a sweep's age check by its cutoffs, its decision to
      remove, an orphan recovery that wrote FAILED.  From `late` on it is history. */
  datatype Job = Job(
    since: int,
    upload: Upload,
    spooled: Bytes,
    row: Option<Row>,
    dir: Option<int>,
    named: bool,
    data: Bytes,
    output: Option<ClaimId>,
    looked: set<int>,
    doomed: bool,
    recovering: bool,
    late: bool,
    lost: bool,
    tampered: bool,
    verdict: Option<Verdict>,
    published: seq<ClaimId>)

  /** Where a claim thread is in `_process`. */
  datatype Stage = Opening | Copying(bytes: Bytes) | Checked(bytes: Bytes) | Publishing | Recovering | Leaving

  /** A claim thread: the job as it was claimed, whether the input is open, and two flags of `_process`. */
  datatype Worker = Worker(id: Id, sha: Option<int>, at: Stage, inFd: bool, recorded: bool, keepInput: bool)

  datatype State = State(clock: int, jobs: map<Id, Job>, nextClaim: ClaimId, workers: map<ClaimId, Worker>)

  /** What a store write does: commit or not, then answer or raise. */
  datatype Outcome = Outcome(commits: bool, answers: bool)

  datatype UploadMove =
    | Spools(chunk: Bytes)
    | Breaks
    | Creates(outcome: Outcome)
    | Asks(answers: bool)
    | Undoes(unlinks: bool, rmdirs: bool)
    | Vanishes

  datatype WorkMove =
    | Opens(opens: bool, passes: bool)
    | Reads(n: nat)
    | Ends
    | Fails
    | Records(status: Status, outcome: Outcome, at: int)
    | Publishes(creates: bool)
    | RecordsFailure(outcome: Outcome, at: int)
    | Leaves(unlinks: bool)
    | Dies

  datatype Step =
    | Tick(d: nat)
    | Begin(id: Id)
    | Uploads(id: Id, move: UploadMove)
    | Claims(id: Id, answers: bool)
    | Works(claim: ClaimId, work: WorkMove)
    | Orphans(id: Id, answers: bool, at: int)
    | Consumes(id: Id, unlinks: bool)
    | Ages(id: Id, cutoff: int)
    | Looks(id: Id, cutoff: int)
    | Removes(id: Id, input: bool, sealed: bool)
    | Tampers(id: Id, data: Bytes)

  predicate Live(row: Row) {
    row.status == Queued || row.status == Running
  }

  predicate HasLiveRow(j: Job) {
    j.row.Some? && Live(j.row.value)
  }

  /** The compare-and-set of a claim: the row is RUNNING under it. */
  predicate Holds(j: Job, c: ClaimId) {
    j.row.Some? && j.row.value.status == Running && j.row.value.claim == c
  }

  // ---- one upload

  predicate UploadEnabled(site: Site, j: Job, m: UploadMove) {
    match m
    case Spools(chunk) => j.upload == Spooling && |j.spooled| + |chunk| <= site.cap
    case Breaks => j.upload == Spooling
    case Creates(o) => j.upload == Spooling && (o.answers ==> o.commits)
    case Asks(_) => j.upload.Asking?
    case Undoes(_, _) => j.upload == Undoing
    case Vanishes => true
  }

  function UploadNext(site: Site, clock: int, j: Job, m: UploadMove): Job {
    match m
    case Spools(chunk) => j.(spooled := j.spooled + chunk, data := j.data + chunk)
    case Breaks => j.(upload := Undoing)
    case Creates(o) =>
      var asked := j.(upload := if o.answers then Over else Asking(o.commits));
      if o.commits then
        asked.(row := Some(Row(Queued, 0, Some(Digest(site.hash, j.spooled)), 0)), late := clock >= j.since + site.retention)
      else asked
    case Asks(answers) => j.(upload := if answers && j.row.Some? then Over else Undoing)
    case Undoes(unlinks, rmdirs) =>
      var over := j.(upload := Over, named := j.named && !unlinks, lost := j.lost || (unlinks && j.row.Some?));
      if unlinks && rmdirs && j.dir.Some? then over.(dir := if j.output.None? then None else Some(clock)) else over
    case Vanishes => j.(upload := Over)
  }

  // ---- one claim thread

  predicate WriteEnabled(clock: int, j: Job, c: ClaimId, o: Outcome, at: int) {
    at <= clock && (o.commits ==> Holds(j, c)) && (o.answers ==> (o.commits <==> Holds(j, c)))
  }

  predicate WorkEnabled(clock: int, j: Job, c: ClaimId, w: Worker, m: WorkMove) {
    match m
    case Opens(opens, passes) => w.at == Opening && (opens ==> j.named && j.dir.Some?) && (passes ==> opens)
    case Reads(n) => w.at.Copying? && n > 0 && |w.at.bytes| < |j.data|
    case Ends => w.at.Copying? && |w.at.bytes| >= |j.data|
    case Fails => w.at.Copying? || w.at.Checked? || w.at == Publishing
    case Records(status, o, at) => w.at.Checked? && (status == Done || status == Failed) && WriteEnabled(clock, j, c, o, at)
    case Publishes(creates) => w.at == Publishing && (creates ==> j.dir.Some? && j.output == None)
    case RecordsFailure(o, at) => w.at == Recovering && WriteEnabled(clock, j, c, o, at)
    case Leaves(_) => w.at == Leaving
    case Dies => true
  }

  /** A verdict's status is the engine's answer about the bytes that were read. */
  predicate Judges(site: Site, w: Worker, m: WorkMove) {
    m.Records? && w.at.Checked? ==> m.status == Answer(site, w.at.bytes)
  }

  function Answer(site: Site, bytes: Bytes): Status {
    if site.engineError(bytes) then Failed else Done
  }

  function Settled(j: Job, status: Status, at: int): Job
    requires j.row.Some?
  {
    j.(row := Some(j.row.value.(status := status, finishedAt := at)))
  }

  function WorkJob(clock: int, j: Job, c: ClaimId, w: Worker, m: WorkMove): Job
    requires WorkEnabled(clock, j, c, w, m)
  {
    match m
    case Records(status, o, at) =>
      if o.commits then Settled(j, status, at).(verdict := Some(Verdict(c, w.at.bytes, status))) else j
    case Publishes(creates) =>
      if creates then j.(output := Some(c), published := j.published + [c], dir := Some(clock)) else j
    case RecordsFailure(o, at) => if o.commits then Settled(j, Failed, at) else j
    // the spooled input is consumed only once a terminal status is known to be in the row
    case Leaves(unlinks) => j.(named := j.named && !(unlinks && w.inFd && w.recorded && !w.keepInput))
    case _ => j
  }

  function WorkNext(site: Site, clock: int, j: Job, c: ClaimId, w: Worker, m: WorkMove): Option<Worker>
    requires WorkEnabled(clock, j, c, w, m)
  {
    match m
    case Opens(opens, passes) => Some(w.(inFd := opens, at := if passes then Copying([]) else Recovering))
    case Reads(n) =>
      var b := w.at.bytes;
      var upto := if |b| + n < |j.data| then |b| + n else |j.data|;
      Some(w.(at := if upto > site.bound then Recovering else Copying(b + j.data[|b|..upto])))
    case Ends =>
      if w.sha.Some? && Digest(site.hash, w.at.bytes) != w.sha.value then Some(w.(at := Recovering, keepInput := true))
      else Some(w.(at := Checked(w.at.bytes)))
    case Fails => Some(w.(at := Recovering))
    case Records(_, o, _) =>
      if !o.answers then Some(w.(at := Recovering))
      else Some(w.(recorded := o.commits, at := if o.commits then Publishing else Leaving))
    case Publishes(_) => Some(w.(at := Leaving))
    case RecordsFailure(o, _) => Some(w.(at := Leaving, recorded := if o.answers then o.commits else w.recorded))
    case Leaves(_) => None
    case Dies => None
  }

  // ---- everyone

  predicate Enabled(site: Site, s: State, step: Step) {
    match step
    case Tick(_) => true
    case Begin(id) => id !in s.jobs
    case Uploads(id, m) => id in s.jobs && UploadEnabled(site, s.jobs[id], m)
    case Claims(id, _) => id in s.jobs && s.jobs[id].row.Some? && s.jobs[id].row.value.status == Queued
    case Works(c, m) =>
      && c in s.workers && s.workers[c].id in s.jobs
      && WorkEnabled(s.clock, s.jobs[s.workers[c].id], c, s.workers[c], m)
      && Judges(site, s.workers[c], m)
    case Orphans(id, _, at) =>
      id in s.jobs && at <= s.clock && s.jobs[id].row.Some? && s.jobs[id].row.value.status == Running
    case Consumes(id, _) => id in s.jobs && s.jobs[id].recovering
    case Ages(id, cutoff) =>
      && id in s.jobs && site.retention > 0 && cutoff + site.retention <= s.clock
      && s.jobs[id].dir.Some? && s.jobs[id].dir.value <= cutoff
    case Looks(id, cutoff) => id in s.jobs && cutoff in s.jobs[id].looked
    case Removes(id, _, _) => id in s.jobs && s.jobs[id].doomed
    case Tampers(id, _) => id in s.jobs && s.jobs[id].named
  }

  function Begun(clock: int): Job {
    Job(clock, Spooling, [], None, Some(clock), true, [], None, {}, false, false, false, false, false, None, [])
  }

  predicate Spared(j: Job, cutoff: int) {
    j.row.Some? && (Live(j.row.value) || j.row.value.finishedAt > cutoff)
  }

  /** The sweep's look at the row: doomed without one, or with one that was terminal by the cutoff. */
  function LookedAt(j: Job, cutoff: int): Job {
    j.(doomed := j.doomed || !Spared(j, cutoff))
  }

  function Next(site: Site, s: State, step: Step): State
    requires Enabled(site, s, step)
  {
    match step
    case Tick(d) => s.(clock := s.clock + d)
    case Begin(id) => s.(jobs := s.jobs[id := Begun(s.clock)])
    case Uploads(id, m) => s.(jobs := s.jobs[id := UploadNext(site, s.clock, s.jobs[id], m)])
    case Claims(id, answers) =>
      var j := s.jobs[id];
      var row := j.row.value.(status := Running, claim := s.nextClaim);
      s.(jobs := s.jobs[id := j.(row := Some(row))],
         nextClaim := s.nextClaim + 1,
         workers := if answers then s.workers[s.nextClaim := Worker(id, row.sha, Opening, false, false, false)] else s.workers)
    case Works(c, m) =>
      var w := s.workers[c];
      var j := s.jobs[w.id];
      var went := WorkNext(site, s.clock, j, c, w, m);
      s.(jobs := s.jobs[w.id := WorkJob(s.clock, j, c, w, m)],
         workers := if went.Some? then s.workers[c := went.value] else s.workers - {c})
    case Orphans(id, answers, at) =>
      var j := Settled(s.jobs[id], Failed, at);
      s.(jobs := s.jobs[id := j.(recovering := j.recovering || answers)])
    case Consumes(id, unlinks) =>
      var j := s.jobs[id];
      s.(jobs := s.jobs[id := j.(named := j.named && !unlinks)])
    case Ages(id, cutoff) => s.(jobs := s.jobs[id := s.jobs[id].(looked := s.jobs[id].looked + {cutoff})])
    case Looks(id, cutoff) => s.(jobs := s.jobs[id := LookedAt(s.jobs[id], cutoff)])
    case Removes(id, input, sealed) =>
      var j := s.jobs[id];
      s.(jobs := s.jobs[id := j.(named := j.named && !input,
                                 output := if sealed then None else j.output,
                                 dir := if input && sealed then None else j.dir)])
    case Tampers(id, data) => s.(jobs := s.jobs[id := s.jobs[id].(data := data, tampered := true)])
  }

  ghost predicate IsRun(site: Site, states: seq<State>, steps: seq<Step>) {
    && |states| == |steps| + 1
    && states[0] == State(0, map[], 0, map[])
    && forall i :: 0 <= i < |steps| ==>
         Enabled(site, states[i], steps[i]) && states[i + 1] == Next(site, states[i], steps[i])
  }

  // ---- what every job keeps

  ghost predicate JobInv(site: Site, clock: int, j: Job) {
    && SpoolInv(site, clock, j)
    && SweepInv(site, clock, j)
    && VerdictInv(site, clock, j)
  }

  ghost predicate SpoolInv(site: Site, clock: int, j: Job) {
    && (j.upload == Spooling ==> j.row.None? && (clock < j.since + site.retention ==> j.named))
    && (j.upload.Asking? ==> j.upload.landed == j.row.Some?)
    && (j.row.Some? ==> j.row.value.sha == Some(Digest(site.hash, j.spooled)))
    && (j.row.None? ==> !j.lost && !j.late)
    && (j.lost ==> j.upload == Over)
    && (HasLiveRow(j) && !j.late ==> (j.named <==> !j.lost))
    && (!j.tampered ==> j.data == j.spooled)
    && (j.recovering ==> j.row.Some? && !Live(j.row.value))
  }

  ghost predicate SweepInv(site: Site, clock: int, j: Job) {
    && j.since <= clock
    && (j.dir.Some? ==> j.since <= j.dir.value)
    && (forall c :: c in j.looked ==> j.since <= c && c + site.retention <= clock)
    && (j.doomed ==> j.since + site.retention <= clock)
    && (j.doomed && j.row.Some? && !j.late ==> !Live(j.row.value) && j.row.value.finishedAt + site.retention <= clock)
  }

  ghost predicate VerdictInv(site: Site, clock: int, j: Job) {
    && (j.row.Some? && j.row.value.status == Done ==> j.verdict.Some?)
    && (j.verdict.Some? ==>
          var v := j.verdict.value;
          && j.row.Some? && j.row.value.status == v.status && !Live(j.row.value) && j.row.value.claim == v.claim
          && j.row.value.sha == Some(Digest(site.hash, v.bytes)) && |v.bytes| <= site.bound
          && v.status == Answer(site, v.bytes) && (!j.tampered ==> v.bytes == j.spooled))
    && (j.published != [] ==> j.verdict.Some? && j.published == [j.verdict.value.claim])
    && (j.output.Some? ==> j.published == [j.output.value])
    && (j.published != [] && !j.late && clock < j.row.value.finishedAt + site.retention ==> j.output.Some?)
  }

  /** What a claim thread knows of its job. */
  ghost predicate WorkerInv(site: Site, j: Job, c: ClaimId, w: Worker) {
    && j.row.Some? && w.sha == j.row.value.sha && j.row.value.status != Queued && j.row.value.claim == c
    && (w.recorded ==> !Live(j.row.value))
    && (w.at.Copying? ==> |w.at.bytes| <= site.bound && (!j.tampered ==> w.at.bytes <= j.spooled))
    && (w.at.Checked? ==> |w.at.bytes| <= site.bound && w.sha == Some(Digest(site.hash, w.at.bytes))
                          && (!j.tampered ==> w.at.bytes == j.spooled))
    && (w.at == Publishing ==> w.recorded && j.verdict.Some? && j.verdict.value.claim == c && j.published == [])
  }

  ghost predicate Inv(site: Site, s: State) {
    && (forall id :: id in s.jobs ==> JobInv(site, s.clock, s.jobs[id]))
    && (forall c :: c in s.workers ==> c < s.nextClaim && s.workers[c].id in s.jobs
                                       && WorkerInv(site, s.jobs[s.workers[c].id], c, s.workers[c]))
  }

  // ---- how a job may change under the eyes of a claim thread that did not change it

  function Rank(status: Status): nat {
    match status
    case Queued => 0
    case Running => 1
    case _ => 2
  }

  /** A row moves at most one stage on, and a terminal one not at all. */
  predicate Forward(a: Row, b: Row) {
    && a.sha == b.sha
    && (a == b || Rank(b.status) == Rank(a.status) + 1)
    && (a.status != Queued ==> a.claim == b.claim)
  }

  ghost predicate Onward(a: Job, b: Job) {
    && (a.row.Some? ==> b.row.Some? && Forward(a.row.value, b.row.value) && a.spooled == b.spooled)
    && (a.row.None? && b.row.Some? ==> b.row.value.status == Queued)
    && (a.tampered ==> b.tampered)
    && (a.verdict.Some? ==> a.verdict == b.verdict)
    && a.published <= b.published
    && (a.late && a.row.Some? ==> b.late)
    && (a.lost ==> b.lost)
  }

  ghost predicate AllOnward(s: State, t: State) {
    forall id :: id in s.jobs ==> id in t.jobs && Onward(s.jobs[id], t.jobs[id])
  }

  /** What most moves do to one job. */
  ghost predicate Kept(site: Site, clock: int, a: Job, b: Job) {
    JobInv(site, clock, b) && Onward(a, b) && a.published == b.published
  }

  lemma UploadKeeps(site: Site, clock: int, j: Job, m: UploadMove)
    requires JobInv(site, clock, j) && UploadEnabled(site, j, m)
    ensures Kept(site, clock, j, UploadNext(site, clock, j, m))
  {
    match m {
      case Creates(o) => CreateKeeps(site, clock, j, o);
      case Undoes(unlinks, rmdirs) => UndoKeeps(site, clock, j, unlinks, rmdirs);
      case _ =>
    }
  }

  lemma CreateKeeps(site: Site, clock: int, j: Job, o: Outcome)
    requires JobInv(site, clock, j) && UploadEnabled(site, j, Creates(o))
    ensures Kept(site, clock, j, UploadNext(site, clock, j, Creates(o)))
  {
  }

  lemma UndoKeeps(site: Site, clock: int, j: Job, unlinks: bool, rmdirs: bool)
    requires JobInv(site, clock, j) && j.upload == Undoing
    ensures Kept(site, clock, j, UploadNext(site, clock, j, Undoes(unlinks, rmdirs)))
  {
  }

  lemma WorkKeeps(site: Site, clock: int, j: Job, c: ClaimId, w: Worker, m: WorkMove)
    requires JobInv(site, clock, j) && WorkerInv(site, j, c, w) && WorkEnabled(clock, j, c, w, m)
    requires Judges(site, w, m)
    ensures JobInv(site, clock, WorkJob(clock, j, c, w, m))
    ensures Onward(j, WorkJob(clock, j, c, w, m))
    ensures WorkJob(clock, j, c, w, m).published != j.published ==> w.at == Publishing
  {
    match m {
      case Records(_, _, _) => RecordKeeps(site, clock, j, c, w, m);
      case RecordsFailure(o, at) => RecordKeeps(site, clock, j, c, w, m);
      case Publishes(creates) => PublishKeeps(site, clock, j, c, w, creates);
      case _ =>
    }
  }

  lemma RecordKeeps(site: Site, clock: int, j: Job, c: ClaimId, w: Worker, m: WorkMove)
    requires JobInv(site, clock, j) && WorkerInv(site, j, c, w) && WorkEnabled(clock, j, c, w, m)
    requires m.Records? || m.RecordsFailure?
    requires Judges(site, w, m)
    ensures Kept(site, clock, j, WorkJob(clock, j, c, w, m))
  {
    RecordKeepsSpool(site, clock, j, c, w, m);
    RecordKeepsSweep(site, clock, j, c, w, m);
    RecordKeepsVerdict(site, clock, j, c, w, m);
  }

  lemma RecordKeepsSpool(site: Site, clock: int, j: Job, c: ClaimId, w: Worker, m: WorkMove)
    requires SpoolInv(site, clock, j) && WorkEnabled(clock, j, c, w, m) && (m.Records? || m.RecordsFailure?)
    ensures SpoolInv(site, clock, WorkJob(clock, j, c, w, m))
  {
  }

  lemma RecordKeepsSweep(site: Site, clock: int, j: Job, c: ClaimId, w: Worker, m: WorkMove)
    requires SweepInv(site, clock, j) && WorkEnabled(clock, j, c, w, m) && (m.Records? || m.RecordsFailure?)
    ensures SweepInv(site, clock, WorkJob(clock, j, c, w, m))
  {
  }

  lemma RecordKeepsVerdict(site: Site, clock: int, j: Job, c: ClaimId, w: Worker, m: WorkMove)
    requires VerdictInv(site, clock, j) && WorkerInv(site, j, c, w) && WorkEnabled(clock, j, c, w, m) && (m.Records? || m.RecordsFailure?)
    requires Judges(site, w, m)
    ensures VerdictInv(site, clock, WorkJob(clock, j, c, w, m))
  {
  }

  lemma PublishKeeps(site: Site, clock: int, j: Job, c: ClaimId, w: Worker, creates: bool)
    requires JobInv(site, clock, j) && WorkerInv(site, j, c, w) && WorkEnabled(clock, j, c, w, Publishes(creates))
    ensures JobInv(site, clock, WorkJob(clock, j, c, w, Publishes(creates)))
    ensures Onward(j, WorkJob(clock, j, c, w, Publishes(creates)))
  {
  }

  /** What a claim thread knows after its move. */
  ghost predicate Went(site: Site, clock: int, j: Job, c: ClaimId, w: Worker, m: WorkMove)
    requires WorkEnabled(clock, j, c, w, m)
  {
    var went := WorkNext(site, clock, j, c, w, m);
    went.Some? ==> went.value.id == w.id && WorkerInv(site, WorkJob(clock, j, c, w, m), c, went.value)
  }

  lemma WorkKeepsWorker(site: Site, clock: int, j: Job, c: ClaimId, w: Worker, m: WorkMove)
    requires JobInv(site, clock, j) && WorkerInv(site, j, c, w) && WorkEnabled(clock, j, c, w, m)
    ensures Went(site, clock, j, c, w, m)
  {
    match m {
      case Reads(n) => CopyKeepsWorker(site, clock, j, c, w, m);
      case Ends => CopyKeepsWorker(site, clock, j, c, w, m);
      case Records(status, o, at) => RecordKeepsWorker(site, clock, j, c, w, status, o, at);
      case RecordsFailure(o, at) => FailureKeepsWorker(site, clock, j, c, w, o, at);
      case _ =>
    }
  }

  lemma CopyKeepsWorker(site: Site, clock: int, j: Job, c: ClaimId, w: Worker, m: WorkMove)
    requires JobInv(site, clock, j) && WorkerInv(site, j, c, w) && WorkEnabled(clock, j, c, w, m)
    requires m.Reads? || m.Ends?
    ensures Went(site, clock, j, c, w, m)
  {
  }

  lemma RecordKeepsWorker(site: Site, clock: int, j: Job, c: ClaimId, w: Worker, status: Status, o: Outcome, at: int)
    requires JobInv(site, clock, j) && WorkerInv(site, j, c, w) && WorkEnabled(clock, j, c, w, Records(status, o, at))
    ensures Went(site, clock, j, c, w, Records(status, o, at))
  {
    if o.commits {
      CommittedVerdict(site, clock, j, c, w, status, o, at);
    }
  }

  lemma CommittedVerdict(site: Site, clock: int, j: Job, c: ClaimId, w: Worker, status: Status, o: Outcome, at: int)
    requires VerdictInv(site, clock, j) && WorkEnabled(clock, j, c, w, Records(status, o, at)) && o.commits
    ensures var k := WorkJob(clock, j, c, w, Records(status, o, at));
            && k.row == Some(j.row.value.(status := status, finishedAt := at)) && !Live(k.row.value)
            && k.verdict.Some? && k.verdict.value.claim == c && k.published == []
  {
  }

  lemma FailureKeepsWorker(site: Site, clock: int, j: Job, c: ClaimId, w: Worker, o: Outcome, at: int)
    requires JobInv(site, clock, j) && WorkerInv(site, j, c, w) && WorkEnabled(clock, j, c, w, RecordsFailure(o, at))
    ensures Went(site, clock, j, c, w, RecordsFailure(o, at))
  {
  }

  /** A claim thread's knowledge survives whatever others do to its job. */
  lemma KnowledgeStays(site: Site, a: Job, b: Job, c: ClaimId, w: Worker)
    requires WorkerInv(site, a, c, w) && Onward(a, b) && (w.at == Publishing ==> a.published == b.published)
    ensures WorkerInv(site, b, c, w)
  {
  }

  lemma ClaimKeeps(site: Site, clock: int, j: Job, c: ClaimId)
    requires JobInv(site, clock, j) && j.row.Some? && j.row.value.status == Queued
    ensures Kept(site, clock, j, j.(row := Some(j.row.value.(status := Running, claim := c))))
  {
  }

  lemma OrphanKeeps(site: Site, clock: int, j: Job, answers: bool, at: int)
    requires JobInv(site, clock, j) && j.row.Some? && j.row.value.status == Running
    ensures Kept(site, clock, j, Settled(j, Failed, at).(recovering := j.recovering || answers))
  {
  }

  lemma SweepKeeps(site: Site, s: State, id: Id, step: Step)
    requires Inv(site, s) && Enabled(site, s, step) && (step.Ages? || step.Looks? || step.Removes?) && step.id == id
    ensures Kept(site, s.clock, s.jobs[id], Next(site, s, step).jobs[id])
  {
  }

  lemma HandKeeps(site: Site, s: State, id: Id, step: Step)
    requires Inv(site, s) && Enabled(site, s, step) && (step.Consumes? || step.Tampers?) && step.id == id
    ensures Kept(site, s.clock, s.jobs[id], Next(site, s, step).jobs[id])
  {
  }

  /** One job moves on and no claim thread does. */
  lemma OneJobMoved(site: Site, s: State, id: Id, j: Job)
    requires Inv(site, s) && id in s.jobs && Kept(site, s.clock, s.jobs[id], j)
    ensures Inv(site, s.(jobs := s.jobs[id := j])) && AllOnward(s, s.(jobs := s.jobs[id := j]))
  {
    var t := s.(jobs := s.jobs[id := j]);
    forall c | c in t.workers
      ensures WorkerInv(site, t.jobs[t.workers[c].id], c, t.workers[c])
    {
      if t.workers[c].id == id {
        KnowledgeStays(site, s.jobs[id], j, c, s.workers[c]);
      }
    }
  }

  lemma TickKeeps(site: Site, clock: int, j: Job, d: nat)
    requires JobInv(site, clock, j)
    ensures JobInv(site, clock + d, j)
  {
  }

  lemma ClaimStepKeeps(site: Site, s: State, id: Id, answers: bool)
    requires Inv(site, s) && Enabled(site, s, Claims(id, answers))
    ensures Inv(site, Next(site, s, Claims(id, answers))) && AllOnward(s, Next(site, s, Claims(id, answers)))
  {
    ClaimKeeps(site, s.clock, s.jobs[id], s.nextClaim);
    var j := s.jobs[id].(row := Some(s.jobs[id].row.value.(status := Running, claim := s.nextClaim)));
    OneJobMoved(site, s, id, j);
  }

  lemma WorkStepKeeps(site: Site, s: State, c: ClaimId, m: WorkMove)
    requires Inv(site, s) && Enabled(site, s, Works(c, m))
    ensures Inv(site, Next(site, s, Works(c, m))) && AllOnward(s, Next(site, s, Works(c, m)))
  {
    var w := s.workers[c];
    var j := s.jobs[w.id];
    WorkKeeps(site, s.clock, j, c, w, m);
    WorkKeepsWorker(site, s.clock, j, c, w, m);
    OneWorkerMoved(site, s, c, WorkJob(s.clock, j, c, w, m), WorkNext(site, s.clock, j, c, w, m));
  }

  /** One claim thread and its job move on. */
  lemma OneWorkerMoved(site: Site, s: State, c: ClaimId, j: Job, went: Option<Worker>)
    requires Inv(site, s) && c in s.workers && JobInv(site, s.clock, j) && Onward(s.jobs[s.workers[c].id], j)
    requires j.published != s.jobs[s.workers[c].id].published ==> s.workers[c].at == Publishing
    requires went.Some? ==> went.value.id == s.workers[c].id && WorkerInv(site, j, c, went.value)
    ensures var t := s.(jobs := s.jobs[s.workers[c].id := j],
                        workers := if went.Some? then s.workers[c := went.value] else s.workers - {c});
            Inv(site, t) && AllOnward(s, t)
  {
    forall d | d in s.workers && d != c
      ensures WorkerInv(site, s.jobs[s.workers[c].id := j][s.workers[d].id], d, s.workers[d])
    {
      OtherWorkerKeeps(site, s, c, d, j);
    }
  }

  lemma OtherWorkerKeeps(site: Site, s: State, c: ClaimId, d: ClaimId, j: Job)
    requires Inv(site, s) && c in s.workers && d in s.workers && d != c
    requires Onward(s.jobs[s.workers[c].id], j)
    requires j.published != s.jobs[s.workers[c].id].published ==> s.workers[c].at == Publishing
    ensures WorkerInv(site, s.jobs[s.workers[c].id := j][s.workers[d].id], d, s.workers[d])
  {
    assert WorkerInv(site, s.jobs[s.workers[c].id], c, s.workers[c]);
  }

  lemma TickStepKeeps(site: Site, s: State, d: nat)
    requires Inv(site, s)
    ensures Inv(site, s.(clock := s.clock + d)) && AllOnward(s, s.(clock := s.clock + d))
  {
    forall id | id in s.jobs
      ensures JobInv(site, s.clock + d, s.jobs[id])
    {
      TickKeeps(site, s.clock, s.jobs[id], d);
    }
  }

  lemma BeginStepKeeps(site: Site, s: State, id: Id)
    requires Inv(site, s) && id !in s.jobs
    ensures Inv(site, Next(site, s, Begin(id))) && AllOnward(s, Next(site, s, Begin(id)))
  {
  }

  lemma StepKeepsInv(site: Site, s: State, step: Step)
    requires Inv(site, s) && Enabled(site, s, step)
    ensures Inv(site, Next(site, s, step)) && AllOnward(s, Next(site, s, step))
  {
    match step {
      case Tick(d) => TickStepKeeps(site, s, d);
      case Begin(id) => BeginStepKeeps(site, s, id);
      case Uploads(id, m) => UploadStepKeeps(site, s, id, m);
      case Claims(id, answers) => ClaimStepKeeps(site, s, id, answers);
      case Works(c, m) => WorkStepKeeps(site, s, c, m);
      case Orphans(id, answers, at) => OrphanStepKeeps(site, s, id, answers, at);
      case Consumes(id, _) => HandStepKeeps(site, s, id, step);
      case Tampers(id, _) => HandStepKeeps(site, s, id, step);
      case Ages(id, _) => SweepStepKeeps(site, s, id, step);
      case Looks(id, _) => SweepStepKeeps(site, s, id, step);
      case Removes(id, _, _) => SweepStepKeeps(site, s, id, step);
    }
  }

  lemma UploadStepKeeps(site: Site, s: State, id: Id, m: UploadMove)
    requires Inv(site, s) && Enabled(site, s, Uploads(id, m))
    ensures Inv(site, Next(site, s, Uploads(id, m))) && AllOnward(s, Next(site, s, Uploads(id, m)))
  {
    UploadKeeps(site, s.clock, s.jobs[id], m);
    OneJobMoved(site, s, id, UploadNext(site, s.clock, s.jobs[id], m));
  }

  lemma OrphanStepKeeps(site: Site, s: State, id: Id, answers: bool, at: int)
    requires Inv(site, s) && Enabled(site, s, Orphans(id, answers, at))
    ensures Inv(site, Next(site, s, Orphans(id, answers, at))) && AllOnward(s, Next(site, s, Orphans(id, answers, at)))
  {
    OrphanKeeps(site, s.clock, s.jobs[id], answers, at);
    OneJobMoved(site, s, id, Next(site, s, Orphans(id, answers, at)).jobs[id]);
  }

  lemma SweepStepKeeps(site: Site, s: State, id: Id, step: Step)
    requires Inv(site, s) && Enabled(site, s, step) && (step.Ages? || step.Looks? || step.Removes?) && step.id == id
    ensures Inv(site, Next(site, s, step)) && AllOnward(s, Next(site, s, step))
  {
    SweepKeeps(site, s, id, step);
    OneJobMoved(site, s, id, Next(site, s, step).jobs[id]);
  }

  lemma HandStepKeeps(site: Site, s: State, id: Id, step: Step)
    requires Inv(site, s) && Enabled(site, s, step) && (step.Consumes? || step.Tampers?) && step.id == id
    ensures Inv(site, Next(site, s, step)) && AllOnward(s, Next(site, s, step))
  {
    HandKeeps(site, s, id, step);
    OneJobMoved(site, s, id, Next(site, s, step).jobs[id]);
  }

  lemma {:induction false} RunKeepsInv(site: Site, states: seq<State>, steps: seq<Step>, i: nat)
    requires IsRun(site, states, steps) && i < |states|
    ensures Inv(site, states[i])
  {
    if i > 0 {
      RunKeepsInv(site, states, steps, i - 1);
      StepKeepsInv(site, states[i - 1], steps[i - 1]);
    }
  }
}
