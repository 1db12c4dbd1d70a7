/** The preflight's space sum against what a run really holds, step by step: source copy, overlay and
    candidate while it bakes, temporaries and backup while it promotes, one more copy if it rolls back. */
module Space {
  datatype Dir = BackupDir | DiskDir | RamDir

  /** What an entry point tells the preflight, and whether a golden is live. */
  datatype Entry = Entry(candidateBuilt: bool, sourceCopy: bool, golden: bool)

  function BackupTerms(e: Entry): nat {
    (if e.candidateBuilt then 0 else 1) + (if e.sourceCopy || e.golden then 1 else 0)
  }

  function Demand(e: Entry, dir: Dir, need: nat): nat {
    if dir == BackupDir then BackupTerms(e) * need else need
  }

  /** An amount per directory, summed over the directories on one filesystem. */
  function OnDevice(place: Dir -> nat, dev: nat, amount: Dir -> int): int {
    (if place(BackupDir) == dev then amount(BackupDir) else 0)
    + (if place(DiskDir) == dev then amount(DiskDir) else 0)
    + (if place(RamDir) == dev then amount(RamDir) else 0)
  }

  const DIRS: seq<Dir> := [BackupDir, DiskDir, RamDir]

  /** The first `n` demands on one filesystem. */
  function Partial(place: Dir -> nat, dev: nat, e: Entry, need: nat, n: nat): nat
    requires n <= 3
  {
    if n == 0 then 0
    else Partial(place, dev, e, need, n - 1) + if place(DIRS[n - 1]) == dev then Demand(e, DIRS[n - 1], need) else 0
  }

  lemma PartialIsWhole(place: Dir -> nat, dev: nat, e: Entry, need: nat)
    ensures Partial(place, dev, e, need, 3) == OnDevice(place, dev, dir => Demand(e, dir, need))
  {
    assert Partial(place, dev, e, need, 0) == 0;
    assert Partial(place, dev, e, need, 1) == if place(BackupDir) == dev then Demand(e, BackupDir, need) else 0;
    assert Partial(place, dev, e, need, 2)
           == Partial(place, dev, e, need, 1) + if place(DiskDir) == dev then Demand(e, DiskDir, need) else 0;
  }

  /** `per_fs`: every demand added to the filesystem its directory is on. */
  method SumDemands(place: Dir -> nat, e: Entry, need: nat) returns (perFs: map<nat, nat>)
    ensures forall dir :: place(dir) in perFs
    ensures forall dev :: dev in perFs ==> perFs[dev] == OnDevice(place, dev, dir => Demand(e, dir, need))
  {
    perFs := map[];
    for i := 0 to 3
      invariant forall j :: 0 <= j < i ==> place(DIRS[j]) in perFs
      invariant forall dev :: (dev in perFs ==> perFs[dev] == Partial(place, dev, e, need, i))
      invariant forall dev :: (dev !in perFs ==> Partial(place, dev, e, need, i) == 0)
    {
      var dev := place(DIRS[i]);
      var sofar := if dev in perFs then perFs[dev] else 0;
      perFs := perFs[dev := sofar + Demand(e, DIRS[i], need)];
    }
    forall dir: Dir
      ensures place(dir) in perFs
    {
      assert place(DIRS[0]) in perFs && place(DIRS[1]) in perFs && place(DIRS[2]) in perFs;
      assert dir == DIRS[0] || dir == DIRS[1] || dir == DIRS[2];
    }
    forall dev | dev in perFs
      ensures perFs[dev] == OnDevice(place, dev, dir => Demand(e, dir, need))
    {
      PartialIsWhole(place, dev, e, need);
    }
  }

  // ---- what a run holds

  datatype Phase = Baking | Gating | Staging | Renamed | Done

  /** Bytes by what they are; `disk` and `ram` are the live images. */
  datatype Use = Use(phase: Phase, source: nat, overlay: nat, candidate: nat, backup: nat, diskTmp: nat, ramTmp: nat,
                     rollback: nat, disk: nat, ram: nat)

  datatype Step =
    | CopySource(n: nat)
    | GrowOverlay(n: nat)
    | Flatten(n: nat)
    | EndBake(sourceGone: bool, overlayGone: bool)
    | EndGate(overlayGone: bool)
    | StageDisk(n: nat)
    | StageRam(n: nat)
    | BackUp(n: nat)
    | RenameDisk
    | RenameRam
    | CopyBack(n: nat)
    | RenameBack
    | Remove(candidate: nat, backup: nat, diskTmp: nat, ramTmp: nat, rollback: nat)

  /** The order the program takes them in; no image is larger than `need`. */
  predicate Enabled(e: Entry, need: nat, s: Use, step: Step) {
    match step
    case CopySource(n) => s.phase == Baking && e.sourceCopy && n <= need
    case GrowOverlay(n) => (s.phase == Baking || s.phase == Gating) && n <= need
    case Flatten(n) => s.phase == Baking && n <= need
    case EndBake(_, _) => s.phase == Baking
    case EndGate(_) => s.phase == Gating
    case StageDisk(n) => s.phase == Staging && n <= need
    case StageRam(n) => s.phase == Staging && n <= need
    case BackUp(n) => s.phase == Staging && e.golden && n <= s.disk
    case RenameDisk => s.phase == Staging
    case RenameRam => s.phase == Renamed
    case CopyBack(n) => s.phase == Renamed && n <= s.backup
    case RenameBack => s.phase == Renamed
    case Remove(c, b, d, r, k) => c <= s.candidate && b <= s.backup && d <= s.diskTmp && r <= s.ramTmp && k <= s.rollback
  }

  function Next(s: Use, step: Step): Use {
    match step
    case CopySource(n) => s.(source := n)
    case GrowOverlay(n) => s.(overlay := n)
    case Flatten(n) => s.(candidate := n)
    case EndBake(src, ovl) => s.(phase := Gating, source := if src then 0 else s.source, overlay := if ovl then 0 else s.overlay)
    case EndGate(ovl) => s.(phase := Staging, overlay := if ovl then 0 else s.overlay)
    case StageDisk(n) => s.(diskTmp := n)
    case StageRam(n) => s.(ramTmp := n)
    case BackUp(n) => s.(backup := n)
    case RenameDisk => s.(phase := Renamed, disk := s.diskTmp, diskTmp := 0)
    case RenameRam => s.(phase := Done, ram := s.ramTmp, ramTmp := 0)
    case CopyBack(n) => s.(rollback := n)
    case RenameBack => s.(phase := Done, disk := s.rollback, rollback := 0)
    case Remove(c, b, d, r, k) => s.(candidate := c, backup := b, diskTmp := d, ramTmp := r, rollback := k)
  }

  /** A retry begins where its candidate is built and its bytes are already spent. */
  function Begin(e: Entry, disk: nat, ram: nat): Use {
    Use(if e.candidateBuilt then Staging else Baking, 0, 0, 0, 0, 0, 0, 0, disk, ram)
  }

  /** Bytes in a directory over what was there at the preflight. */
  function Extra(s: Use, first: Use, dir: Dir): int {
    match dir
    case BackupDir => s.source + s.candidate + s.backup
    case DiskDir => s.diskTmp + s.rollback + s.disk - first.disk
    case RamDir => s.overlay + s.ramTmp + s.ram - first.ram
  }

  ghost predicate IsRun(e: Entry, need: nat, states: seq<Use>, steps: seq<Step>) {
    && |states| == |steps| + 1
    && states[0] == Begin(e, states[0].disk, states[0].ram)
    && states[0].disk <= need && states[0].ram <= need
    && (!e.golden ==> states[0].disk == 0)
    && forall i :: 0 <= i < |steps| ==> Enabled(e, need, states[i], steps[i]) && states[i + 1] == Next(states[i], steps[i])
  }

  /** Which of a run's two clean-up removals can be refused: the source copy's and the overlay's. */
  datatype Refusals = Refusals(source: bool, overlay: bool)

  /** The copies that cannot be refused went when their phase ended. */
  predicate Cleans(steps: seq<Step>, r: Refusals) {
    forall i :: 0 <= i < |steps| ==> CleansUp(steps[i], r)
  }

  predicate CleansUp(step: Step, r: Refusals) {
    match step
    case EndBake(sourceGone, overlayGone) => (sourceGone || r.source) && (overlayGone || r.overlay)
    case EndGate(overlayGone) => overlayGone || r.overlay
    case _ => true
  }

  /** What a run keeps; a copy whose removal can be refused may stay, within its size. */
  predicate Inv(e: Entry, r: Refusals, need: nat, first: Use, s: Use) {
    && first.disk <= need && (!e.golden ==> first.disk == 0)
    && (e.candidateBuilt ==> s.phase == Staging || s.phase == Renamed || s.phase == Done)
    && s.source <= (if e.sourceCopy && !e.candidateBuilt then need else 0)
    && s.overlay <= (if e.candidateBuilt then 0 else need) && s.candidate <= (if e.candidateBuilt then 0 else need)
    && s.backup <= first.disk && s.diskTmp <= need && s.ramTmp <= need && s.rollback <= first.disk
    && (s.phase != Baking && !r.source ==> s.source == 0)
    && (s.phase != Baking && s.phase != Gating && !r.overlay ==> s.overlay == 0)
    && (s.phase == Baking || s.phase == Gating ==> s.backup == 0 && s.diskTmp == 0 && s.ramTmp == 0)
    && (s.phase == Baking || s.phase == Gating || s.phase == Staging ==> s.disk == first.disk && s.ram == first.ram && s.rollback == 0)
    && (s.phase == Renamed || s.phase == Done ==> s.diskTmp == 0 && s.disk <= need)
    && (s.phase == Renamed ==> s.ram == first.ram)
    && (s.ram == first.ram || (s.ramTmp == 0 && s.ram <= need))
  }

  lemma StepKeepsInv(e: Entry, r: Refusals, need: nat, first: Use, s: Use, step: Step)
    requires Inv(e, r, need, first, s) && Enabled(e, need, s, step) && CleansUp(step, r)
    ensures Inv(e, r, need, first, Next(s, step))
  {
  }

  lemma {:induction false} RunKeepsInv(e: Entry, r: Refusals, need: nat, states: seq<Use>, steps: seq<Step>, i: nat)
    requires IsRun(e, need, states, steps) && Cleans(steps, r) && i <= |steps|
    ensures Inv(e, r, need, states[0], states[i])
  {
    if i > 0 {
      RunKeepsInv(e, r, need, states, steps, i - 1);
      StepKeepsInv(e, r, need, states[0], states[i - 1], steps[i - 1]);
    }
  }

  /** A refused removal of the source copy does no harm where none of the three terms of the backup directory is
      missing from the sum; one of the overlay does none where nothing is baked. */
  predicate Harmless(e: Entry, r: Refusals) {
    && (r.source ==> !(e.sourceCopy && e.golden && !e.candidateBuilt))
    && (r.overlay ==> e.candidateBuilt)
  }

  lemma DirectoryWithinDemand(e: Entry, r: Refusals, need: nat, first: Use, s: Use, dir: Dir)
    requires Inv(e, r, need, first, s) && Harmless(e, r)
    ensures Extra(s, first, dir) <= Demand(e, dir, need)
  {
    assert BackupTerms(e) * need == (if e.candidateBuilt then 0 else need) + (if e.sourceCopy || e.golden then need else 0) by {
      assert 2 * need == need + need;
    }
  }

  /** A filesystem holds more extra bytes than the preflight summed for it. */
  ghost predicate Exceeds(place: Dir -> nat, e: Entry, need: nat, states: seq<Use>, i: nat, dev: nat)
    requires i < |states|
  {
    OnDevice(place, dev, dir => Extra(states[i], states[0], dir)) > OnDevice(place, dev, dir => Demand(e, dir, need))
  }

  /** At every step of build, gate, promotion and rollback, for every placement of the directories, a filesystem holds no
      more extra bytes than the preflight summed for it, whatever removals are refused harmlessly. */
  lemma SumIsAnUpperBound(place: Dir -> nat, e: Entry, r: Refusals, need: nat, states: seq<Use>, steps: seq<Step>, i: nat, dev: nat)
    requires IsRun(e, need, states, steps) && Cleans(steps, r) && i <= |steps| && Harmless(e, r)
    ensures !Exceeds(place, e, need, states, i, dev)
  {
    RunKeepsInv(e, r, need, states, steps, i);
    DirectoryWithinDemand(e, r, need, states[0], states[i], BackupDir);
    DirectoryWithinDemand(e, r, need, states[0], states[i], DiskDir);
    DirectoryWithinDemand(e, r, need, states[0], states[i], RamDir);
  }

  /** Some run whose refused removals are among `r` exceeds the sum at its end. */
  ghost predicate SomeRunExceeds(e: Entry, r: Refusals, need: nat) {
    exists place, states, steps, dev :: Overruns(place, e, r, need, states, steps, dev)
  }

  ghost predicate Overruns(place: Dir -> nat, e: Entry, r: Refusals, need: nat, states: seq<Use>, steps: seq<Step>, dev: nat) {
    IsRun(e, need, states, steps) && Cleans(steps, r) && Exceeds(place, e, need, states, |steps|, dev)
  }

  /** Each directory on a filesystem of its own. */
  function Apart(dir: Dir): nat {
    match dir
    case BackupDir => 0
    case DiskDir => 1
    case RamDir => 2
  }

  /** The exact condition: the sum holds for every run and every placement if and only if only harmless removals can be
      refused. */
  lemma SumIsExact(e: Entry, r: Refusals, need: nat)
    requires need > 0
    ensures !SomeRunExceeds(e, r, need) <==> Harmless(e, r)
  {
    if r.source && e.sourceCopy && e.golden && !e.candidateBuilt {
      StuckSourceCopyExceeds(e, r, need);
    } else if r.overlay && !e.candidateBuilt {
      StuckOverlayExceeds(e, r, need);
    } else {
      forall place, states, steps, dev
        ensures !Overruns(place, e, r, need, states, steps, dev)
      {
        if IsRun(e, need, states, steps) && Cleans(steps, r) {
          SumIsAnUpperBound(place, e, r, need, states, steps, |steps|, dev);
        }
      }
    }
  }

  /** A source copy whose removal was refused is still there beside the candidate and the backup: one image more than
      was summed for the backup directory. */
  lemma StuckSourceCopyExceeds(e: Entry, r: Refusals, need: nat)
    requires need > 0 && r.source && e.sourceCopy && e.golden && !e.candidateBuilt
    ensures SomeRunExceeds(e, r, need)
  {
    var s0 := Begin(e, need, need);
    var s1 := s0.(source := need);
    var s2 := s1.(candidate := need);
    var s3 := s2.(phase := Gating);
    var s4 := s3.(phase := Staging);
    var s5 := s4.(backup := need);
    var states := [s0, s1, s2, s3, s4, s5];
    var steps := [CopySource(need), Flatten(need), EndBake(false, true), EndGate(true), BackUp(need)];
    forall i | 0 <= i < |steps|
      ensures Enabled(e, need, states[i], steps[i]) && states[i + 1] == Next(states[i], steps[i]) && CleansUp(steps[i], r)
    {
    }
    assert Extra(states[5], states[0], BackupDir) == 3 * need && Demand(e, BackupDir, need) == 2 * need;
    assert Overruns(Apart, e, r, need, states, steps, 0);
  }

  /** An overlay whose removal was refused is still there beside the RAM base's temporary. */
  lemma StuckOverlayExceeds(e: Entry, r: Refusals, need: nat)
    requires need > 0 && r.overlay && !e.candidateBuilt
    ensures SomeRunExceeds(e, r, need)
  {
    var s0 := Begin(e, if e.golden then need else 0, 0);
    var s1 := s0.(overlay := need);
    var s2 := s1.(phase := Gating);
    var s3 := s2.(phase := Staging);
    var s4 := s3.(ramTmp := need);
    var states := [s0, s1, s2, s3, s4];
    var steps := [GrowOverlay(need), EndBake(true, false), EndGate(false), StageRam(need)];
    forall i | 0 <= i < |steps|
      ensures Enabled(e, need, states[i], steps[i]) && states[i + 1] == Next(states[i], steps[i]) && CleansUp(steps[i], r)
    {
    }
    assert Extra(states[4], states[0], RamDir) == 2 * need && Demand(e, RamDir, need) == need;
    assert Overruns(Apart, e, r, need, states, steps, 2);
  }
}
