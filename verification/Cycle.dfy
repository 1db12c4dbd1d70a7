/** The timer's cycle: preflight, the choice of a source, the build, the gate and the rotation. */
module Cycle {
  import opened Options
  import opened Decimal
  import opened Host
  import opened Promotion
  import opened Chain
  import opened Retention
  import opened Rotation
  import Preflight

  datatype Source = Master | Golden

  /** What one cycle did: whether the candidate's depth was written beside it, how the rotation ended and what was
      recorded. */
  datatype Report = Report(source: Option<Source>, wrote: bool, outcome: Option<Outcome>, rec: Option<Recording>) {
    predicate Promotes() {
      outcome.Some? && Promoted(outcome.value)
    }
    predicate StoreTookDepth() {
      Took(rec)
    }
  }

  /** The promoted golden, unless the master is forced or due, and never a path that is not there. */
  function RebakeSource(fs: Fs, cfg: Config, forced: bool, master: bool): Option<Source> {
    if (forced || ChainLength(fs, cfg) >= cfg.maxChain) && master then Some(Master)
    else if At(fs, DISK).Some? then Some(Golden)
    else if master then Some(Master)
    else None
  }

  /** The depth an image made from `src` has. */
  function DepthFrom(src: Source, chain: int): int {
    if src == Master then 0 else chain + 1
  }

  /** The depth a cycle's candidate counts as: its source's, or unknown when that could not be written beside it. */
  function CandidateCounts(rep: Report, chain: int, cfg: Config): int {
    if rep.wrote && rep.source.Some? then DepthFrom(rep.source.value, chain) else cfg.maxChain
  }

  /** The bytes at a base are the earlier ones, or ones for which the gate returned true. */
  ghost predicate GatedOrKept(before: Fs, after: Fs, base: Path, cfg: Config) {
    Contents(after, base) == Contents(before, base) || Gated(after, base, cfg)
  }

  /** Every backup is one that was there, or a whole copy of the golden that was live. */
  ghost predicate BackupsFrom(before: Fs, x: Fs) {
    forall s :: At(x, Backup(s)).Some? ==>
      At(x, Backup(s)) == At(before, Backup(s)) || (IsFile(before, DISK) && Contents(x, Backup(s)) == Contents(before, DISK))
  }

  ghost predicate Gated(fs: Fs, base: Path, cfg: Config) {
    Contents(fs, base).Some? && cfg.Gate(Contents(fs, base).value)
  }

  /** A candidate that is gone takes its sidecar with it, unless the golden has no record: then the sidecar is the only
      depth there is, and it is kept under the marker's name. */
  predicate SidecarIsTheDepth(fs: Fs, candidate: Path) {
    At(fs, candidate) == None && At(fs, Record) == None && At(fs, Sidecar(candidate)).Some?
  }

  method RmCandidate(h: Host, cfg: Config, candidate: Path) returns (marked: bool)
    requires h.Valid() && cfg.Valid() && candidate.Image?
    modifies h
    ensures h.Valid() && h.clock >= old(h.clock) && h.failures >= old(h.failures) && h.refusals >= old(h.refusals) && h.asked == old(h.asked)
    ensures h.failures == old(h.failures) ==> At(h.fs, candidate) == None && At(h.fs, Sidecar(candidate)) == None
    ensures forall p :: p != candidate && p != Sidecar(candidate) && p != Marker(candidate) ==> At(h.fs, p) == At(old(h.fs), p)
    ensures Steady(old(h.fs), h.fs) && SteadySince(h.visited, old(h.visited), old(h.fs))
    ensures !SidecarIsTheDepth(old(h.fs), candidate) ==>
              && Still(old(h.fs), h.fs) && StillSince(h.visited, old(h.visited), old(h.fs))
              && At(h.fs, Marker(candidate)) == At(old(h.fs), Marker(candidate))
    ensures marked ==>
              && SidecarIsTheDepth(old(h.fs), candidate)
              && Contents(h.fs, Marker(candidate)) == Contents(old(h.fs), Sidecar(candidate))
              && ChainLength(h.fs, cfg) == SidecarReads(old(h.fs), candidate, cfg)
    ensures h.reliable ==> marked == SidecarIsTheDepth(old(h.fs), candidate)
  {
    marked := false;
    if At(h.fs, candidate) == None && At(h.fs, Record) == None {
      var kept, dated := KeepAsUnrecorded(h, candidate);
      marked := dated;
      if dated {
        NewestMarkerRules(h.fs, cfg, Marker(candidate));
      }
    }
    ghost var moved, seen := h.fs, h.visited;
    RmImage(h, candidate);
    SteadyMove(h.visited, seen, old(h.visited), old(h.fs), moved, h.fs, candidate);
    if marked {
      SameDepthReads(moved, h.fs, cfg);
    }
    if !SidecarIsTheDepth(old(h.fs), candidate) {
      StillTwice(h.visited, seen, old(h.visited), old(h.fs), moved, h.fs);
    }
  }

  /** A sidecar renamed to the marker and removals beside it leave bases and backups. */
  lemma SteadyMove(visited: set<Fs>, until: set<Fs>, earlier: set<Fs>, a: Fs, b: Fs, c: Fs, candidate: Path)
    requires candidate.Image? && (b == a || MovedOrNot(a, b, candidate))
    requires SteadySince(until, earlier, a) && StillSince(visited, until, b) && Still(b, c)
    ensures Steady(a, c) && SteadySince(visited, earlier, a)
  {
    assert Steady(a, b);
  }

  method RmImage(h: Host, candidate: Path)
    requires h.Valid() && candidate.Image?
    modifies h
    ensures h.Valid() && h.clock >= old(h.clock) && h.failures >= old(h.failures) && h.refusals == old(h.refusals) && h.asked == old(h.asked)
    ensures h.failures == old(h.failures) ==> At(h.fs, candidate) == None && At(h.fs, Sidecar(candidate)) == None
    ensures forall p :: p != candidate && p != Sidecar(candidate) ==> At(h.fs, p) == At(old(h.fs), p)
    ensures Still(old(h.fs), h.fs) && StillSince(h.visited, old(h.visited), old(h.fs))
  {
    var ok := h.Rm(candidate);
    ok := h.Rm(SidecarOf(candidate));
  }

  /** A private copy of the live golden, or nothing under its name that is not marked for removal. */
  method SnapshotSource(h: Host, cfg: Config, live: set<Proc>, copy: Path) returns (ok: bool)
    requires h.Valid() && cfg.Valid() && copy.Image?
    modifies h
    ensures h.Valid() && h.clock >= old(h.clock) && h.failures >= old(h.failures) && h.refusals >= old(h.refusals) && h.asked == old(h.asked)
    ensures Quiet(old(h.fs), h.fs, cfg) && QuietSince(h.visited, old(h.visited), old(h.fs), cfg)
    ensures forall p: Path :: !p.Image? ==> At(h.fs, p) == At(old(h.fs), p)
    ensures forall p :: p != copy && At(old(h.fs), p) == None ==> At(h.fs, p) == None
    ensures ok ==> Contents(h.fs, copy) == Contents(old(h.fs), DISK) && IsFile(h.fs, copy)
    ensures !ok && h.failures == old(h.failures) ==> At(h.fs, copy) == None
    ensures h.reliable && IsFile(old(h.fs), DISK) ==> ok
  {
    ghost var earlier, before := h.visited, h.fs;
    Preflight.SweepStranded(h, cfg, live);
    ghost var seen, swept := h.visited, h.fs;
    var rc := h.Cp(DISK, copy);
    ok := rc == 0 && IsFile(h.fs, copy) && Size(h.fs, copy) == Size(h.fs, DISK);
    if ok {
      assert h.fs[copy].data == h.fs[DISK].data;
    } else {
      var removed := h.Rm(copy);
    }
    OneStill(swept, h.fs, cfg);
    StillIsQuiet(h.visited, seen, swept, cfg);
    QuietFurther(h.visited, seen, earlier, before, swept, cfg);
  }

  /** The depth beside the candidate, or nothing there. */
  method WriteSidecar(h: Host, cfg: Config, candidate: Path, depth: int) returns (wrote: bool)
    requires h.Valid() && candidate.Image? && At(h.fs, Sidecar(candidate)) == None
    modifies h
    ensures h.Valid() && h.clock >= old(h.clock) && h.failures >= old(h.failures) && h.refusals >= old(h.refusals) && h.asked == old(h.asked)
    ensures Still(old(h.fs), h.fs) && StillSince(h.visited, old(h.visited), old(h.fs))
    ensures forall p :: p != Sidecar(candidate) && p != Scratch(Sidecar(candidate)) ==> At(h.fs, p) == At(old(h.fs), p)
    ensures Labelled(h.fs, candidate, cfg, if wrote then depth else cfg.maxChain)
    ensures h.reliable ==> wrote
  {
    ShowReads(depth);
    wrote := h.WriteSmall(Sidecar(candidate), Show(depth));
  }

  /** A candidate that counts as `depth`, whichever way it is read. */
  predicate Labelled(fs: Fs, candidate: Path, cfg: Config, depth: int) {
    CandidateDepth(fs, candidate, cfg) == depth && SidecarReads(fs, candidate, cfg) == depth
  }

  /** A candidate of some bytes with its depth beside it, or nothing promoted from. */
  method Build(h: Host, cfg: Config, live: set<Proc>, src: Source, candidate: Path, copy: Path) returns (built: bool, wrote: bool)
    requires h.Valid() && cfg.Valid()
    requires candidate.Image? && copy.Image? && copy != candidate
    requires At(h.fs, candidate) == None && At(h.fs, Sidecar(candidate)) == None
    modifies h
    ensures h.Valid() && h.clock >= old(h.clock) && h.failures >= old(h.failures) && h.refusals >= old(h.refusals) && h.asked == old(h.asked)
    ensures Quiet(old(h.fs), h.fs, cfg) && QuietSince(h.visited, old(h.visited), old(h.fs), cfg)
    ensures forall p :: p !in {candidate, Sidecar(candidate), copy} && !p.Scratch? && At(old(h.fs), p) == None ==> At(h.fs, p) == None
    ensures built ==> IsFile(h.fs, candidate)
    ensures h.failures == old(h.failures) && src == Golden ==> At(h.fs, copy) == None
    ensures h.failures == old(h.failures) && !built ==> At(h.fs, candidate) == None
    ensures built ==> Labelled(h.fs, candidate, cfg, if wrote then DepthFrom(src, ChainLength(old(h.fs), cfg)) else cfg.maxChain)
    ensures h.reliable && (src == Golden ==> IsFile(old(h.fs), DISK)) ==> built && wrote
  {
    ghost var earlier, before := h.visited, h.fs;
    var depth := DepthFrom(src, ChainLength(h.fs, cfg));
    built, wrote := false, false;
    if src == Golden {
      var copied := SnapshotSource(h, cfg, live, copy);
      if !copied {
        return;
      }
    }
    ghost var seen, copied := h.visited, h.fs;
    built, wrote := Flatten(h, cfg, src, candidate, copy, depth);
    QuietFurther(h.visited, seen, earlier, before, copied, cfg);
  }

  /** The flattened image and its sidecar, with the source copy gone. */
  method Flatten(h: Host, cfg: Config, src: Source, candidate: Path, copy: Path, depth: int) returns (built: bool, wrote: bool)
    requires h.Valid() && cfg.Valid()
    requires candidate.Image? && copy.Image? && copy != candidate
    requires At(h.fs, candidate) == None && At(h.fs, Sidecar(candidate)) == None
    modifies h
    ensures h.Valid() && h.clock >= old(h.clock) && h.failures >= old(h.failures) && h.refusals >= old(h.refusals) && h.asked == old(h.asked)
    ensures Quiet(old(h.fs), h.fs, cfg) && QuietSince(h.visited, old(h.visited), old(h.fs), cfg)
    ensures forall p :: p !in {candidate, Sidecar(candidate), copy} && !p.Scratch? ==> At(h.fs, p) == At(old(h.fs), p)
    ensures src == Master ==> At(h.fs, copy) == At(old(h.fs), copy)
    ensures built ==> IsFile(h.fs, candidate)
    ensures h.failures == old(h.failures) && src == Golden ==> At(h.fs, copy) == None
    ensures h.failures == old(h.failures) && !built ==> At(h.fs, candidate) == None
    ensures built ==> Labelled(h.fs, candidate, cfg, if wrote then depth else cfg.maxChain)
    ensures h.reliable ==> built && wrote
  {
    ghost var earlier, before := h.visited, h.fs;
    built, wrote := Convert(h, cfg, candidate, depth);
    ghost var seen, converted := h.visited, h.fs;
    DropInputs(h, cfg, src, candidate, copy, built);
    StillTwice(h.visited, seen, earlier, before, converted, h.fs);
    OneStill(before, h.fs, cfg);
    StillIsQuiet(h.visited, earlier, before, cfg);
  }

  /** The source copy removed once the flattening is over, and what is left of a candidate that was not built. */
  method DropInputs(h: Host, cfg: Config, src: Source, candidate: Path, copy: Path, built: bool)
    requires h.Valid() && cfg.Valid()
    requires candidate.Image? && copy.Image? && copy != candidate && (!built ==> At(h.fs, Sidecar(candidate)) == None)
    modifies h
    ensures h.Valid() && h.clock >= old(h.clock) && h.failures >= old(h.failures) && h.refusals >= old(h.refusals) && h.asked == old(h.asked)
    ensures Still(old(h.fs), h.fs) && StillSince(h.visited, old(h.visited), old(h.fs))
    ensures forall p :: p !in {candidate, Sidecar(candidate), copy} ==> At(h.fs, p) == At(old(h.fs), p)
    ensures built ==> At(h.fs, candidate) == At(old(h.fs), candidate) && At(h.fs, Sidecar(candidate)) == At(old(h.fs), Sidecar(candidate))
    ensures src == Master ==> At(h.fs, copy) == At(old(h.fs), copy)
    ensures h.failures == old(h.failures) && src == Golden ==> At(h.fs, copy) == None
    ensures h.failures == old(h.failures) && !built ==> At(h.fs, candidate) == None
  {
    if src == Golden {
      var removed := h.Rm(copy);
    }
    ghost var seen, dropped := h.visited, h.fs;
    if !built {
      var marked := RmCandidate(h, cfg, candidate);
    }
    StillTwice(h.visited, seen, old(h.visited), old(h.fs), dropped, h.fs);
  }

  lemma StillTwice(visited: set<Fs>, until: set<Fs>, earlier: set<Fs>, a: Fs, b: Fs, c: Fs)
    requires StillSince(until, earlier, a) && StillSince(visited, until, b) && Still(a, b) && Still(b, c)
    ensures StillSince(visited, earlier, a) && Still(a, c)
  {
  }

  /** The image, and the depth beside it when there is one. */
  method Convert(h: Host, cfg: Config, candidate: Path, depth: int) returns (built: bool, wrote: bool)
    requires h.Valid() && candidate.Image? && At(h.fs, Sidecar(candidate)) == None
    modifies h
    ensures h.Valid() && h.clock >= old(h.clock) && h.failures >= old(h.failures) && h.refusals >= old(h.refusals) && h.asked == old(h.asked)
    ensures Still(old(h.fs), h.fs) && StillSince(h.visited, old(h.visited), old(h.fs))
    ensures forall p :: p !in {candidate, Sidecar(candidate)} && !p.Scratch? ==> At(h.fs, p) == At(old(h.fs), p)
    ensures built ==> IsFile(h.fs, candidate) && Labelled(h.fs, candidate, cfg, if wrote then depth else cfg.maxChain)
    ensures !built ==> At(h.fs, Sidecar(candidate)) == None
    ensures h.reliable ==> built && wrote
  {
    var rc := h.Convert(candidate);
    ghost var seen, converted := h.visited, h.fs;
    built, wrote := rc == 0, false;
    if built {
      wrote := WriteSidecar(h, cfg, candidate, depth);
    }
    StillTwice(h.visited, seen, old(h.visited), old(h.fs), converted, h.fs);
  }

  // ---- the states a cycle goes through

  /** A state between the start of a rotation and the end of its cycle: each base is kept or holds bytes the gate
      accepted, and the depth is the earlier one until a store took the candidate's (`took`), and the candidate's from
      then on.  Only where no store takes it at all may it show before the end. */
  ghost predicate InState(before: Fs, x: Fs, cfg: Config, depth: int, promotes: bool, stored: bool, took: bool) {
    && GatedOrKept(before, x, DISK, cfg) && GatedOrKept(before, x, RAM, cfg) && BackupsFrom(before, x)
    && if took then promotes && stored && Gated(x, DISK, cfg) && ChainLength(x, cfg) == depth
       else ChainLength(x, cfg) == ChainLength(before, cfg)
            || (promotes && !stored && Gated(x, DISK, cfg) && ChainLength(x, cfg) == depth)
  }

  ghost predicate InStates(visited: set<Fs>, earlier: set<Fs>, late: set<Fs>, before: Fs, cfg: Config, depth: int, promotes: bool, stored: bool) {
    forall x :: x in visited && x !in earlier ==> InState(before, x, cfg, depth, promotes, stored, x in late)
  }

  /** One state of the rotation of a candidate that counts as `depth`. */
  lemma OneOnTheWay(before: Fs, x: Fs, candidate: Path, image: Bytes, cfg: Config, rec: Option<Recording>, depth: int, took: bool)
    requires OnTheWay(before, x, candidate, image, cfg, rec, took) && CrashSafe(before, image, x) && cfg.Gate(image)
    requires SidecarReads(before, candidate, cfg) == depth && (rec.Some? ==> rec.value.depth == depth)
    ensures InState(before, x, cfg, depth, rec.Some?, Took(rec), took)
  {
  }

  lemma RotationInStates(visited: set<Fs>, earlier: set<Fs>, late: set<Fs>, before: Fs, candidate: Path, image: Bytes, cfg: Config,
                         rec: Option<Recording>, depth: int)
    requires OnTheWaySince(visited, earlier, late, before, candidate, image, cfg, rec)
    requires CrashSafeSince(visited, earlier, before, image) && cfg.Gate(image)
    requires SidecarReads(before, candidate, cfg) == depth && (rec.Some? ==> rec.value.depth == depth)
    ensures InStates(visited, earlier, late, before, cfg, depth, rec.Some?, Took(rec))
  {
    forall x | x in visited && x !in earlier
      ensures InState(before, x, cfg, depth, rec.Some?, Took(rec), x in late)
    {
      OneOnTheWay(before, x, candidate, image, cfg, rec, depth, x in late);
    }
  }

  /** Quiet steps after a state are states like it, and late if the depth was taken. */
  lemma QuietAfter(visited: set<Fs>, until: set<Fs>, earlier: set<Fs>, late: set<Fs>, before: Fs, mid: Fs, after: Fs, cfg: Config,
                   depth: int, promotes: bool, stored: bool)
    requires InStates(until, earlier, late, before, cfg, depth, promotes, stored) && InState(before, mid, cfg, depth, promotes, stored, stored)
    requires QuietSince(visited, until, mid, cfg) && Quiet(mid, after, cfg)
    ensures InStates(visited, earlier, if stored then late * until + (visited - until) else late * until, before, cfg, depth, promotes, stored)
    ensures InState(before, after, cfg, depth, promotes, stored, stored)
  {
    forall x | x in visited && x !in earlier
      ensures InState(before, x, cfg, depth, promotes, stored, x in if stored then late * until + (visited - until) else late * until)
    {
      if x in until {
        assert InState(before, x, cfg, depth, promotes, stored, x in late);
      } else {
        assert Quiet(mid, x, cfg);
      }
    }
  }

  /** Quiet steps before a rotation: all its states may be seen from before them. */
  lemma QuietBefore(visited: set<Fs>, until: set<Fs>, earlier: set<Fs>, late: set<Fs>, before: Fs, mid: Fs, after: Fs, cfg: Config,
                    depth: int, promotes: bool, stored: bool)
    requires QuietSince(until, earlier, before, cfg) && Quiet(before, mid, cfg)
    requires InStates(visited, until, late, mid, cfg, depth, promotes, stored) && InState(mid, after, cfg, depth, promotes, stored, stored)
    ensures InStates(visited, earlier, late - until, before, cfg, depth, promotes, stored)
    ensures InState(before, after, cfg, depth, promotes, stored, stored)
  {
    forall x | x in visited && x !in earlier
      ensures InState(before, x, cfg, depth, promotes, stored, x in late - until)
    {
      if x !in until {
        assert InState(mid, x, cfg, depth, promotes, stored, x in late);
      }
    }
  }

  // ---- gate and rotation

  /** An image of another cycle, or its depth. */
  predicate Unrelated(p: Path, candidate: Path) {
    (p.Image? || p.Sidecar? || p.Marker?) && p !in {candidate, Sidecar(candidate), Marker(candidate)}
  }

  /** What the end of a rotation means for its cycle. */
  lemma RotationEnds(before: Fs, mid: Fs, after: Fs, candidate: Path, image: Bytes, cfg: Config, live: set<Proc>, stamp: nat, r: Outcome,
                     rec: Option<Recording>, depth: int, locked: bool, since: nat, now: nat, clean: bool)
    requires candidate.Image? && Contents(before, candidate) == Some(image) && cfg.Gate(image) && Labelled(before, candidate, cfg, depth)
    requires locked ==> Rotated(before, mid, after, cfg, live, candidate, stamp, r, rec, since, now, clean)
    requires !locked ==> r == NothingPublished && rec == None && after == before
    requires OnTheWay(before, after, candidate, image, cfg, rec, Took(rec)) && CrashSafe(before, image, after)
    ensures At(after, candidate) == At(before, candidate)
    ensures InState(before, after, cfg, depth, Promoted(r), Took(rec), Took(rec)) && (rec.Some? <==> Promoted(r))
    ensures rec.Some? ==> rec.value.depth == depth
    ensures r == Published ==> Contents(after, DISK) == Contents(after, RAM) == Some(image)
    ensures !Promoted(r) ==> ChainLength(after, cfg) == ChainLength(before, cfg)
    ensures forall p :: Unrelated(p, candidate) && At(before, p) == None ==> At(after, p) == None
  {
    if locked {
      CandidateStays(before, mid, after, candidate, cfg, live, stamp, r, rec, since, now, clean);
      forall p | Unrelated(p, candidate) && At(before, p) == None
        ensures At(after, p) == None
      {
        assert At(mid, p) == At(before, p);
      }
    }
  }

  lemma CandidateStays(before: Fs, mid: Fs, after: Fs, candidate: Path, cfg: Config, live: set<Proc>, stamp: nat, r: Outcome,
                       rec: Option<Recording>, since: nat, now: nat, clean: bool)
    requires candidate.Image? && Rotated(before, mid, after, cfg, live, candidate, stamp, r, rec, since, now, clean)
    ensures At(after, candidate) == At(before, candidate)
  {
    assert At(mid, candidate) == At(before, candidate);
    assert candidate in KeptBy(mid, live, Some(candidate), if r.Split? then r.backup else None);
  }

  /** What the gate or a rotation is done with is removed. */
  method Discard(h: Host, cfg: Config, candidate: Path)
    requires h.Valid() && cfg.Valid() && candidate.Image? && IsFile(h.fs, candidate)
    modifies h
    ensures h.Valid() && h.clock >= old(h.clock) && h.failures >= old(h.failures) && h.refusals >= old(h.refusals) && h.asked == old(h.asked)
    ensures Quiet(old(h.fs), h.fs, cfg) && QuietSince(h.visited, old(h.visited), old(h.fs), cfg)
    ensures h.failures == old(h.failures) ==> At(h.fs, candidate) == None
    ensures At(h.fs, DISK) == At(old(h.fs), DISK) && At(h.fs, RAM) == At(old(h.fs), RAM)
    ensures forall p :: Unrelated(p, candidate) ==> At(h.fs, p) == At(old(h.fs), p)
  {
    var marked := RmCandidate(h, cfg, candidate);
    OneStill(old(h.fs), h.fs, cfg);
    StillIsQuiet(h.visited, old(h.visited), old(h.fs), cfg);
  }

  /** The rotation of an accepted candidate, which is kept for a retry when nothing was published and removed otherwise. */
  method RotateBuilt(h: Host, cfg: Config, live: set<Proc>, candidate: Path, stamp: nat, ghost depth: int)
    returns (r: Outcome, rec: Option<Recording>, ghost late: set<Fs>)
    requires h.Valid() && cfg.Valid() && candidate.Image? && IsFile(h.fs, candidate) && Apart(h.fs, candidate)
    requires cfg.Gate(h.fs[candidate].data) && Labelled(h.fs, candidate, cfg, depth)
    modifies h
    ensures h.Valid() && h.clock >= old(h.clock) && h.failures >= old(h.failures) && h.refusals >= old(h.refusals) && old(h.asked) <= h.asked
    ensures r == Published ==> Contents(h.fs, DISK) == Contents(h.fs, RAM) == Contents(old(h.fs), candidate)
    ensures r == Broken <==> LastAnswer(old(h.asked), h.asked, None)
    ensures r == NothingPublished ==> Labelled(h.fs, candidate, cfg, depth)
    ensures if r == NothingPublished then Contents(h.fs, candidate) == Contents(old(h.fs), candidate)
            else h.failures == old(h.failures) ==> At(h.fs, candidate) == None
    ensures rec.Some? <==> Promoted(r)
    ensures InStates(h.visited, old(h.visited), late, old(h.fs), cfg, depth, Promoted(r), Took(rec))
    ensures InState(old(h.fs), h.fs, cfg, depth, Promoted(r), Took(rec), Took(rec))
    ensures !Promoted(r) ==> ChainLength(h.fs, cfg) == ChainLength(old(h.fs), cfg)
    ensures forall p :: Unrelated(p, candidate) && At(old(h.fs), p) == None ==> At(h.fs, p) == None
    ensures h.reliable ==> r == Published && BothTook(rec)
  {
    ghost var image, before, earlier := h.fs[candidate].data, h.fs, h.visited;
    ghost var mid, locked;
    r, rec, mid, late, locked := Rotate(h, cfg, live, candidate, stamp);
    ghost var rotated, seen := h.fs, h.visited;
    RotationInStates(seen, earlier, late, before, candidate, image, cfg, rec, depth);
    RotationEnds(before, mid, rotated, candidate, image, cfg, live, stamp, r, rec, depth, locked, old(h.clock), h.clock, h.failures == old(h.failures));
    if r != NothingPublished {
      Discard(h, cfg, candidate);
    }
    QuietAfter(h.visited, seen, earlier, late, before, rotated, h.fs, cfg, depth, Promoted(r), Took(rec));
    late := if Took(rec) then late * seen + (h.visited - seen) else late * seen;
  }

  /** The gate: a worker is booted off the candidate and asked about each sample.  It returns true only for an image that
      passes, and may refuse one that does: the worker may not boot, or not answer. */
  method ValidateGolden(h: Host, cfg: Config, candidate: Path) returns (accepts: bool)
    ensures accepts ==> IsFile(h.fs, candidate) && cfg.Gate(h.fs[candidate].data)
    ensures h.reliable && IsFile(h.fs, candidate) ==> accepts == cfg.Gate(h.fs[candidate].data)
  {
    if !IsFile(h.fs, candidate) || !cfg.benign.Set? || cfg.revoked.Missing? {
      return false;
    }
    var refused := h.Refuses();
    if refused {
      return false;
    }
    var image := h.fs[candidate].data;
    var checks := [(cfg.benign.sample, "Valid")] + if cfg.revoked.Set? then [(cfg.revoked.sample, "Revoked")] else [];
    for i := 0 to |checks|
      invariant forall k :: 0 <= k < i ==> cfg.verdict(image, checks[k].0) == checks[k].1
    {
      refused := h.Refuses();
      if refused || cfg.verdict(image, checks[i].0) != checks[i].1 {
        return false;
      }
    }
    assert checks[0] == (cfg.benign.sample, "Valid") && (cfg.revoked.Set? ==> checks[1] == (cfg.revoked.sample, "Revoked"));
    return true;
  }

  predicate Promotes(outcome: Option<Outcome>) {
    outcome.Some? && Promoted(outcome.value)
  }

  /** Gate and rotation of a built candidate: what the gate rejects leaves bases and depth alone. */
  method GateAndRotate(h: Host, cfg: Config, live: set<Proc>, candidate: Path, stamp: nat, ghost depth: int)
    returns (outcome: Option<Outcome>, rec: Option<Recording>, ghost late: set<Fs>)
    requires h.Valid() && cfg.Valid() && candidate.Image? && IsFile(h.fs, candidate) && Apart(h.fs, candidate)
    requires Labelled(h.fs, candidate, cfg, depth)
    modifies h
    ensures h.Valid() && h.clock >= old(h.clock) && h.failures >= old(h.failures) && h.refusals >= old(h.refusals) && old(h.asked) <= h.asked
    ensures outcome.Some? ==> cfg.Gate(old(h.fs)[candidate].data)
    ensures outcome == None ==> Quiet(old(h.fs), h.fs, cfg) && QuietSince(h.visited, old(h.visited), old(h.fs), cfg)
    ensures outcome == Some(Published) ==> Contents(h.fs, DISK) == Contents(h.fs, RAM) == Contents(old(h.fs), candidate)
    ensures outcome == Some(Broken) <==> LastAnswer(old(h.asked), h.asked, None)
    ensures outcome == Some(NothingPublished) ==> Labelled(h.fs, candidate, cfg, depth)
    ensures if outcome == Some(NothingPublished) then Contents(h.fs, candidate) == Contents(old(h.fs), candidate)
            else h.failures == old(h.failures) ==> At(h.fs, candidate) == None
    ensures InStates(h.visited, old(h.visited), late, old(h.fs), cfg, depth, Promotes(outcome), Took(rec))
    ensures InState(old(h.fs), h.fs, cfg, depth, Promotes(outcome), Took(rec), Took(rec))
    ensures !Promotes(outcome) ==> ChainLength(h.fs, cfg) == ChainLength(old(h.fs), cfg)
    ensures forall p :: Unrelated(p, candidate) && At(old(h.fs), p) == None ==> At(h.fs, p) == None
    ensures h.reliable && cfg.Gate(old(h.fs)[candidate].data) ==> outcome == Some(Published) && BothTook(rec)
  {
    var accepts := ValidateGolden(h, cfg, candidate);
    outcome, rec, late := None, None, {};
    if accepts {
      var r;
      r, rec, late := RotateBuilt(h, cfg, live, candidate, stamp, depth);
      outcome := Some(r);
    } else {
      Discard(h, cfg, candidate);
    }
  }

  // ---- the cycle

  /** A preflight as the cycle sees it: the bases and the depth stay, and nothing appears under a fresh name. */
  method Ready(h: Host, cfg: Config, live: set<Proc>, keep: Option<Path>) returns (ok: bool)
    requires h.Valid() && cfg.Valid()
    modifies h
    ensures h.Valid() && h.clock >= old(h.clock) && h.failures >= old(h.failures) && h.refusals >= old(h.refusals) && h.asked == old(h.asked)
    ensures Quiet(old(h.fs), h.fs, cfg) && QuietSince(h.visited, old(h.visited), old(h.fs), cfg)
    ensures forall p: Path :: (p.Image? || p.Sidecar? || p.Marker?) && At(old(h.fs), p) == None ==> At(h.fs, p) == None
    ensures h.reliable ==> ok
  {
    var hold;
    ok, hold := Preflight.Run(h, cfg, live, keep, None);
  }

  /** The preflights and the source: a master source is preflighted a second time, by the bake itself. */
  method ChooseSource(h: Host, cfg: Config, live: set<Proc>, forced: bool, master: bool) returns (src: Option<Source>, go: bool)
    requires h.Valid() && cfg.Valid()
    modifies h
    ensures h.Valid() && h.clock >= old(h.clock) && h.failures >= old(h.failures) && h.refusals >= old(h.refusals) && h.asked == old(h.asked)
    ensures Quiet(old(h.fs), h.fs, cfg) && QuietSince(h.visited, old(h.visited), old(h.fs), cfg)
    ensures forall p: Path :: (p.Image? || p.Sidecar? || p.Marker?) && At(old(h.fs), p) == None ==> At(h.fs, p) == None
    ensures go ==> if (forced || ChainLength(old(h.fs), cfg) >= cfg.maxChain) && master then src == Some(Master)
                   else if At(old(h.fs), DISK).Some? then src == Some(Golden)
                   else master && src == Some(Master)
    ensures go ==> src.Some?
    ensures src == Some(Golden) && master ==> ChainLength(old(h.fs), cfg) < cfg.maxChain
    ensures src == Some(Golden) ==> At(old(h.fs), DISK).Some?
    ensures h.reliable && !forced && ChainLength(old(h.fs), cfg) < cfg.maxChain && At(old(h.fs), DISK).Some? ==> go && src == Some(Golden)
  {
    go := Ready(h, cfg, live, None);
    if !go {
      return None, false;
    }
    ghost var seen, ready := h.visited, h.fs;
    src := RebakeSource(h.fs, cfg, forced, master);
    go := src.Some?;
    if src == Some(Master) {
      go := Ready(h, cfg, live, Some(Elsewhere(0)));
      QuietFurther(h.visited, seen, old(h.visited), old(h.fs), ready, cfg);
    }
  }

  /** What a whole cycle promises, whatever failed in it. */
  ghost predicate Cycled(before: Fs, after: Fs, cfg: Config, master: bool, rep: Report) {
    && InState(before, after, cfg, CandidateCounts(rep, ChainLength(before, cfg), cfg), rep.Promotes(), rep.StoreTookDepth(), rep.StoreTookDepth())
    && FromGoldenBelowLimit(before, cfg, master, rep)
    && (!rep.Promotes() ==> ChainLength(after, cfg) == ChainLength(before, cfg))
    && (rep.outcome.Some? ==> rep.source.Some?)
    && (rep.outcome == Some(Published) ==> Gated(after, DISK, cfg) && Contents(after, RAM) == Contents(after, DISK))
  }

  ghost predicate FromGoldenBelowLimit(before: Fs, cfg: Config, master: bool, rep: Report) {
    rep.source == Some(Golden) ==> At(before, DISK).Some? && (master ==> ChainLength(before, cfg) < cfg.maxChain)
  }

  /** The states of a cycle that would end as `rep` says; those in `late` come after a store took the depth. */
  ghost predicate CycleStates(visited: set<Fs>, earlier: set<Fs>, late: set<Fs>, before: Fs, cfg: Config, rep: Report) {
    InStates(visited, earlier, late, before, cfg, CandidateCounts(rep, ChainLength(before, cfg), cfg), rep.Promotes(), rep.StoreTookDepth())
  }

  lemma QuietCycle(visited: set<Fs>, earlier: set<Fs>, before: Fs, after: Fs, cfg: Config, master: bool, rep: Report)
    requires QuietSince(visited, earlier, before, cfg) && Quiet(before, after, cfg)
    requires rep.outcome == None && rep.rec == None && FromGoldenBelowLimit(before, cfg, master, rep)
    ensures Cycled(before, after, cfg, master, rep) && CycleStates(visited, earlier, {}, before, cfg, rep)
  {
    forall x | x in visited && x !in earlier
      ensures InState(before, x, cfg, CandidateCounts(rep, ChainLength(before, cfg), cfg), false, false, false)
    {
      assert Quiet(before, x, cfg);
    }
  }

  method RefreshAndRotate(h: Host, cfg: Config, live: set<Proc>, forced: bool, master: bool,
                          candidate: Path, copy: Path, stamp: nat)
    returns (rep: Report, ghost late: set<Fs>)
    requires h.Valid() && cfg.Valid()
    requires candidate.Image? && copy.Image? && copy != candidate
    requires At(h.fs, candidate) == None && At(h.fs, Sidecar(candidate)) == None && At(h.fs, Marker(candidate)) == None
    modifies h
    ensures h.Valid() && h.clock >= old(h.clock) && h.failures >= old(h.failures) && h.refusals >= old(h.refusals) && old(h.asked) <= h.asked
    ensures Cycled(old(h.fs), h.fs, cfg, master, rep)
    ensures CycleStates(h.visited, old(h.visited), late, old(h.fs), cfg, rep)
    ensures rep.outcome == Some(Broken) <==> LastAnswer(old(h.asked), h.asked, None)
    ensures rep.outcome == Some(NothingPublished) ==>
              Gated(h.fs, candidate, cfg) && Labelled(h.fs, candidate, cfg, CandidateCounts(rep, ChainLength(old(h.fs), cfg), cfg))
    ensures rep.wrote || rep.outcome.Some? ==>
              rep.source == Some(if master && (forced || ChainLength(old(h.fs), cfg) >= cfg.maxChain || At(old(h.fs), DISK) == None) then Master else Golden)
              && (rep.source == Some(Golden) ==> At(old(h.fs), DISK).Some?)
    ensures forall p :: Unrelated(p, candidate) && p != copy && At(old(h.fs), p) == None ==> At(h.fs, p) == None
    ensures h.reliable && !forced && ChainLength(old(h.fs), cfg) < cfg.maxChain && IsFile(old(h.fs), DISK) && (forall b :: cfg.Gate(b)) ==>
              rep.source == Some(Golden) && rep.wrote && rep.outcome == Some(Published) && BothTook(rep.rec)
  {
    ghost var before, earlier := h.fs, h.visited;
    var src, built, wrote := ChooseAndBuild(h, cfg, live, forced, master, candidate, copy);
    rep, late := Report(src, wrote, None, None), {};
    if !built {
      QuietCycle(h.visited, earlier, before, h.fs, cfg, master, rep);
      return;
    }
    ghost var ready, seen, depth := h.fs, h.visited, CandidateCounts(rep, ChainLength(before, cfg), cfg);
    var outcome, rec;
    outcome, rec, late := GateAndRotate(h, cfg, live, candidate, stamp, depth);
    rep := Report(src, wrote, outcome, rec);
    QuietBefore(h.visited, seen, earlier, late, before, ready, h.fs, cfg, depth, Promotes(outcome), Took(rec));
    late := late - seen;
  }

  /** The cycle as far as its candidate. */
  method ChooseAndBuild(h: Host, cfg: Config, live: set<Proc>, forced: bool, master: bool, candidate: Path, copy: Path)
    returns (src: Option<Source>, built: bool, wrote: bool)
    requires h.Valid() && cfg.Valid()
    requires candidate.Image? && copy.Image? && copy != candidate
    requires At(h.fs, candidate) == None && At(h.fs, Sidecar(candidate)) == None && At(h.fs, Marker(candidate)) == None
    modifies h
    ensures h.Valid() && h.clock >= old(h.clock) && h.failures >= old(h.failures) && h.refusals >= old(h.refusals) && h.asked == old(h.asked)
    ensures Quiet(old(h.fs), h.fs, cfg) && QuietSince(h.visited, old(h.visited), old(h.fs), cfg)
    ensures FromGoldenBelowLimit(old(h.fs), cfg, master, Report(src, wrote, None, None))
    ensures built || wrote ==>
              src == Some(if master && (forced || ChainLength(old(h.fs), cfg) >= cfg.maxChain || At(old(h.fs), DISK) == None) then Master else Golden)
              && (src == Some(Golden) ==> At(old(h.fs), DISK).Some?)
    ensures built ==> IsFile(h.fs, candidate) && Apart(h.fs, candidate)
    ensures built ==> Labelled(h.fs, candidate, cfg, if wrote then DepthFrom(src.value, ChainLength(old(h.fs), cfg)) else cfg.maxChain)
    ensures forall p :: Unrelated(p, candidate) && p != copy && At(old(h.fs), p) == None ==> At(h.fs, p) == None
    ensures h.reliable && !forced && ChainLength(old(h.fs), cfg) < cfg.maxChain && IsFile(old(h.fs), DISK) ==>
              built && wrote && src == Some(Golden)
  {
    var go;
    src, go := ChooseSource(h, cfg, live, forced, master);
    built, wrote := false, false;
    if go {
      ghost var chosen, seen := h.fs, h.visited;
      built, wrote := Build(h, cfg, live, src.value, candidate, copy);
      QuietFurther(h.visited, seen, old(h.visited), old(h.fs), chosen, cfg);
    }
  }
}
