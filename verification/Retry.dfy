/** The hand-run retry of a kept candidate: it is held across the gap between the preflight's lock and
    the rotation's, and re-dated when the rotation published nothing. */
module Retry {
  import opened Options
  import opened Host
  import opened Promotion
  import opened Chain
  import opened Retention
  import opened Rotation
  import Preflight

  /** A name the retry may re-date: never a retained backup, whose date is its place in the retention order. */
  predicate Redatable(fs: Fs, p: Path) {
    IsFile(fs, p) && !p.Backup?
  }

  /** The same file under a new date, or the same file. */
  ghost predicate SameImage(before: Fs, after: Fs, p: Path) {
    && Contents(after, p) == Contents(before, p)
    && (p.Backup? ==> At(after, p) == At(before, p))
  }

  /** One file re-dated if it may be: `redated` when the command succeeded. */
  method RedateOne(h: Host, p: Path) returns (redated: bool)
    requires h.Valid()
    modifies h
    ensures h.Valid() && h.clock >= old(h.clock) && h.failures == old(h.failures) && h.refusals >= old(h.refusals) && h.asked == old(h.asked)
    ensures redated ==> Redatable(old(h.fs), p) && old(h.clock) < Mtime(h.fs, p)
    ensures forall q :: At(h.fs, q) == At(old(h.fs), q) || (q == p && redated)
    ensures forall q :: Contents(h.fs, q) == Contents(old(h.fs), q)
    ensures Redatable(old(h.fs), p) && h.refusals == old(h.refusals) ==> redated
    ensures h.reliable ==> redated == Redatable(old(h.fs), p)
  {
    redated := false;
    if Redatable(h.fs, p) {
      redated := h.Touch(p);
    }
  }

  /** The candidate and its sidecar are fresh again where their commands succeeded; nothing else changes. */
  method Redate(h: Host, candidate: Path) returns (image: bool, sidecar: bool)
    requires h.Valid()
    modifies h
    ensures h.Valid() && h.clock >= old(h.clock) && h.failures == old(h.failures) && h.refusals >= old(h.refusals) && h.asked == old(h.asked)
    ensures image ==> Redatable(old(h.fs), candidate) && old(h.clock) < Mtime(h.fs, candidate)
    ensures sidecar ==> old(h.clock) < Mtime(h.fs, SidecarOf(candidate))
    ensures forall p :: At(h.fs, p) == At(old(h.fs), p) || (p == candidate && image) || (p == SidecarOf(candidate) && sidecar)
    ensures forall p :: Contents(h.fs, p) == Contents(old(h.fs), p)
    ensures h.refusals == old(h.refusals) ==>
              image == Redatable(old(h.fs), candidate) && sidecar == Redatable(old(h.fs), SidecarOf(candidate))
    ensures h.reliable ==>
              image == Redatable(old(h.fs), candidate) && sidecar == Redatable(old(h.fs), SidecarOf(candidate))
  {
    image := RedateOne(h, candidate);
    assert Contents(h.fs, SidecarOf(candidate)) == Contents(old(h.fs), SidecarOf(candidate));
    sidecar := RedateOne(h, SidecarOf(candidate));
  }

  /** A candidate the hold and the prunes protect: one of the backup directory's images, other than a
      rebake-source copy, which the stranded sweep takes whatever holds it. */
  predicate Protected(candidate: Path) {
    InGlob(candidate) && !(candidate.Image? && candidate.kind.RebakeSource?)
  }

  /** A hold of the running process on the candidate, on one of the stores: every prune, of any rotation, leaves it. */
  ghost predicate HeldBy(fs: Fs, candidate: Path, hold: Path, me: Proc, live: set<Proc>) {
    Preflight.HoldOf(hold, candidate, Some(me)) && At(fs, hold).Some? && me in live
  }

  lemma HeldIsKept(fs: Fs, candidate: Path, hold: Path, me: Proc, live: set<Proc>, keep: Option<Path>, alsoKeep: Option<Path>)
    requires HeldBy(fs, candidate, hold, me, live) && InGlob(candidate)
    ensures candidate in KeptBy(fs, live, keep, alsoKeep)
  {
    assert hold in fs;
    assert hold.image in Held(fs, live);
  }

  method HoldFirst(h: Host, cfg: Config, live: set<Proc>, me: Proc, candidate: Path) returns (ok: bool, hold: Option<Path>)
    requires h.Valid() && cfg.Valid() && me in live
    modifies h
    ensures h.Valid() && h.clock >= old(h.clock) && h.failures >= old(h.failures) && h.refusals >= old(h.refusals) && h.asked == old(h.asked)
    ensures !ok && hold.Some? && h.failures == old(h.failures) ==> At(h.fs, hold.value) == None
    ensures Protected(candidate) ==> At(h.fs, candidate) == At(old(h.fs), candidate)
    ensures At(h.fs, DISK) == At(old(h.fs), DISK) && At(h.fs, RAM) == At(old(h.fs), RAM)
    ensures ok ==> hold.Some?
    ensures hold.Some? ==> Preflight.HoldOf(hold.value, candidate, Some(me))
    ensures ok ==> HeldBy(h.fs, candidate, hold.value, me, live)
    ensures h.reliable ==> ok
  {
    ok, hold := Preflight.Run(h, cfg, live, Some(candidate), Some(me));
    assert candidate in KeptBy(old(h.fs), live, Some(candidate), None);
  }

  /** The rotation, entered with the hold on a store; it is still there at the end. */
  method RotateHeld(h: Host, cfg: Config, live: set<Proc>, candidate: Path, stamp: nat, ghost me: Proc, ghost hold: Path) returns (r: Outcome)
    requires h.Valid() && cfg.Valid() && candidate != Backup(stamp)
    requires HeldBy(h.fs, candidate, hold, me, live)
    modifies h
    ensures h.Valid() && h.clock >= old(h.clock) && h.failures >= old(h.failures) && h.refusals >= old(h.refusals) && old(h.asked) <= h.asked
    ensures HeldBy(h.fs, candidate, hold, me, live)
    ensures r == Broken && IsFile(old(h.fs), candidate) ==> LastAnswer(old(h.asked), h.asked, None)
    ensures Protected(candidate) ==> At(h.fs, candidate) == At(old(h.fs), candidate)
    ensures AllOrNothing(old(h.fs), Contents(old(h.fs), candidate).Or([]), stamp, r, h.fs)
    ensures Promoted(r) ==> IsFile(old(h.fs), candidate)
    ensures h.reliable && IsFile(old(h.fs), candidate) && !Sweepable(candidate) ==> r == Published
  {
    var rec;
    ghost var mid, late, locked;
    r, rec, mid, late, locked := Rotate(h, cfg, live, candidate, stamp);
    if locked {
      HoldOutlivesRotation(old(h.fs), mid, h.fs, cfg, live, candidate, stamp, r, rec, old(h.clock), h.clock, h.failures == old(h.failures), me, hold);
    }
  }

  /** A rotation keeps a live process's hold, and with it the candidate. */
  lemma HoldOutlivesRotation(before: Fs, mid: Fs, after: Fs, cfg: Config, live: set<Proc>, candidate: Path, stamp: nat, r: Outcome,
                             rec: Option<Recording>, since: nat, now: nat, clean: bool, me: Proc, hold: Path)
    requires Rotated(before, mid, after, cfg, live, candidate, stamp, r, rec, since, now, clean)
    requires HeldBy(before, candidate, hold, me, live) && candidate != Backup(stamp)
    ensures HeldBy(after, candidate, hold, me, live)
    ensures Protected(candidate) ==> At(after, candidate) == At(before, candidate)
  {
    assert At(mid, hold) == At(before, hold);
    assert At(after, hold) == At(mid, hold);
    if Protected(candidate) {
      HeldIsKept(mid, candidate, hold, me, live, Some(candidate), if r.Split? then r.backup else None);
      assert At(mid, candidate) == At(before, candidate);
    }
  }

  /** The rotation of a held candidate, what follows when it published nothing, and the release. */
  method RetryHeld(h: Host, cfg: Config, live: set<Proc>, candidate: Path, stamp: nat, ghost me: Proc, hold: Path) returns (r: Outcome)
    requires h.Valid() && cfg.Valid() && candidate != Backup(stamp)
    requires HeldBy(h.fs, candidate, hold, me, live)
    modifies h
    ensures h.Valid() && h.failures >= old(h.failures) && h.refusals >= old(h.refusals) && old(h.asked) <= h.asked
    ensures r == Broken && IsFile(old(h.fs), candidate) ==> LastAnswer(old(h.asked), h.asked, None)
    ensures Protected(candidate) ==> SameImage(old(h.fs), h.fs, candidate)
    ensures r == NothingPublished && h.refusals == old(h.refusals) && Protected(candidate) && Redatable(old(h.fs), candidate) ==>
              old(h.clock) < Mtime(h.fs, candidate)
    ensures Protected(candidate) && r != NothingPublished ==> At(h.fs, candidate) == At(old(h.fs), candidate)
    ensures h.failures == old(h.failures) ==> At(h.fs, hold) == None
    ensures r == NothingPublished || r == Broken ==>
              Contents(h.fs, DISK) == Contents(old(h.fs), DISK) && Contents(h.fs, RAM) == Contents(old(h.fs), RAM)
    ensures r == Published ==> Contents(h.fs, DISK).Some? && Contents(h.fs, DISK) == Contents(h.fs, RAM)
    ensures Promoted(r) && Protected(candidate) ==> Contents(h.fs, DISK) == Contents(old(h.fs), candidate)
    ensures h.reliable && IsFile(old(h.fs), candidate) && !Sweepable(candidate) ==> r == Published
  {
    r := RotateHeld(h, cfg, live, candidate, stamp, me, hold);
    if r == NothingPublished {
      var image, sidecar := Redate(h, candidate);
    }
    ghost var done := h.fs;
    var ok := h.Rm(hold);
    assert forall p: Path :: !p.Keep? ==> Contents(h.fs, p) == Contents(done, p) by {
      assert forall p: Path :: !p.Keep? ==> At(h.fs, p) == At(done, p);
    }
  }

  /** `rotate <candidate>`.  What is not a file is refused with nothing touched.  Otherwise the candidate is held from
      before the rotation starts (`atRotate`) until after it ended, the outcome is all or nothing, the candidate is there
      afterwards with its bytes, and a retained backup used as one keeps its date. */
  method Run(h: Host, cfg: Config, live: set<Proc>, me: Proc, candidate: Path, stamp: nat)
    returns (r: Outcome, hold: Option<Path>, ghost atRotate: Option<Fs>)
    requires h.Valid() && cfg.Valid() && me in live
    requires candidate != Backup(stamp)
    modifies h
    ensures h.Valid() && old(h.asked) <= h.asked
    ensures !IsFile(old(h.fs), candidate) ==> r == NothingPublished && h.fs == old(h.fs)
    ensures Protected(candidate) && r == Broken ==> LastAnswer(old(h.asked), h.asked, None)
    ensures Protected(candidate) ==> SameImage(old(h.fs), h.fs, candidate)
    ensures hold.Some? ==> Preflight.HoldOf(hold.value, candidate, Some(me))
    ensures hold.Some? && h.failures == old(h.failures) ==> At(h.fs, hold.value) == None
    ensures Promoted(r) ==> atRotate.Some?
    ensures atRotate.Some? ==> hold.Some? && HeldBy(atRotate.value, candidate, hold.value, me, live)
    ensures atRotate.Some? && Protected(candidate) ==> Contents(atRotate.value, candidate) == Contents(old(h.fs), candidate)
    ensures atRotate.Some? && r == NothingPublished && h.refusals == old(h.refusals) && Protected(candidate) && !candidate.Backup? ==>
              old(h.clock) < Mtime(h.fs, candidate)
    ensures Protected(candidate) && r != NothingPublished ==> At(h.fs, candidate) == At(old(h.fs), candidate)
    ensures r == NothingPublished || r == Broken ==>
              Contents(h.fs, DISK) == Contents(old(h.fs), DISK) && Contents(h.fs, RAM) == Contents(old(h.fs), RAM)
    ensures r == Published ==> Contents(h.fs, DISK).Some? && Contents(h.fs, DISK) == Contents(h.fs, RAM)
    ensures Promoted(r) && Protected(candidate) ==> Contents(h.fs, DISK) == Contents(old(h.fs), candidate)
    ensures h.reliable && IsFile(old(h.fs), candidate) && Protected(candidate) ==> r == Published
  {
    r, hold, atRotate := NothingPublished, None, None;
    if !IsFile(h.fs, candidate) {
      return;
    }
    var ok;
    ok, hold := HoldFirst(h, cfg, live, me, candidate);
    if !ok {
      return;
    }
    atRotate := Some(h.fs);
    r := RetryHeld(h, cfg, live, candidate, stamp, me, hold.value);
  }
}
