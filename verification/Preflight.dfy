/** What runs before the hour-long build: the sweep, the retry's hold, the prune and the reseeding of
    the chain record, all under the lock, and the refusals around them. */
module Preflight {
  import opened Options
  import opened Host
  import opened Promotion
  import opened Chain
  import opened Retention

  /** What reseeding may write: the two copies, their probes and their temporaries. */
  predicate Seeded(p: Path) {
    p == Record || p == Mirror || p.Probe? || p.Scratch?
  }

  /** One copy brought to `want` unless it reads as that already; the depth reads as it did in every state on the way. */
  method BringUp(h: Host, cfg: Config, p: Path) returns (ok: bool)
    requires h.Valid() && cfg.Valid()
    requires p == Record || (p == Mirror && ReadDepth(h.fs, Record, cfg) == Some(ChainLength(h.fs, cfg)))
    modifies h
    ensures h.Valid() && h.clock >= old(h.clock) && h.failures == old(h.failures) && h.refusals >= old(h.refusals) && h.asked == old(h.asked) && old(h.visited) <= h.visited
    ensures Quiet(old(h.fs), h.fs, cfg) && QuietSince(h.visited, old(h.visited), old(h.fs), cfg)
    ensures ok ==> ReadDepth(h.fs, p, cfg) == Some(ChainLength(old(h.fs), cfg))
    ensures forall q :: q != p && q != Scratch(p) ==> At(h.fs, q) == At(old(h.fs), q)
    ensures !ok ==> h.refusals > old(h.refusals)
    ensures h.reliable ==> ok
  {
    var want := ChainLength(h.fs, cfg);
    if ReadDepth(h.fs, p, cfg) == Some(want) {
      return true;
    }
    ok := WriteDepth(h, cfg, p, want, h.clock);
  }

  /** Some state since then has the probe beside `p`, whole. */
  ghost predicate Proved(visited: set<Fs>, p: Path, since: nat) {
    exists x :: x in visited && Contents(x, Probe(p)) == Some("probe") && since < Mtime(x, Probe(p))
  }

  lemma ProvedLater(visited: set<Fs>, now: set<Fs>, p: Path, since: nat)
    requires Proved(visited, p, since) && visited <= now
    ensures Proved(now, p, since)
  {
    var x :| x in visited && Contents(x, Probe(p)) == Some("probe") && since < Mtime(x, Probe(p));
    assert x in now;
  }

  /** A store proved to take a small write, by a probe beside the record it would have to take. */
  method Prove(h: Host, cfg: Config, p: Path) returns (ok: bool)
    requires h.Valid() && cfg.Valid() && (p == Record || p == Mirror)
    modifies h
    ensures h.Valid() && h.clock >= old(h.clock) && h.failures >= old(h.failures) && h.refusals >= old(h.refusals) && h.asked == old(h.asked) && old(h.visited) <= h.visited
    ensures forall q :: q != Probe(p) && q != Scratch(Probe(p)) ==> At(h.fs, q) == At(old(h.fs), q)
    ensures Quiet(old(h.fs), h.fs, cfg) && QuietSince(h.visited, old(h.visited), old(h.fs), cfg)
    ensures ok ==> Proved(h.visited, p, old(h.clock))
    ensures h.reliable ==> ok
  {
    ok := h.WriteSmall(Probe(p), "probe");
    ghost var once, seen := h.fs, h.visited;
    if ok {
      var removed := h.Rm(Probe(p));
    }
    OneStill(old(h.fs), h.fs, cfg);
    StillIsQuiet(h.visited, old(h.visited), old(h.fs), cfg);
  }

  /** The record and the mirror brought to the depth they read as; false refuses the run. */
  method SeedRecord(h: Host, cfg: Config) returns (ok: bool)
    requires h.Valid() && cfg.Valid()
    modifies h
    ensures h.Valid() && h.clock >= old(h.clock) && h.failures >= old(h.failures) && h.refusals >= old(h.refusals) && h.asked == old(h.asked) && old(h.visited) <= h.visited
    ensures Quiet(old(h.fs), h.fs, cfg) && QuietSince(h.visited, old(h.visited), old(h.fs), cfg)
    ensures ok ==> ReadDepth(h.fs, Record, cfg) == Some(ChainLength(old(h.fs), cfg))
    ensures ok ==> ReadDepth(h.fs, Mirror, cfg) == Some(ChainLength(old(h.fs), cfg)) || h.refusals > old(h.refusals)
    ensures ok ==> Proved(h.visited, Record, old(h.clock))
    ensures forall q :: !Seeded(q) ==> At(h.fs, q) == At(old(h.fs), q)
    ensures h.reliable ==> ok
  {
    ghost var earlier, before := h.visited, h.fs;
    ok := Prove(h, cfg, Record);
    ghost var seen, once := h.visited, h.fs;
    if ok {
      ok := BringUp(h, cfg, Record);
      QuietFurther(h.visited, seen, earlier, before, once, cfg);
    }
    if ok {
      seen, once := h.visited, h.fs;
      SeedMirror(h, cfg);
      QuietFurther(h.visited, seen, earlier, before, once, cfg);
    }
  }

  /** The mirror's half, which refuses nothing. */
  method SeedMirror(h: Host, cfg: Config)
    requires h.Valid() && cfg.Valid() && ReadDepth(h.fs, Record, cfg) == Some(ChainLength(h.fs, cfg))
    modifies h
    ensures h.Valid() && h.clock >= old(h.clock) && h.failures >= old(h.failures) && h.refusals >= old(h.refusals) && h.asked == old(h.asked) && old(h.visited) <= h.visited
    ensures Quiet(old(h.fs), h.fs, cfg) && QuietSince(h.visited, old(h.visited), old(h.fs), cfg)
    ensures ReadDepth(h.fs, Mirror, cfg) == Some(ChainLength(old(h.fs), cfg)) || h.refusals > old(h.refusals)
    ensures forall q :: !Seeded(q) || q == Record ==> At(h.fs, q) == At(old(h.fs), q)
  {
    var best := BringUp(h, cfg, Mirror);
    ghost var seen, once := h.visited, h.fs;
    best := Prove(h, cfg, Mirror);
    QuietFurther(h.visited, seen, old(h.visited), old(h.fs), once, cfg);
  }

  /** A rebake-source copy a killed run left, past its hours and with no live builder.  Holds do not count here. */
  predicate Stranded(fs: Fs, p: Path, now: nat, cfg: Config, live: set<Proc>) {
    p.Image? && p.kind.RebakeSource? && 0 < Mtime(fs, p) < now - cfg.stranded && !LivePid(live, p.kind.pid)
  }

  /** The same in dates and processes. */
  ghost predicate Abandoned(fs: Fs, p: Path, at: nat, cfg: Config, live: set<Proc>) {
    match p
    case Image(kind, _) =>
      kind.RebakeSource? && 0 < Mtime(fs, p) && Mtime(fs, p) + cfg.stranded < at && forall q :: q in live ==> q.pid != kind.pid
    case _ => false
  }

  method SweepStranded(h: Host, cfg: Config, live: set<Proc>)
    requires h.Valid() && cfg.Valid()
    modifies h
    ensures h.Valid() && h.clock >= old(h.clock) && h.failures >= old(h.failures) && h.refusals == old(h.refusals) && h.asked == old(h.asked) && old(h.visited) <= h.visited
    ensures Quiet(old(h.fs), h.fs, cfg) && QuietSince(h.visited, old(h.visited), old(h.fs), cfg)
    ensures forall p :: At(h.fs, p) == At(old(h.fs), p) || (Stranded(old(h.fs), p, h.clock, cfg, live) && At(h.fs, p) == None)
    ensures h.failures == old(h.failures) ==> forall p :: Stranded(old(h.fs), p, old(h.clock), cfg, live) ==> At(h.fs, p) == None
    ensures forall p :: At(h.fs, p) != At(old(h.fs), p) ==> Abandoned(old(h.fs), p, h.clock, cfg, live)
    ensures h.failures == old(h.failures) ==> forall p :: Abandoned(old(h.fs), p, old(h.clock), cfg, live) ==> At(h.fs, p) == None
  {
    RemoveAll(h, cfg, set p | p in h.fs && Stranded(h.fs, p, h.clock, cfg, live));
  }

  /** What a preflight leaves as it was: everything outside the temporaries, the copies of the depth,
      the hold it writes and what a prune or the stranded sweep may remove. */
  ghost predicate Untouched(before: Fs, after: Fs, now: nat, cfg: Config, live: set<Proc>, kept: set<Path>, keep: Option<Path>) {
    forall p :: At(after, p) == At(before, p)
                || Sweepable(p)
                || Seeded(p)
                || (keep.Some? && p.Keep? && p.image == keep.value && p.holder.Builder?)
                || (At(after, p) == None && Stranded(before, p, now, cfg, live))
                || (At(after, p) == None && Prunable(before, p, now, cfg, live) && (p.Image? || p.Sidecar? || p.Backup? ==> p !in kept))
  }

  predicate HoldOf(mark: Path, image: Path, holder: Option<Proc>) {
    mark.Keep? && mark.image == image && holder.Some? && mark.holder == Builder(holder.value.pid, Some(holder.value.start))
  }

  /** No temporary is in the way of the space check. */
  ghost predicate NoTemps(fs: Fs) {
    forall p :: Sweepable(p) ==> !IsFile(fs, p)
  }

  /** The sweep, and the hold when one is asked for. */
  method SweepAndHold(h: Host, cfg: Config, keep: Option<Path>, holdFor: Option<Proc>) returns (ok: bool, hold: Option<Path>)
    requires h.Valid() && cfg.Valid()
    modifies h
    ensures h.Valid() && h.clock >= old(h.clock) && h.failures >= old(h.failures) && h.refusals >= old(h.refusals) && h.asked == old(h.asked)
    ensures ok && keep.Some? && holdFor.Some? ==> hold.Some?
    ensures hold.Some? ==> keep.Some? && HoldOf(hold.value, keep.value, holdFor) && At(h.fs, hold.value).Some?
    ensures forall p :: At(h.fs, p) == At(old(h.fs), p) || Sweepable(p)
                        || (keep.Some? && p.Keep? && p.image == keep.value && p.holder.Builder?)
    ensures forall p: Path :: p.Keep? && At(old(h.fs), p).Some? ==> At(h.fs, p).Some?
    ensures h.failures == old(h.failures) ==> NoTemps(h.fs)
    ensures h.reliable ==> ok
    ensures Quiet(old(h.fs), h.fs, cfg) && QuietSince(h.visited, old(h.visited), old(h.fs), cfg)
  {
    ghost var earlier, before := h.visited, h.fs;
    SweepOwnTemps(h);
    OneStill(before, h.fs, cfg);
    StillIsQuiet(h.visited, earlier, before, cfg);
    ok, hold := true, None;
    if keep.Some? && holdFor.Some? {
      ghost var seen, swept := h.visited, h.fs;
      hold := MarkKept(h, keep.value, Builder(holdFor.value.pid, Some(holdFor.value.start)));
      ok := hold.Some?;
      OneStill(swept, h.fs, cfg);
      StillIsQuiet(h.visited, seen, swept, cfg);
      QuietFurther(h.visited, seen, earlier, before, swept, cfg);
    }
  }

  /** A prune after the sweep and the hold, seen from before both. */
  lemma SeenFromBefore(before: Fs, held: Fs, after: Fs, now: nat, cfg: Config, live: set<Proc>, keep: Option<Path>, clean: bool)
    requires forall p :: At(held, p) == At(before, p) || Sweepable(p)
                         || (keep.Some? && p.Keep? && p.image == keep.value && p.holder.Builder?)
    requires forall p: Path :: p.Keep? && At(before, p).Some? ==> At(held, p).Some?
    requires Pruned(held, after, now, cfg, live, KeptBy(held, live, keep, None), clean)
    ensures Untouched(before, after, now, cfg, live, KeptBy(before, live, keep, None), keep)
  {
    forall k | k in before && k.Keep? && InGlob(k.image) && Counts(k.holder, live)
      ensures k.image in Held(held, live)
    {
      assert At(before, k).Some? && At(held, k).Some?;
      assert k in held;
    }
    assert KeptBy(before, live, keep, None) <= KeptBy(held, live, keep, None);
    assert At(held, Record) == At(before, Record);
  }

  /** Everything a prune has to remove is gone. */
  ghost predicate DueGone(before: Fs, now: nat, cfg: Config, live: set<Proc>, kept: set<Path>, after: Fs) {
    forall p :: Due(before, p, now, cfg, live, kept) ==> At(after, p) == None
  }

  /** The hold adds nothing to what is kept anyway. */
  lemma KeptOnlyMore(before: Fs, held: Fs, live: set<Proc>, keep: Option<Path>)
    requires forall p :: At(held, p) == At(before, p) || Sweepable(p)
                         || (keep.Some? && p.Keep? && p.image == keep.value && p.holder.Builder?)
    ensures KeptBy(held, live, keep, None) <= KeptBy(before, live, keep, None)
  {
    forall k | k in held && k.Keep? && InGlob(k.image) && Counts(k.holder, live)
      ensures k.image in KeptBy(before, live, keep, None)
    {
      assert At(held, k) == At(before, k) || k.image == keep.value;
      assert At(held, k) == At(before, k) ==> k in before && k.image in Held(before, live);
    }
  }

  lemma DueFromBefore(before: Fs, held: Fs, after: Fs, earlier: nat, now: nat, cfg: Config, live: set<Proc>, keep: Option<Path>)
    requires forall p :: At(held, p) == At(before, p) || Sweepable(p)
                         || (keep.Some? && p.Keep? && p.image == keep.value && p.holder.Builder?)
    requires forall p: Path :: p.Keep? && At(before, p).Some? ==> At(held, p).Some?
    requires earlier <= now && DueGone(held, now, cfg, live, KeptBy(held, live, keep, None), after)
    ensures DueGone(before, earlier, cfg, live, KeptBy(before, live, keep, None), after)
  {
    KeptOnlyMore(before, held, live, keep);
    forall p | Due(before, p, earlier, cfg, live, KeptBy(before, live, keep, None))
      ensures At(after, p) == None
    {
      assert At(held, Record) == At(before, Record);
      assert p.Image? || p.Sidecar? || p.Marker? ==> At(held, p) == At(before, p);
      assert Due(held, p, now, cfg, live, KeptBy(held, live, keep, None));
    }
  }

  lemma HeldThenPruned(before: Fs, held: Fs, after: Fs, since: nat, heldAt: nat, now: nat, cfg: Config, live: set<Proc>, keep: Option<Path>,
                       clean: bool)
    requires forall p :: At(held, p) == At(before, p) || Sweepable(p)
                         || (keep.Some? && p.Keep? && p.image == keep.value && p.holder.Builder?)
    requires forall p: Path :: p.Keep? && At(before, p).Some? ==> At(held, p).Some?
    requires since <= heldAt && Pruned(held, after, now, cfg, live, KeptBy(held, live, keep, None), clean)
    ensures Untouched(before, after, now, cfg, live, KeptBy(before, live, keep, None), keep)
    ensures Retains(before, after, cfg.keepN)
    ensures DueGone(held, heldAt, cfg, live, KeptBy(held, live, keep, None), after) ==>
              DueGone(before, since, cfg, live, KeptBy(before, live, keep, None), after)
  {
    SeenFromBefore(before, held, after, now, cfg, live, keep, clean);
    PruneRetains(before, held, after, after, now, cfg, live, KeptBy(held, live, keep, None), clean);
    if DueGone(held, heldAt, cfg, live, KeptBy(held, live, keep, None), after) {
      DueFromBefore(before, held, after, since, heldAt, cfg, live, keep);
    }
  }

  lemma SeededLater(before: Fs, mid: Fs, after: Fs, earlier: nat, now: nat, cfg: Config, live: set<Proc>, kept: set<Path>, keep: Option<Path>)
    requires earlier <= now && Untouched(before, mid, earlier, cfg, live, kept, keep)
    requires forall p :: !Seeded(p) ==> At(after, p) == At(mid, p)
    ensures Untouched(before, after, now, cfg, live, kept, keep)
  {
  }

  /** What is due is no copy the seeding writes; a superseded marker is not written either. */
  lemma SeededDue(before: Fs, mid: Fs, after: Fs, now: nat, cfg: Config, live: set<Proc>, kept: set<Path>)
    requires forall p :: !Seeded(p) ==> At(after, p) == At(mid, p)
    ensures DueGone(before, now, cfg, live, kept, mid) ==> DueGone(before, now, cfg, live, kept, after)
  {
    if DueGone(before, now, cfg, live, kept, mid) {
      forall p | Due(before, p, now, cfg, live, kept)
        ensures At(after, p) == None
      {
        assert !Seeded(p) && At(mid, p) == None;
      }
    }
  }

  lemma StillNoTemps(mid: Fs, after: Fs)
    requires forall p :: !Seeded(p) ==> At(after, p) == At(mid, p)
    ensures NoTemps(mid) ==> NoTemps(after)
  {
    if NoTemps(mid) {
      forall p | Sweepable(p)
        ensures !IsFile(after, p)
      {
        assert At(after, p) == At(mid, p) && !IsFile(mid, p);
      }
    }
  }

  /** The sweep, the hold and the prune: `held` is the state the prune starts from, with the hold in it. */
  method HoldAndPrune(h: Host, cfg: Config, live: set<Proc>, keep: Option<Path>, holdFor: Option<Proc>)
    returns (ok: bool, hold: Option<Path>, ghost held: Fs)
    requires h.Valid() && cfg.Valid() && (holdFor.Some? ==> holdFor.value in live)
    modifies h
    ensures h.Valid() && h.clock >= old(h.clock) && h.failures >= old(h.failures) && h.refusals >= old(h.refusals) && h.asked == old(h.asked)
    ensures Quiet(old(h.fs), h.fs, cfg) && QuietSince(h.visited, old(h.visited), old(h.fs), cfg)
    ensures hold.Some? ==> At(held, hold.value).Some?
    ensures ok ==> Pruned(held, h.fs, h.clock, cfg, live, KeptBy(held, live, keep, None), h.failures == old(h.failures))
    ensures Retains(old(h.fs), h.fs, cfg.keepN)
    ensures ok && h.failures == old(h.failures) ==>
              DueGone(old(h.fs), old(h.clock), cfg, live, KeptBy(old(h.fs), live, keep, None), h.fs)
    ensures h.reliable ==> ok
    ensures ok && keep.Some? && holdFor.Some? ==> hold.Some?
    ensures hold.Some? ==> keep.Some? && HoldOf(hold.value, keep.value, holdFor) && At(h.fs, hold.value).Some?
    ensures Untouched(old(h.fs), h.fs, h.clock, cfg, live, KeptBy(old(h.fs), live, keep, None), keep)
    ensures h.failures == old(h.failures) ==> NoTemps(h.fs)
  {
    ghost var earlier, before, since, failed := h.visited, h.fs, h.clock, h.failures;
    ok, hold := SweepAndHold(h, cfg, keep, holdFor);
    held := h.fs;
    if !ok {
      return;
    }
    ghost var seen, heldAt, failedThen := h.visited, h.clock, h.failures;
    Prune(h, cfg, live, keep, None);
    ghost var after := h.fs;
    QuietFurther(h.visited, seen, earlier, before, held, cfg);
    HeldThenPruned(before, held, after, since, heldAt, h.clock, cfg, live, keep, h.failures == failedThen);
    assert hold.Some? ==> At(after, hold.value) == At(held, hold.value);
  }

  /** The part under the lock.  With `holdFor`, `keep` is held by the time it ends. */
  method UnderLock(h: Host, cfg: Config, live: set<Proc>, keep: Option<Path>, holdFor: Option<Proc>)
    returns (ok: bool, hold: Option<Path>)
    requires h.Valid() && cfg.Valid() && (holdFor.Some? ==> holdFor.value in live)
    modifies h
    ensures h.Valid() && h.clock >= old(h.clock) && h.failures >= old(h.failures) && h.refusals >= old(h.refusals) && h.asked == old(h.asked)
    ensures Quiet(old(h.fs), h.fs, cfg) && QuietSince(h.visited, old(h.visited), old(h.fs), cfg)
    ensures ok && At(h.fs, DISK).Some? ==> ReadDepth(h.fs, Record, cfg) == Some(ChainLength(h.fs, cfg))
    ensures ok && At(h.fs, DISK).Some? ==> ReadDepth(h.fs, Mirror, cfg) == Some(ChainLength(h.fs, cfg)) || h.refusals > old(h.refusals)
    ensures ok && At(h.fs, DISK).Some? ==> Proved(h.visited, Record, old(h.clock))
    ensures Retains(old(h.fs), h.fs, cfg.keepN)
    ensures ok && keep.Some? && holdFor.Some? ==> hold.Some?
    ensures hold.Some? ==> keep.Some? && HoldOf(hold.value, keep.value, holdFor) && At(h.fs, hold.value).Some?
    ensures Untouched(old(h.fs), h.fs, h.clock, cfg, live, KeptBy(old(h.fs), live, keep, None), keep)
    ensures h.failures == old(h.failures) ==> NoTemps(h.fs)
    ensures ok && h.failures == old(h.failures) ==>
              DueGone(old(h.fs), old(h.clock), cfg, live, KeptBy(old(h.fs), live, keep, None), h.fs)
    ensures h.reliable ==> ok
  {
    ghost var before, visitedBefore, since := h.fs, h.visited, h.clock;
    ghost var held;
    ok, hold, held := HoldAndPrune(h, cfg, live, keep, holdFor);
    if ok && At(h.fs, DISK).Some? {
      ghost var pruned, earlier, seen := h.fs, h.clock, h.visited;
      ok := SeedRecord(h, cfg);
      QuietFurther(h.visited, seen, visitedBefore, before, pruned, cfg);
      SeededDue(before, pruned, h.fs, since, cfg, live, KeptBy(before, live, keep, None));
      SeededLater(old(h.fs), pruned, h.fs, earlier, h.clock, cfg, live, KeptBy(old(h.fs), live, keep, None), keep);
      StillNoTemps(pruned, h.fs);
      HoldStays(pruned, h.fs, hold);
      RetainsFurther(before, pruned, h.fs, cfg.keepN);
    }
  }

  lemma RetainsFurther(before: Fs, mid: Fs, after: Fs, n: nat)
    requires Retains(before, mid, n) && forall p: Path :: p.Backup? ==> At(after, p) == At(mid, p)
    ensures Retains(before, after, n)
  {
  }

  lemma HoldStays(mid: Fs, after: Fs, hold: Option<Path>)
    requires forall p :: !Seeded(p) ==> At(after, p) == At(mid, p)
    ensures hold.Some? && hold.value.Keep? ==> At(after, hold.value) == At(mid, hold.value)
  {
  }

  /** Every source copy that was stranded is gone. */
  ghost predicate StrandedGone(before: Fs, now: nat, cfg: Config, live: set<Proc>, after: Fs) {
    forall p :: Stranded(before, p, now, cfg, live) ==> At(after, p) == None
  }

  lemma StrandedFromBefore(before: Fs, mid: Fs, after: Fs, since: nat, earlier: nat, swept: nat, cfg: Config, live: set<Proc>,
                           kept: set<Path>, keep: Option<Path>)
    requires since <= swept && Untouched(before, mid, earlier, cfg, live, kept, keep)
    requires forall p :: At(after, p) == At(mid, p) || At(after, p) == None
    ensures StrandedGone(mid, swept, cfg, live, after) ==> StrandedGone(before, since, cfg, live, after)
  {
    if StrandedGone(mid, swept, cfg, live, after) {
      forall p | Stranded(before, p, since, cfg, live)
        ensures At(after, p) == None
      {
        assert At(mid, p) == At(before, p) || At(mid, p) == None;
        assert At(mid, p).Some? ==> Stranded(mid, p, swept, cfg, live);
      }
    }
  }

  /** The stranded sweep, outside the lock, before the space check. */
  method AfterLock(h: Host, cfg: Config, live: set<Proc>, ghost before: Fs, ghost earlier: set<Fs>, ghost since: nat,
                   ghost keep: Option<Path>)
    requires h.Valid() && cfg.Valid() && since <= h.clock
    requires Untouched(before, h.fs, h.clock, cfg, live, KeptBy(before, live, keep, None), keep)
    requires QuietSince(h.visited, earlier, before, cfg) && Quiet(before, h.fs, cfg) && Retains(before, h.fs, cfg.keepN)
    modifies h
    ensures h.Valid() && h.clock >= old(h.clock) && h.failures >= old(h.failures) && h.refusals == old(h.refusals) && h.asked == old(h.asked) && old(h.visited) <= h.visited
    ensures Quiet(old(h.fs), h.fs, cfg) && Quiet(before, h.fs, cfg) && QuietSince(h.visited, earlier, before, cfg) && Retains(before, h.fs, cfg.keepN)
    ensures forall p: Path :: !p.Image? ==> At(h.fs, p) == At(old(h.fs), p)
    ensures Untouched(before, h.fs, h.clock, cfg, live, KeptBy(before, live, keep, None), keep)
    ensures h.failures == old(h.failures) ==> StrandedGone(before, since, cfg, live, h.fs)
    ensures forall p :: At(h.fs, p) == At(old(h.fs), p) || At(h.fs, p) == None
  {
    SweepStranded(h, cfg, live);
    StrandedFromBefore(before, old(h.fs), h.fs, since, old(h.clock), old(h.clock), cfg, live, KeptBy(before, live, keep, None), keep);
    SweptLater(before, old(h.fs), h.fs, old(h.clock), h.clock, cfg, live, KeptBy(before, live, keep, None), keep);
    LaterStill(h.visited, old(h.visited), earlier, before, old(h.fs), h.fs, cfg);
  }

  /** The whole preflight; a hold it wrote is removed again when a later check refuses. */
  method Run(h: Host, cfg: Config, live: set<Proc>, keep: Option<Path>, holdFor: Option<Proc>)
    returns (ok: bool, hold: Option<Path>)
    requires h.Valid() && cfg.Valid() && (holdFor.Some? ==> holdFor.value in live)
    modifies h
    ensures h.Valid() && h.clock >= old(h.clock) && h.failures >= old(h.failures) && h.refusals >= old(h.refusals) && h.asked == old(h.asked)
    ensures Quiet(old(h.fs), h.fs, cfg) && QuietSince(h.visited, old(h.visited), old(h.fs), cfg)
    ensures ok && At(h.fs, DISK).Some? ==> ReadDepth(h.fs, Record, cfg) == Some(ChainLength(h.fs, cfg))
    ensures ok && At(h.fs, DISK).Some? ==> ReadDepth(h.fs, Mirror, cfg) == Some(ChainLength(h.fs, cfg)) || h.refusals > old(h.refusals)
    ensures ok && At(h.fs, DISK).Some? ==> Proved(h.visited, Record, old(h.clock))
    ensures Retains(old(h.fs), h.fs, cfg.keepN)
    ensures ok && keep.Some? && holdFor.Some? ==> hold.Some?
    ensures hold.Some? ==> keep.Some? && HoldOf(hold.value, keep.value, holdFor)
    ensures ok && hold.Some? ==> At(h.fs, hold.value).Some?
    ensures !ok && hold.Some? && h.failures == old(h.failures) ==> At(h.fs, hold.value) == None
    ensures Untouched(old(h.fs), h.fs, h.clock, cfg, live, KeptBy(old(h.fs), live, keep, None), keep)
    ensures ok && h.failures == old(h.failures) ==> NoTemps(h.fs)
    ensures ok && h.failures == old(h.failures) ==>
              DueGone(old(h.fs), old(h.clock), cfg, live, KeptBy(old(h.fs), live, keep, None), h.fs)
    ensures ok && h.failures == old(h.failures) ==> StrandedGone(old(h.fs), old(h.clock), cfg, live, h.fs)
    ensures h.reliable ==> ok
  {
    var refused := h.Refuses();
    if refused {
      return false, None;
    }
    ghost var before, earlier := h.fs, h.visited;
    ok, hold := UnderLockAndAfter(h, cfg, live, keep, holdFor);
    if !ok && hold.Some? {
      Withdraw(h, cfg, live, before, earlier, keep, hold.value);
    }
  }

  /** The stranded sweep takes images only: what was gone stays gone, and everything else stands. */
  lemma AfterTheSweep(before: Fs, mid: Fs, after: Fs, since: nat, cfg: Config, live: set<Proc>, kept: set<Path>, hold: Option<Path>)
    requires forall p: Path :: !p.Image? ==> At(after, p) == At(mid, p)
    requires forall p :: At(after, p) == At(mid, p) || At(after, p) == None
    ensures ReadDepth(after, Record, cfg) == ReadDepth(mid, Record, cfg) && ReadDepth(after, Mirror, cfg) == ReadDepth(mid, Mirror, cfg)
    ensures hold.Some? && hold.value.Keep? ==> At(after, hold.value) == At(mid, hold.value)
    ensures NoTemps(mid) ==> NoTemps(after)
    ensures DueGone(before, since, cfg, live, kept, mid) ==> DueGone(before, since, cfg, live, kept, after)
  {
    assert At(after, Record) == At(mid, Record) && At(after, Mirror) == At(mid, Mirror);
    if NoTemps(mid) {
      forall p | Sweepable(p)
        ensures !IsFile(after, p)
      {
        assert At(after, p) == At(mid, p) && !IsFile(mid, p);
      }
    }
    if DueGone(before, since, cfg, live, kept, mid) {
      forall p | Due(before, p, since, cfg, live, kept)
        ensures At(after, p) == None
      {
        assert At(mid, p) == None;
      }
    }
  }

  /** The preflight but for the withdrawal. */
  method UnderLockAndAfter(h: Host, cfg: Config, live: set<Proc>, keep: Option<Path>, holdFor: Option<Proc>)
    returns (ok: bool, hold: Option<Path>)
    requires h.Valid() && cfg.Valid() && (holdFor.Some? ==> holdFor.value in live)
    modifies h
    ensures h.Valid() && h.clock >= old(h.clock) && h.failures >= old(h.failures) && h.refusals >= old(h.refusals) && h.asked == old(h.asked)
    ensures Quiet(old(h.fs), h.fs, cfg) && QuietSince(h.visited, old(h.visited), old(h.fs), cfg)
    ensures ok && At(h.fs, DISK).Some? ==> ReadDepth(h.fs, Record, cfg) == Some(ChainLength(h.fs, cfg))
    ensures ok && At(h.fs, DISK).Some? ==> ReadDepth(h.fs, Mirror, cfg) == Some(ChainLength(h.fs, cfg)) || h.refusals > old(h.refusals)
    ensures ok && At(h.fs, DISK).Some? ==> Proved(h.visited, Record, old(h.clock))
    ensures Retains(old(h.fs), h.fs, cfg.keepN)
    ensures ok && keep.Some? && holdFor.Some? ==> hold.Some?
    ensures hold.Some? ==> keep.Some? && HoldOf(hold.value, keep.value, holdFor)
    ensures ok && hold.Some? ==> At(h.fs, hold.value).Some?
    ensures Untouched(old(h.fs), h.fs, h.clock, cfg, live, KeptBy(old(h.fs), live, keep, None), keep)
    ensures ok && h.failures == old(h.failures) ==> NoTemps(h.fs)
    ensures ok && h.failures == old(h.failures) ==>
              DueGone(old(h.fs), old(h.clock), cfg, live, KeptBy(old(h.fs), live, keep, None), h.fs)
    ensures ok && h.failures == old(h.failures) ==> StrandedGone(old(h.fs), old(h.clock), cfg, live, h.fs)
    ensures h.reliable ==> ok
  {
    ghost var before, earlier, since := h.fs, h.visited, h.clock;
    ok, hold := UnderLock(h, cfg, live, keep, holdFor);
    ghost var locked, mid := h.visited, h.fs;
    if ok {
      AfterLock(h, cfg, live, before, earlier, since, keep);
      AfterTheSweep(before, mid, h.fs, since, cfg, live, KeptBy(before, live, keep, None), hold);
      if At(h.fs, DISK).Some? {
        ProvedLater(locked, h.visited, Record, since);
      }
      var refused := h.Refuses();
      ok := !refused;
    }
  }

  lemma LaterStill(visited: set<Fs>, until: set<Fs>, earlier: set<Fs>, before: Fs, mid: Fs, after: Fs, cfg: Config)
    requires QuietSince(until, earlier, before, cfg) && Quiet(before, mid, cfg) && Retains(before, mid, cfg.keepN)
    requires QuietSince(visited, until, mid, cfg) && Quiet(mid, after, cfg)
    requires forall p: Path :: p.Backup? ==> At(after, p) == At(mid, p)
    ensures QuietSince(visited, earlier, before, cfg) && Quiet(before, after, cfg) && Retains(before, after, cfg.keepN)
  {
  }

  method Withdraw(h: Host, cfg: Config, live: set<Proc>, ghost before: Fs, ghost earlier: set<Fs>, ghost keep: Option<Path>,
                  hold: Path)
    requires h.Valid() && cfg.Valid()
    requires keep.Some? && hold.Keep? && hold.image == keep.value && hold.holder.Builder?
    requires Untouched(before, h.fs, h.clock, cfg, live, KeptBy(before, live, keep, None), keep)
    requires QuietSince(h.visited, earlier, before, cfg) && Quiet(before, h.fs, cfg) && Retains(before, h.fs, cfg.keepN)
    modifies h
    ensures h.Valid() && h.clock >= old(h.clock) && h.failures >= old(h.failures) && h.refusals == old(h.refusals) && h.asked == old(h.asked)
    ensures Quiet(before, h.fs, cfg) && QuietSince(h.visited, earlier, before, cfg) && Retains(before, h.fs, cfg.keepN)
    ensures h.failures == old(h.failures) ==> At(h.fs, hold) == None
    ensures forall p :: p != hold ==> At(h.fs, p) == At(old(h.fs), p)
    ensures Untouched(before, h.fs, h.clock, cfg, live, KeptBy(before, live, keep, None), keep)
  {
    var removed := h.Rm(hold);
    OneStill(old(h.fs), h.fs, cfg);
    Withdrawn(before, old(h.fs), h.fs, old(h.clock), h.clock, cfg, live, keep, hold);
    LaterStill(h.visited, old(h.visited), earlier, before, old(h.fs), h.fs, cfg);
  }

  lemma Withdrawn(before: Fs, mid: Fs, after: Fs, earlier: nat, now: nat, cfg: Config, live: set<Proc>, keep: Option<Path>, hold: Path)
    requires keep.Some? && hold.Keep? && hold.image == keep.value && hold.holder.Builder? && earlier <= now
    requires Untouched(before, mid, earlier, cfg, live, KeptBy(before, live, keep, None), keep)
    requires forall p :: p != hold ==> At(after, p) == At(mid, p)
    ensures Untouched(before, after, now, cfg, live, KeptBy(before, live, keep, None), keep)
  {
  }

  lemma SweptLater(before: Fs, mid: Fs, after: Fs, earlier: nat, now: nat, cfg: Config, live: set<Proc>, kept: set<Path>, keep: Option<Path>)
    requires earlier <= now && Untouched(before, mid, earlier, cfg, live, kept, keep)
    requires forall p :: At(after, p) == At(mid, p) || (Stranded(mid, p, now, cfg, live) && At(after, p) == None)
    ensures Untouched(before, after, now, cfg, live, kept, keep)
  {
  }
}
