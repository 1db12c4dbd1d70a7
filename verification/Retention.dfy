/** What the images store keeps: the newest backups, whatever is held or named, and nothing a
    retention clock has run out on. */
module Retention {
  import opened Options
  import opened Host
  import opened Chain

  /** What the glob `golden-base.*.qcow2` in the backup directory matches. */
  predicate InGlob(p: Path) {
    p.Backup? || p.Image?
  }

  predicate LivePid(live: set<Proc>, pid: nat) {
    exists q :: q in live && q.pid == pid
  }

  /** An operator's hold counts until it is removed, a builder's for as long as that process lives. */
  predicate Counts(holder: Holder, live: set<Proc>) {
    match holder
    case Operator => true
    case Builder(pid, start) => start.Some? && Proc(pid, start.value) in live
  }

  /** The images some hold keeps out of every prune. */
  function Held(fs: Fs, live: set<Proc>): set<Path> {
    set k | k in fs && k.Keep? && InGlob(k.image) && Counts(k.holder, live) :: k.image
  }

  function Backups(fs: Fs): set<Path> {
    set p | p in fs && p.Backup?
  }

  /** Older by modification time, the name deciding a tie. */
  predicate Older(fs: Fs, a: Path, b: Path)
    requires a.Backup? && b.Backup?
  {
    Mtime(fs, a) < Mtime(fs, b) || (Mtime(fs, a) == Mtime(fs, b) && a.stamp < b.stamp)
  }

  predicate AllBackups(s: set<Path>) {
    forall p :: p in s ==> p.Backup?
  }

  function NewerThan(fs: Fs, among: set<Path>, b: Path): set<Path>
    requires AllBackups(among) && b.Backup?
  {
    set q | q in among && Older(fs, b, q)
  }

  /** The `n` newest backups, plus the kept ones. */
  function Retained(fs: Fs, among: set<Path>, n: nat, kept: set<Path>): set<Path>
    requires AllBackups(among)
  {
    set b | b in among && (|NewerThan(fs, among, b)| < n || b in kept)
  }

  predicate Expired(fs: Fs, p: Path, now: nat, cfg: Config, live: set<Proc>) {
    && p.Image?
    && 0 < Mtime(fs, p) < now - cfg.candidateKeep
    && !(p.kind.RebakeSource? && LivePid(live, p.kind.pid))
  }

  predicate Orphaned(fs: Fs, p: Path, now: nat, cfg: Config) {
    p.Sidecar? && InGlob(p.image) && At(fs, p.image) == None && 0 < Mtime(fs, p) < now - cfg.hour
  }

  /** A marker that an hour and a later record have made useless. */
  predicate Superseded(fs: Fs, p: Path, now: nat, cfg: Config) {
    p.Marker? && At(fs, Record).Some? && 0 < Mtime(fs, p) < now - cfg.hour && Mtime(fs, p) < Mtime(fs, Record)
  }

  /** Everything but `p` in `doomed` is as it was, and what is in `doomed` is as it was or gone. */
  ghost predicate Thinned(before: Fs, doomed: set<Path>, after: Fs) {
    forall p :: At(after, p) == At(before, p) || (p in doomed && At(after, p) == None)
  }

  /** The bases are as in `a`, and no backup changed except by going. */
  ghost predicate Shrunk(a: Fs, x: Fs) {
    && At(x, DISK) == At(a, DISK)
    && At(x, RAM) == At(a, RAM)
    && forall s :: At(x, Backup(s)).Some? ==> At(x, Backup(s)) == At(a, Backup(s))
  }

  // ---- the depth survives a prune

  /** Removing markers older than the record, and nothing else the depth is read from, leaves it as it reads. */
  lemma ThinningKeepsChain(before: Fs, after: Fs, cfg: Config)
    requires cfg.Valid()
    requires At(after, Record) == At(before, Record) && At(after, Mirror) == At(before, Mirror)
    requires forall p: Path :: p.Marker? ==>
               || At(after, p) == At(before, p)
               || (At(after, p) == None && At(before, Record).Some? && Mtime(before, p) < Mtime(before, Record))
    ensures ChainLength(after, cfg) == ChainLength(before, cfg)
  {
    MarkerCopyIsNewest(before, cfg);
    MarkerCopyIsNewest(after, cfg);
    if Markers(before) != {} {
      var g := cfg.glob(NewestMarkers(before));
      assert g in NewestMarkers(before) && g in before;
      if At(before, Record).Some? && Mtime(before, g) < Mtime(before, Record) {
        if Markers(after) != {} {
          var k := cfg.glob(NewestMarkers(after));
          assert k in NewestMarkers(after) && At(after, k).Some?;
          assert At(after, k) == At(before, k);
        }
      } else {
        SameNewest(before, after, cfg, g);
      }
    } else {
      assert forall p: Path :: p.Marker? && At(before, p).Some? ==> p in Markers(before);
      assert forall p :: p in Markers(after) ==> At(after, p).Some?;
    }
  }

  /** When the newest marker stays, the newest markers stay. */
  lemma SameNewest(before: Fs, after: Fs, cfg: Config, g: Path)
    requires cfg.Valid() && g in NewestMarkers(before)
    requires forall p: Path :: p.Marker? ==>
               At(after, p) == At(before, p) || (At(after, p) == None && Mtime(before, p) < Mtime(before, g))
    ensures MarkerCopy(after, cfg) == MarkerCopy(before, cfg)
  {
    assert At(after, g) == At(before, g);
    forall p
      ensures p in NewestMarkers(before) <==> p in NewestMarkers(after)
    {
      if p in NewestMarkers(before) {
        assert Mtime(before, g) <= Mtime(before, p);
        assert At(after, p) == At(before, p);
        forall q | q in Markers(after)
          ensures Mtime(after, q) <= Mtime(after, p)
        {
          assert At(after, q) == At(before, q);
          assert q in Markers(before);
        }
      } else if p in Markers(after) {
        assert At(after, p) == At(before, p);
        assert p in Markers(before);
        assert g in Markers(after);
      }
    }
    assert NewestMarkers(before) == NewestMarkers(after);
    var k := cfg.glob(NewestMarkers(before));
    assert k in NewestMarkers(before) && k in NewestMarkers(after);
    assert At(after, k) == At(before, k);
  }

  /** What a removal may take without the depth reading differently: no base, no copy of the depth but markers
      older than the record. */
  ghost predicate Removable(fs: Fs, doomed: set<Path>) {
    forall p :: p in doomed ==>
      !p.Base? && p != Record && p != Mirror && (p.Marker? ==> At(fs, Record).Some? && Mtime(fs, p) < Mtime(fs, Record))
  }

  /** The bases and the depth are as in `a`, and no backup changed except by going. */
  ghost predicate Quiet(a: Fs, x: Fs, cfg: Config) {
    Shrunk(a, x) && ChainLength(x, cfg) == ChainLength(a, cfg)
  }

  ghost predicate QuietSince(visited: set<Fs>, earlier: set<Fs>, a: Fs, cfg: Config) {
    forall x :: x in visited && x !in earlier ==> Quiet(a, x, cfg)
  }

  lemma QuietFurther(visited: set<Fs>, until: set<Fs>, earlier: set<Fs>, a: Fs, b: Fs, cfg: Config)
    requires QuietSince(until, earlier, a, cfg) && QuietSince(visited, until, b, cfg) && Quiet(a, b, cfg)
    ensures QuietSince(visited, earlier, a, cfg)
  {
  }

  /** Steps that leave bases, backups and every copy of the depth alone. */
  lemma StillIsQuiet(visited: set<Fs>, earlier: set<Fs>, a: Fs, cfg: Config)
    requires cfg.Valid() && StillSince(visited, earlier, a)
    ensures QuietSince(visited, earlier, a, cfg)
  {
    forall x | x in visited && x !in earlier
      ensures Quiet(a, x, cfg)
    {
      SameDepthReads(a, x, cfg);
    }
  }

  lemma OneStill(a: Fs, b: Fs, cfg: Config)
    requires cfg.Valid() && Still(a, b)
    ensures Quiet(a, b, cfg)
  {
    SameDepthReads(a, b, cfg);
  }

  lemma ThinnedIsQuiet(a: Fs, doomed: set<Path>, x: Fs, cfg: Config)
    requires cfg.Valid() && Thinned(a, doomed, x) && Removable(a, doomed)
    ensures Quiet(a, x, cfg)
  {
    ThinningKeepsChain(a, x, cfg);
  }

  ghost predicate ThinnedSince(visited: set<Fs>, earlier: set<Fs>, a: Fs, doomed: set<Path>) {
    forall x :: x in visited && x !in earlier ==> Thinned(a, doomed, x)
  }

  lemma ThinnedStates(visited: set<Fs>, earlier: set<Fs>, a: Fs, doomed: set<Path>, cfg: Config)
    requires cfg.Valid() && ThinnedSince(visited, earlier, a, doomed) && Removable(a, doomed)
    ensures QuietSince(visited, earlier, a, cfg)
  {
    forall x | x in visited && x !in earlier
      ensures Quiet(a, x, cfg)
    {
      ThinnedIsQuiet(a, doomed, x, cfg);
    }
  }

  method RemoveAll(h: Host, ghost cfg: Config, doomed: set<Path>)
    requires h.Valid() && cfg.Valid() && Removable(h.fs, doomed)
    modifies h
    ensures h.Valid() && h.clock >= old(h.clock) && h.failures >= old(h.failures) && h.refusals == old(h.refusals) && h.asked == old(h.asked) && old(h.visited) <= h.visited
    ensures h.reliable ==> h.failures == old(h.failures)
    ensures Thinned(old(h.fs), doomed, h.fs)
    ensures QuietSince(h.visited, old(h.visited), old(h.fs), cfg) && Quiet(old(h.fs), h.fs, cfg)
    ensures h.failures == old(h.failures) ==> forall p :: p in doomed ==> At(h.fs, p) == None
  {
    var todo := doomed;
    while todo != {}
      invariant todo <= doomed
      invariant h.Valid() && h.clock >= old(h.clock) && h.failures >= old(h.failures) && h.refusals == old(h.refusals) && h.asked == old(h.asked) && old(h.visited) <= h.visited
      invariant h.reliable ==> h.failures == old(h.failures)
      invariant Thinned(old(h.fs), doomed, h.fs) && ThinnedSince(h.visited, old(h.visited), old(h.fs), doomed)
      invariant h.failures == old(h.failures) ==> forall p :: p in doomed - todo ==> At(h.fs, p) == None
      decreases todo
    {
      var p :| p in todo;
      var ok := h.Rm(p);
      todo := todo - {p};
    }
    ThinnedIsQuiet(old(h.fs), doomed, h.fs, cfg);
    ThinnedStates(h.visited, old(h.visited), old(h.fs), doomed, cfg);
  }

  /** The holds that count; a builder's hold whose process is gone is removed on the way. */
  method HeldBackups(h: Host, cfg: Config, live: set<Proc>) returns (held: set<Path>)
    requires h.Valid() && cfg.Valid()
    modifies h
    ensures h.Valid() && h.clock >= old(h.clock) && h.failures >= old(h.failures) && h.refusals == old(h.refusals) && h.asked == old(h.asked)
    ensures h.reliable ==> h.failures == old(h.failures)
    ensures held == Held(old(h.fs), live)
    ensures QuietSince(h.visited, old(h.visited), old(h.fs), cfg) && Quiet(old(h.fs), h.fs, cfg)
    ensures forall p :: At(h.fs, p) == At(old(h.fs), p)
                        || (p.Keep? && InGlob(p.image) && !Counts(p.holder, live) && At(h.fs, p) == None)
    ensures h.failures == old(h.failures) ==> forall p: Path :: p.Keep? && InGlob(p.image) && !Counts(p.holder, live) ==> At(h.fs, p) == None
  {
    held := Held(h.fs, live);
    RemoveAll(h, cfg, set k | k in h.fs && k.Keep? && InGlob(k.image) && !Counts(k.holder, live));
  }

  // ---- the order of the backups

  /** Oldest first, each backup once. */
  ghost predicate Sorted(fs: Fs, s: seq<Path>) {
    && (forall i :: 0 <= i < |s| ==> s[i].Backup?)
    && forall i, j :: 0 <= i < j < |s| ==> Older(fs, s[i], s[j])
  }

  method SortBackups(fs: Fs, baks: set<Path>) returns (s: seq<Path>)
    requires AllBackups(baks)
    ensures Sorted(fs, s)
    ensures forall p :: p in baks <==> p in s
  {
    s := [];
    var todo := baks;
    while todo != {}
      invariant todo <= baks
      invariant Sorted(fs, s)
      invariant forall p :: p in baks <==> p in s || p in todo
      invariant forall i, q :: 0 <= i < |s| && q in todo ==> Older(fs, q, s[i])
      decreases todo
    {
      var p :| p in todo;
      var seen, rest := {p}, todo - {p};
      while rest != {}
        invariant p in seen && seen + rest == todo
        invariant forall q :: q in seen && q != p ==> Older(fs, q, p)
        decreases rest
      {
        var q :| q in rest;
        seen, rest := seen + {q}, rest - {q};
        assert p == Backup(p.stamp) && q == Backup(q.stamp);
        if Older(fs, p, q) {
          p := q;
        }
      }
      s := [p] + s;
      todo := todo - {p};
    }
  }

  /** In a sorted listing, exactly the ones further along are newer. */
  lemma NewerAreLater(fs: Fs, s: seq<Path>, baks: set<Path>, i: nat)
    requires AllBackups(baks) && Sorted(fs, s) && i < |s|
    requires forall p :: p in baks <==> p in s
    ensures |NewerThan(fs, baks, s[i])| == |s| - 1 - i
  {
    var later := set j | i < j < |s| :: s[j];
    forall q
      ensures q in NewerThan(fs, baks, s[i]) <==> q in later
    {
      if q in NewerThan(fs, baks, s[i]) {
        var j :| 0 <= j < |s| && s[j] == q;
      }
    }
    assert NewerThan(fs, baks, s[i]) == later;
    LaterCount(fs, s, i);
  }

  lemma {:induction false} LaterCount(fs: Fs, s: seq<Path>, i: nat)
    requires Sorted(fs, s) && i < |s|
    ensures |set j | i < j < |s| :: s[j]| == |s| - 1 - i
    decreases |s| - i
  {
    var later := set j | i < j < |s| :: s[j];
    if i + 1 < |s| {
      LaterCount(fs, s, i + 1);
      var rest := set j | i + 1 < j < |s| :: s[j];
      assert later == {s[i + 1]} + rest;
    } else {
      assert later == {};
    }
  }

  // ---- the prune

  /** What a prune at `now` may remove, from the stores as it found them: images past their
      retention, sidecars of no image, superseded markers, backups, and the holds of dead builders. */
  predicate Prunable(fs: Fs, p: Path, now: nat, cfg: Config, live: set<Proc>) {
    || Expired(fs, p, now, cfg, live)
    || (p.Sidecar? && InGlob(p.image) && 0 < Mtime(fs, p) < now - cfg.hour)
    || Superseded(fs, p, now, cfg)
    || p.Backup?
    || (p.Keep? && !Counts(p.holder, live))
  }

  /** What a prune at `now` has to remove, the surplus backups aside. */
  predicate Due(fs: Fs, p: Path, now: nat, cfg: Config, live: set<Proc>, kept: set<Path>) {
    || (p !in kept && (Expired(fs, p, now, cfg, live) || Orphaned(fs, p, now, cfg)))
    || Superseded(fs, p, now, cfg)
    || (p.Keep? && InGlob(p.image) && !Counts(p.holder, live))
  }

  /** What a prune was told to leave, and what the holds it read leave. */
  function KeptBy(fs: Fs, live: set<Proc>, keep: Option<Path>, alsoKeep: Option<Path>): set<Path> {
    (if keep.Some? then {keep.value, SidecarOf(keep.value)} else {})
    + (if alsoKeep.Some? then {alsoKeep.value} else {})
    + Held(fs, live)
  }

  /** The sidecar of an image that is still there is as it was. */
  ghost predicate SidecarsStay(before: Fs, after: Fs) {
    forall p: Path :: p.Sidecar? && At(after, p.image).Some? ==> At(after, p) == At(before, p)
  }

  method PruneImages(h: Host, cfg: Config, live: set<Proc>, kept: set<Path>)
    requires h.Valid() && cfg.Valid()
    modifies h
    ensures h.Valid() && h.clock >= old(h.clock) && h.failures >= old(h.failures) && h.refusals == old(h.refusals) && h.asked == old(h.asked)
    ensures h.reliable ==> h.failures == old(h.failures)
    ensures QuietSince(h.visited, old(h.visited), old(h.fs), cfg) && Quiet(old(h.fs), h.fs, cfg)
    ensures forall p :: At(h.fs, p) == At(old(h.fs), p)
                        || (p !in kept && At(h.fs, p) == None
                            && (Expired(old(h.fs), p, h.clock, cfg, live)
                                || (p.Sidecar? && InGlob(p.image) && 0 < Mtime(old(h.fs), p) < h.clock - cfg.hour)))
    ensures SidecarsStay(old(h.fs), h.fs)
    ensures h.failures == old(h.failures) ==>
              forall p :: p !in kept && (Expired(old(h.fs), p, old(h.clock), cfg, live) || Orphaned(old(h.fs), p, old(h.clock), cfg)) ==>
                At(h.fs, p) == None
  {
    RemoveAll(h, cfg, set p | p in h.fs && Expired(h.fs, p, h.clock, cfg, live) && p !in kept);
    ghost var imaged := h.fs;
    RemoveAll(h, cfg, set p | p in h.fs && Orphaned(h.fs, p, h.clock, cfg) && p !in kept);
    forall p: Path | p.Sidecar? && At(h.fs, p.image).Some?
      ensures At(h.fs, p) == At(old(h.fs), p)
    {
      assert At(imaged, p.image).Some? && At(imaged, p) == At(old(h.fs), p);
    }
  }

  method PruneMarkers(h: Host, cfg: Config)
    requires h.Valid() && cfg.Valid()
    modifies h
    ensures h.Valid() && h.clock >= old(h.clock) && h.failures >= old(h.failures) && h.refusals == old(h.refusals) && h.asked == old(h.asked)
    ensures h.reliable ==> h.failures == old(h.failures)
    ensures QuietSince(h.visited, old(h.visited), old(h.fs), cfg) && Quiet(old(h.fs), h.fs, cfg)
    ensures forall p :: At(h.fs, p) == At(old(h.fs), p) || (Superseded(old(h.fs), p, h.clock, cfg) && At(h.fs, p) == None)
    ensures h.failures == old(h.failures) ==> forall p :: Superseded(old(h.fs), p, old(h.clock), cfg) ==> At(h.fs, p) == None
  {
    RemoveAll(h, cfg, set p | p in h.fs && Superseded(h.fs, p, h.clock, cfg));
  }

  /** The count prune: oldest first until only the `keepN` newest and the kept ones are left. */
  method PruneCount(h: Host, cfg: Config, kept: set<Path>)
    requires h.Valid() && cfg.Valid()
    modifies h
    ensures h.Valid() && h.clock >= old(h.clock) && h.failures >= old(h.failures) && h.refusals == old(h.refusals) && h.asked == old(h.asked)
    ensures h.reliable ==> h.failures == old(h.failures)
    ensures QuietSince(h.visited, old(h.visited), old(h.fs), cfg) && Quiet(old(h.fs), h.fs, cfg)
    ensures forall p :: At(h.fs, p) == At(old(h.fs), p) || (p.Backup? && p !in kept && At(h.fs, p) == None)
    ensures Retained(old(h.fs), Backups(old(h.fs)), cfg.keepN, kept) <= Backups(h.fs)
    ensures h.failures == old(h.failures) ==> Backups(h.fs) == Retained(old(h.fs), Backups(old(h.fs)), cfg.keepN, kept)
  {
    var baks := SortBackups(h.fs, Backups(h.fs));
    var excess := if |baks| < cfg.keepN then [] else baks[..|baks| - cfg.keepN];
    var doomed := set p | p in excess && p !in kept;
    assert doomed == Backups(h.fs) - Retained(h.fs, Backups(h.fs), cfg.keepN, kept) by {
      ExcessIsOld(h.fs, baks, cfg.keepN, kept, excess);
    }
    RemoveAll(h, cfg, doomed);
    forall p: Path
      ensures p in Backups(h.fs) <==> p.Backup? && At(h.fs, p).Some?
      ensures p in Backups(old(h.fs)) <==> p.Backup? && At(old(h.fs), p).Some?
    {
    }
  }

  /** Cutting a sorted listing `n` from its end leaves the `n` newest. */
  lemma ExcessIsOld(fs: Fs, s: seq<Path>, n: nat, kept: set<Path>, excess: seq<Path>)
    requires Sorted(fs, s) && forall p :: p in Backups(fs) <==> p in s
    requires excess == if |s| < n then [] else s[..|s| - n]
    ensures (set p | p in excess && p !in kept) == Backups(fs) - Retained(fs, Backups(fs), n, kept)
  {
    forall p
      ensures p in excess && p !in kept <==> p in Backups(fs) && p !in Retained(fs, Backups(fs), n, kept)
    {
      if p in s {
        var i :| 0 <= i < |s| && s[i] == p;
        NewerAreLater(fs, s, Backups(fs), i);
        if i < |excess| {
          assert excess[i] == p;
        } else {
          assert forall j :: 0 <= j < |excess| ==> Older(fs, s[j], s[i]);
        }
      }
    }
  }

  /** Everything but the count prune. */
  method PruneAged(h: Host, cfg: Config, live: set<Proc>, kept: set<Path>)
    requires h.Valid() && cfg.Valid() && Held(h.fs, live) <= kept
    modifies h
    ensures h.Valid() && h.clock >= old(h.clock) && h.failures >= old(h.failures) && h.refusals == old(h.refusals) && h.asked == old(h.asked)
    ensures h.reliable ==> h.failures == old(h.failures)
    ensures QuietSince(h.visited, old(h.visited), old(h.fs), cfg) && Quiet(old(h.fs), h.fs, cfg)
    ensures forall p :: At(h.fs, p) == At(old(h.fs), p)
                        || (!p.Backup? && Prunable(old(h.fs), p, h.clock, cfg, live)
                            && (p.Image? || p.Sidecar? ==> p !in kept) && At(h.fs, p) == None)
    ensures SidecarsStay(old(h.fs), h.fs)
    ensures h.failures == old(h.failures) ==> forall p :: Due(old(h.fs), p, old(h.clock), cfg, live, kept) ==> At(h.fs, p) == None
  {
    ghost var earlier, before := h.visited, h.fs;
    var held := HeldBackups(h, cfg, live);
    ghost var seen1, once := h.visited, h.fs;
    PruneImages(h, cfg, live, kept);
    ghost var seen2, twice := h.visited, h.fs;
    QuietFurther(seen2, seen1, earlier, before, once, cfg);
    PruneMarkers(h, cfg);
    QuietFurther(h.visited, seen2, earlier, before, twice, cfg);
  }

  /** The contract of a prune: what goes was prunable and not kept, what is held or named stays,
      and when every removal succeeded the backups are exactly the retained ones. */
  ghost predicate Pruned(before: Fs, after: Fs, now: nat, cfg: Config, live: set<Proc>, kept: set<Path>, clean: bool) {
    && (forall p :: At(after, p) == At(before, p)
                    || (Prunable(before, p, now, cfg, live) && (p.Image? || p.Sidecar? || p.Backup? ==> p !in kept) && At(after, p) == None))
    && SidecarsStay(before, after)
    && Retained(before, Backups(before), cfg.keepN, kept) <= Backups(after)
    && (clean ==> Backups(after) == Retained(before, Backups(before), cfg.keepN, kept))
  }

  /** The retained backups depend on the backups alone. */
  lemma SameBackups(a: Fs, b: Fs, n: nat, kept: set<Path>)
    requires forall p: Path :: p.Backup? ==> At(a, p) == At(b, p)
    ensures Backups(a) == Backups(b)
    ensures Retained(a, Backups(a), n, kept) == Retained(b, Backups(b), n, kept)
  {
    forall p
      ensures p in Backups(a) <==> p in Backups(b)
    {
      if p.Backup? {
        assert At(a, p) == At(b, p);
      }
    }
    assert Backups(a) == Backups(b);
    forall p | p in Backups(a)
      ensures NewerThan(a, Backups(a), p) == NewerThan(b, Backups(b), p)
    {
      forall q | q in Backups(a)
        ensures Older(a, p, q) == Older(b, p, q)
      {
        assert At(a, p) == At(b, p) && At(a, q) == At(b, q);
      }
    }
  }

  /** The backups are as they were, but for surplus ones that went. */
  ghost predicate Retains(before: Fs, after: Fs, n: nat) {
    forall p: Path :: p.Backup? ==>
      At(after, p) == At(before, p) || (At(after, p) == None && p !in Retained(before, Backups(before), n, {}))
  }

  /** A prune retains, seen from any earlier state with the same backups and to any later one. */
  lemma PruneRetains(before: Fs, held: Fs, pruned: Fs, after: Fs, now: nat, cfg: Config, live: set<Proc>, kept: set<Path>, clean: bool)
    requires forall p: Path :: p.Backup? ==> At(held, p) == At(before, p) && At(after, p) == At(pruned, p)
    requires Pruned(held, pruned, now, cfg, live, kept, clean)
    ensures Retains(before, after, cfg.keepN)
  {
    SameBackups(before, held, cfg.keepN, {});
    forall p: Path | p.Backup? && At(after, p) != At(before, p)
      ensures At(after, p) == None && p !in Retained(before, Backups(before), cfg.keepN, {})
    {
      assert At(pruned, p) == None && p !in Backups(pruned);
      assert p !in Retained(held, Backups(held), cfg.keepN, kept);
    }
  }

  /** The two halves of a prune make a prune. */
  lemma AgedThenCounted(before: Fs, aged: Fs, after: Fs, agedAt: nat, now: nat, cfg: Config, live: set<Proc>, kept: set<Path>, clean: bool)
    requires cfg.Valid() && agedAt <= now
    requires forall p :: At(aged, p) == At(before, p)
                         || (!p.Backup? && Prunable(before, p, agedAt, cfg, live)
                             && (p.Image? || p.Sidecar? ==> p !in kept) && At(aged, p) == None)
    requires SidecarsStay(before, aged)
    requires forall p :: At(after, p) == At(aged, p) || (p.Backup? && p !in kept && At(after, p) == None)
    requires Retained(aged, Backups(aged), cfg.keepN, kept) <= Backups(after)
    requires clean ==> Backups(after) == Retained(aged, Backups(aged), cfg.keepN, kept)
    ensures Pruned(before, after, now, cfg, live, kept, clean)
    ensures ChainLength(after, cfg) == ChainLength(aged, cfg)
  {
    SameBackups(before, aged, cfg.keepN, kept);
    ThinningKeepsChain(aged, after, cfg);
    forall p
      ensures At(after, p) == At(before, p)
              || (Prunable(before, p, now, cfg, live) && (p.Image? || p.Sidecar? || p.Backup? ==> p !in kept) && At(after, p) == None)
    {
      assert At(aged, p) == At(before, p) || At(aged, p) == None;
    }
  }

  // ---- the same in dates

  /** What has run out at `at`, in dates: an image once its retention has passed, unless it is a live builder's source copy;
      a sidecar after an hour; a marker after an hour if the record is later; a builder's hold when that process is gone. */
  ghost predicate RunOut(fs: Fs, p: Path, at: nat, cfg: Config, live: set<Proc>) {
    match p
    case Image(kind, _) =>
      && 0 < Mtime(fs, p) && Mtime(fs, p) + cfg.candidateKeep < at
      && (kind.RebakeSource? ==> forall q :: q in live ==> q.pid != kind.pid)
    case Sidecar(image) => (image.Image? || image.Backup?) && 0 < Mtime(fs, p) && Mtime(fs, p) + cfg.hour < at
    case Marker(_) =>
      0 < Mtime(fs, p) && Mtime(fs, p) + cfg.hour < at && At(fs, Record).Some? && Mtime(fs, p) < Mtime(fs, Record)
    case Keep(_, _, holder) => holder.Builder? && (holder.start.Some? ==> Proc(holder.pid, holder.start.value) !in live)
    case _ => false
  }

  /** A prune at `now` leaves what has not run out, surplus backups aside. */
  ghost predicate SparedByDate(before: Fs, after: Fs, now: nat, cfg: Config, live: set<Proc>) {
    forall p: Path :: !p.Backup? && !RunOut(before, p, now, cfg, live) ==> At(after, p) == At(before, p)
  }

  /** A prune that began at `since` takes what had run out, but for what it was told to keep and the sidecars of images
      that are there. */
  ghost predicate TakenByDate(before: Fs, after: Fs, since: nat, cfg: Config, live: set<Proc>, kept: set<Path>) {
    forall p :: RunOut(before, p, since, cfg, live) && !Exempt(before, p, kept) ==> At(after, p) == None
  }

  predicate Exempt(fs: Fs, p: Path, kept: set<Path>) {
    match p
    case Image(_, _) => p in kept
    case Sidecar(image) => p in kept || At(fs, image).Some?
    case Keep(_, image, _) => !image.Image? && !image.Backup?
    case _ => false
  }

  lemma PrunedByDate(before: Fs, after: Fs, now: nat, cfg: Config, live: set<Proc>, kept: set<Path>, clean: bool)
    requires Pruned(before, after, now, cfg, live, kept, clean)
    ensures SparedByDate(before, after, now, cfg, live)
  {
    forall p: Path | !p.Backup? && !RunOut(before, p, now, cfg, live)
      ensures !Prunable(before, p, now, cfg, live)
    {
    }
  }

  lemma DueByDate(before: Fs, after: Fs, since: nat, cfg: Config, live: set<Proc>, kept: set<Path>)
    requires forall p :: Due(before, p, since, cfg, live, kept) ==> At(after, p) == None
    ensures TakenByDate(before, after, since, cfg, live, kept)
  {
    forall p | RunOut(before, p, since, cfg, live) && !Exempt(before, p, kept)
      ensures Due(before, p, since, cfg, live, kept)
    {
    }
  }

  /** Whatever is retained for its date, a backup of a later date is too, and of one date the one with the later name. */
  lemma NewerIsRetained(fs: Fs, n: nat, a: nat, b: nat)
    requires Backup(a) in Retained(fs, Backups(fs), n, {}) && At(fs, Backup(b)).Some?
    requires Mtime(fs, Backup(a)) < Mtime(fs, Backup(b)) || (Mtime(fs, Backup(a)) == Mtime(fs, Backup(b)) && a < b)
    ensures Backup(b) in Retained(fs, Backups(fs), n, {})
  {
    var newer, newest := NewerThan(fs, Backups(fs), Backup(a)), NewerThan(fs, Backups(fs), Backup(b));
    assert newest <= newer;
    Fewer(newest, newer);
  }

  lemma {:induction false} Fewer<T>(a: set<T>, b: set<T>)
    requires a <= b
    ensures |a| <= |b|
  {
    if a != {} {
      var x :| x in a;
      Fewer(a - {x}, b - {x});
    }
  }

  method Prune(h: Host, cfg: Config, live: set<Proc>, keep: Option<Path>, alsoKeep: Option<Path>)
    requires h.Valid() && cfg.Valid()
    modifies h
    ensures h.Valid() && h.clock >= old(h.clock) && h.failures >= old(h.failures) && h.refusals == old(h.refusals) && h.asked == old(h.asked)
    ensures h.reliable ==> h.failures == old(h.failures)
    ensures QuietSince(h.visited, old(h.visited), old(h.fs), cfg) && Quiet(old(h.fs), h.fs, cfg)
    ensures Pruned(old(h.fs), h.fs, h.clock, cfg, live, KeptBy(old(h.fs), live, keep, alsoKeep), h.failures == old(h.failures))
    ensures h.failures == old(h.failures) ==>
              forall p :: Due(old(h.fs), p, old(h.clock), cfg, live, KeptBy(old(h.fs), live, keep, alsoKeep)) ==> At(h.fs, p) == None
    ensures SparedByDate(old(h.fs), h.fs, h.clock, cfg, live)
    ensures h.failures == old(h.failures) ==> TakenByDate(old(h.fs), h.fs, old(h.clock), cfg, live, KeptBy(old(h.fs), live, keep, alsoKeep))
    ensures ChainLength(h.fs, cfg) == ChainLength(old(h.fs), cfg)
  {
    var kept := KeptBy(h.fs, live, keep, alsoKeep);
    PruneAged(h, cfg, live, kept);
    ghost var aged, seen, agedAt, failed := h.fs, h.visited, h.clock, h.failures;
    PruneCount(h, cfg, kept);
    QuietFurther(h.visited, seen, old(h.visited), old(h.fs), aged, cfg);
    AgedThenCounted(old(h.fs), aged, h.fs, agedAt, h.clock, cfg, live, kept, h.failures == failed);
    PrunedByDate(old(h.fs), h.fs, h.clock, cfg, live, kept, h.failures == failed);
    if h.failures == old(h.failures) {
      DueByDate(old(h.fs), h.fs, old(h.clock), cfg, live, kept);
    }
  }
}
