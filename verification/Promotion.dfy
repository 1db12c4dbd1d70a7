/** Promoting a candidate to the disk twin and the RAM base: two checked copies, a checked backup,
    two renames, and a rollback when the second rename fails. */
module Promotion {
  import opened Options
  import opened Host

  /** How a promotion ends: `Broken` is an exception other than the two the callers judge by name. */
  datatype Outcome =
    | Published
    | NothingPublished
    | Split(backup: Option<Path>, mark: Option<Path>)
    | Broken

  datatype BackupResult = NoGolden | Taken(path: Path) | Refused | BackupBroken

  /** The temporaries a killed rotation or a killed pool start can strand. */
  predicate Sweepable(p: Path) {
    p.RotTmp? || p.PoolTmp? || p.Part?
  }

  /** No temporary that was not there before, and none of `tmps`. */
  ghost predicate NoTempsLeft(before: Fs, tmps: seq<Path>, after: Fs) {
    forall p :: Sweepable(p) && At(after, p).Some? ==> At(before, p).Some? && p !in tmps
  }

  /** Every path a promotion at `stamp` may write. */
  predicate Touched(p: Path, stamp: nat) {
    p.Base? || Sweepable(p) || p == Backup(stamp) || (p.Keep? && p.image == Backup(stamp) && p.holder == Operator)
  }

  /** What a reader finds if the rotation is killed here: each base is wholly the old image or
      wholly the candidate, the RAM base is never new under an old disk twin, and a file with a
      backup's name is one that was there before or a whole copy of the golden that was live. */
  ghost predicate CrashSafe(before: Fs, image: Bytes, mid: Fs) {
    && (|| (Contents(mid, DISK) == Contents(before, DISK) && Contents(mid, RAM) == Contents(before, RAM))
        || (Contents(mid, DISK) == Some(image) && Contents(mid, RAM) == Contents(before, RAM))
        || (Contents(mid, DISK) == Some(image) && Contents(mid, RAM) == Some(image)))
    && forall s :: At(mid, Backup(s)).Some? ==>
                     || At(mid, Backup(s)) == At(before, Backup(s))
                     || (IsFile(before, DISK) && Contents(mid, Backup(s)) == Contents(before, DISK))
  }

  ghost predicate CrashSafeSince(visited: set<Fs>, earlier: set<Fs>, before: Fs, image: Bytes) {
    forall x :: x in visited && x !in earlier ==> CrashSafe(before, image, x)
  }

  /** Steady steps out of a crash-safe state stay crash safe. */
  lemma ThenSteady(earlier: set<Fs>, until: set<Fs>, now: set<Fs>, before: Fs, image: Bytes, mid: Fs)
    requires CrashSafeSince(until, earlier, before, image) && CrashSafe(before, image, mid)
    requires SteadySince(now, until, mid)
    ensures CrashSafeSince(now, earlier, before, image)
  {
    forall x | x in now && x !in earlier
      ensures CrashSafe(before, image, x)
    {
      if x !in until {
        assert forall s :: At(x, Backup(s)) == At(mid, Backup(s));
      }
    }
  }

  /** Two stretches of crash-safe states make one. */
  lemma CrashSafeFurther(earlier: set<Fs>, until: set<Fs>, now: set<Fs>, before: Fs, image: Bytes)
    requires CrashSafeSince(until, earlier, before, image) && CrashSafeSince(now, until, before, image)
    ensures CrashSafeSince(now, earlier, before, image)
  {
  }

  /** A promotion that begins with steady steps is judged from the golden they started with. */
  lemma SteadyThen(earlier: set<Fs>, until: set<Fs>, now: set<Fs>, before: Fs, image: Bytes, mid: Fs)
    requires SteadySince(until, earlier, before) && Steady(before, mid)
    requires CrashSafeSince(now, until, mid, image)
    ensures CrashSafeSince(now, earlier, before, image)
  {
    forall x | x in now && x !in earlier
      ensures CrashSafe(before, image, x)
    {
      if x in until {
        assert Steady(before, x);
      } else {
        assert CrashSafe(mid, image, x);
        assert forall s :: At(mid, Backup(s)) == At(before, Backup(s));
      }
    }
  }

  method SweepOwnTemps(h: Host)
    requires h.Valid()
    modifies h
    ensures h.Valid() && h.clock >= old(h.clock) && h.failures >= old(h.failures) && h.refusals == old(h.refusals) && h.asked == old(h.asked)
    ensures forall p :: !Sweepable(p) ==> At(h.fs, p) == At(old(h.fs), p)
    ensures forall p :: At(h.fs, p).Some? ==> At(h.fs, p) == At(old(h.fs), p)
    ensures h.failures == old(h.failures) ==> forall p :: Sweepable(p) ==> !IsFile(h.fs, p)
    ensures h.failures == old(h.failures) ==> forall p: Path :: p.RotTmp? || p.PoolTmp? || p.Part? ==> !IsFile(h.fs, p)
    ensures forall p: Path :: !p.RotTmp? && !p.PoolTmp? && !p.Part? ==> At(h.fs, p) == At(old(h.fs), p)
    ensures h.strays == old(h.strays)
    ensures Still(old(h.fs), h.fs)
    ensures StillSince(h.visited, old(h.visited), old(h.fs))
  {
    var todo := set p | p in h.fs && Sweepable(p) && h.fs[p].Regular?;
    while todo != {}
      invariant h.Valid() && h.clock >= old(h.clock) && h.failures >= old(h.failures) && h.strays == old(h.strays) && h.refusals == old(h.refusals) && h.asked == old(h.asked)
      invariant forall p :: p in todo ==> Sweepable(p)
      invariant forall p :: !Sweepable(p) ==> At(h.fs, p) == At(old(h.fs), p)
      invariant forall p :: At(h.fs, p).Some? ==> At(h.fs, p) == At(old(h.fs), p)
      invariant h.failures == old(h.failures) ==> forall p :: Sweepable(p) && IsFile(h.fs, p) ==> p in todo
      invariant Still(old(h.fs), h.fs)
      invariant StillSince(h.visited, old(h.visited), old(h.fs))
      decreases todo
    {
      var p :| p in todo;
      var ok := h.Rm(p);
      todo := todo - {p};
    }
  }

  /** `cp`, then return code, size and mode: what passes is every byte of the source. */
  method CheckedCopy(h: Host, src: Path, tmp: Path, want: int) returns (ok: bool)
    requires h.Valid() && tmp.RotTmp?
    modifies h
    ensures h.Valid() && h.clock > old(h.clock) && h.failures == old(h.failures) && h.strays == old(h.strays) && h.refusals >= old(h.refusals) && h.asked == old(h.asked)
    ensures h.reliable ==> h.refusals == old(h.refusals)
    ensures ok ==>
              && src != tmp
              && IsFile(old(h.fs), src)
              && IsFile(h.fs, tmp)
              && h.fs[tmp].data <= old(h.fs)[src].data
              && |h.fs[tmp].data| == want
              && h.fs[tmp].mode == MODE_0644
    ensures forall p :: p != tmp ==> At(h.fs, p) == At(old(h.fs), p)
    ensures Depths(h.fs) == Depths(old(h.fs))
    ensures StillSince(h.visited, old(h.visited), old(h.fs))
    ensures h.refusals == old(h.refusals) && IsFile(old(h.fs), src) && src != tmp && want == |old(h.fs)[src].data| ==> ok
  {
    var rc := h.Cp(src, tmp);
    if rc != 0 || Size(h.fs, tmp) != want {
      return false;
    }
    rc := h.Chmod(tmp);
    ok := rc == 0 && IsFile(h.fs, tmp) && h.fs[tmp].mode == MODE_0644;
  }

  method RemoveTemps(h: Host, tmps: seq<Path>)
    requires h.Valid() && forall i :: 0 <= i < |tmps| ==> tmps[i].RotTmp?
    modifies h
    ensures h.Valid() && h.clock >= old(h.clock) && h.failures >= old(h.failures) && h.refusals == old(h.refusals) && h.asked == old(h.asked)
    ensures forall p: Path :: !p.RotTmp? ==> At(h.fs, p) == At(old(h.fs), p)
    ensures h.strays == old(h.strays)
    ensures h.failures == old(h.failures) ==> NoTempsLeft(old(h.fs), tmps, h.fs)
    ensures Depths(h.fs) == Depths(old(h.fs))
    ensures StillSince(h.visited, old(h.visited), old(h.fs))
  {
    for i := 0 to |tmps|
      invariant h.Valid() && h.clock >= old(h.clock) && h.failures >= old(h.failures) && h.strays == old(h.strays) && h.refusals == old(h.refusals) && h.asked == old(h.asked)
      invariant forall p: Path :: !p.RotTmp? ==> At(h.fs, p) == At(old(h.fs), p)
      invariant h.failures == old(h.failures) ==> NoTempsLeft(old(h.fs), tmps[..i], h.fs)
      invariant Depths(h.fs) == Depths(old(h.fs))
      invariant StillSince(h.visited, old(h.visited), old(h.fs))
    {
      var ok := h.Rm(tmps[i]);
    }
  }

  /** One temporary with a checked copy in it; a temporary whose copy failed is left to the caller. */
  method StageOne(h: Host, side: Side, src: Path, want: int) returns (t: Option<Path>, ok: bool)
    requires h.Valid()
    modifies h
    ensures h.Valid() && h.clock >= old(h.clock) && h.failures == old(h.failures) && h.strays >= old(h.strays) && h.refusals >= old(h.refusals) && h.asked == old(h.asked)
    ensures h.reliable ==> h.refusals == old(h.refusals)
    ensures t.Some? ==>
              && t.value.RotTmp? && t.value.side == side && At(old(h.fs), t.value) == None
              && h.strays == old(h.strays)
              && forall p :: p != t.value ==> At(h.fs, p) == At(old(h.fs), p)
    ensures t == None ==> !ok && (h.strays == old(h.strays) ==> h.fs == old(h.fs))
    ensures forall p: Path :: !p.RotTmp? ==> At(h.fs, p) == At(old(h.fs), p)
    ensures ok ==>
              && IsFile(old(h.fs), src)
              && IsFile(h.fs, t.value)
              && h.fs[t.value].data <= old(h.fs)[src].data
              && |h.fs[t.value].data| == want
              && h.fs[t.value].mode == MODE_0644
    ensures Depths(h.fs) == Depths(old(h.fs))
    ensures StillSince(h.visited, old(h.visited), old(h.fs))
    ensures h.refusals == old(h.refusals) && IsFile(old(h.fs), src) && want == |old(h.fs)[src].data| ==> ok
  {
    t := h.Mktemp(side);
    ok := false;
    if t.Some? {
      assert At(h.fs, src) == At(old(h.fs), src) || src == t.value;
      ok := CheckedCopy(h, src, t.value, want);
    }
  }

  /** Both copies, or none: `staged` holds the disk temporary, then the RAM one. */
  method StageCopies(h: Host, candidate: Path, want: int) returns (staged: seq<Path>)
    requires h.Valid()
    modifies h
    ensures h.Valid() && h.clock >= old(h.clock) && h.failures >= old(h.failures) && h.refusals >= old(h.refusals) && h.asked == old(h.asked)
    ensures h.reliable ==> h.refusals == old(h.refusals)
    ensures staged == [] || |staged| == 2
    ensures h.strays >= old(h.strays)
    ensures staged == [] && h.failures == old(h.failures) && h.strays == old(h.strays) ==> NoTempsLeft(old(h.fs), [], h.fs)
    ensures forall p :: Sweepable(p) && At(h.fs, p).Some? && |staged| == 2 ==> At(old(h.fs), p).Some? || p in staged
    ensures |staged| == 2 ==>
              && staged[0] != staged[1]
              && staged[0].RotTmp? && staged[0].side == DiskSide && staged[1].RotTmp? && staged[1].side == RamSide
              && IsFile(old(h.fs), candidate)
              && forall i :: 0 <= i < 2 ==>
                    && IsFile(h.fs, staged[i])
                    && h.fs[staged[i]].data <= old(h.fs)[candidate].data
                    && |h.fs[staged[i]].data| == want
                    && h.fs[staged[i]].mode == MODE_0644
    ensures forall p: Path :: !p.RotTmp? ==> At(h.fs, p) == At(old(h.fs), p)
    ensures Depths(h.fs) == Depths(old(h.fs))
    ensures StillSince(h.visited, old(h.visited), old(h.fs))
    ensures h.refusals == old(h.refusals) && IsFile(old(h.fs), candidate) && want == |old(h.fs)[candidate].data| ==> |staged| == 2
  {
    var d, ok := StageOne(h, DiskSide, candidate, want);
    var made := if d.Some? then [d.value] else [];
    if ok {
      var r;
      r, ok := StageOne(h, RamSide, candidate, want);
      made := if r.Some? then made + [r.value] else made;
    }
    if ok {
      return made;
    }
    RemoveTemps(h, made);
    return [];
  }

  /** A checked copy of the live golden under a backup's name, or no file under that name. */
  method BackupCurrent(h: Host, stamp: nat) returns (b: BackupResult)
    requires h.Valid()
    modifies h
    ensures h.Valid() && h.clock >= old(h.clock) && h.failures >= old(h.failures) && h.refusals >= old(h.refusals) && old(h.asked) <= h.asked
    ensures h.reliable ==> h.refusals == old(h.refusals)
    ensures b == NoGolden <==> At(old(h.fs), DISK) == None
    ensures b.Taken? ==>
              && b.path == Backup(stamp)
              && IsFile(old(h.fs), DISK)
              && Contents(h.fs, b.path) == Contents(old(h.fs), DISK)
              && old(h.clock) < h.fs[b.path].mtime
    ensures b.BackupBroken? <==> LastAnswer(old(h.asked), h.asked, None)
    ensures LastAnswer(old(h.asked), h.asked, Some(false)) ==> b.Refused?
    ensures b.Taken? || b.NoGolden? ==> h.asked == old(h.asked) + BackupAsks(old(h.fs))
    ensures !b.Taken? ==> At(h.fs, Backup(stamp)) == At(old(h.fs), Backup(stamp))
    ensures h.strays == old(h.strays) && (h.failures == old(h.failures) ==> NoTempsLeft(old(h.fs), [], h.fs))
    ensures forall p :: p != Part(stamp) && p != Backup(stamp) ==> At(h.fs, p) == At(old(h.fs), p)
    ensures forall image :: CrashSafeSince(h.visited, old(h.visited), old(h.fs), image)
    ensures DepthsSince(h.visited, old(h.visited), old(h.fs)) && Depths(h.fs) == Depths(old(h.fs))
    ensures h.refusals == old(h.refusals) && IsFile(old(h.fs), DISK) ==> b.Taken?
  {
    if At(h.fs, DISK) == None {
      return NoGolden;
    }
    var want := Size(h.fs, DISK);
    var room := h.HasRoom(want);
    if room == None {
      return BackupBroken;
    }
    if !room.value {
      return Refused;
    }
    b := TakeBackup(h, stamp, want);
  }

  /** The copy and its name, once there is room. */
  method TakeBackup(h: Host, stamp: nat, want: int) returns (b: BackupResult)
    requires h.Valid() && At(h.fs, DISK).Some? && want == Size(h.fs, DISK)
    modifies h
    ensures h.Valid() && h.clock >= old(h.clock) && h.failures >= old(h.failures) && h.refusals >= old(h.refusals) && h.asked == old(h.asked)
    ensures h.reliable ==> h.refusals == old(h.refusals)
    ensures b.Taken? || b.Refused?
    ensures b.Taken? ==>
              && b.path == Backup(stamp)
              && IsFile(old(h.fs), DISK)
              && Contents(h.fs, b.path) == Contents(old(h.fs), DISK)
              && old(h.clock) < h.fs[b.path].mtime
    ensures !b.Taken? ==> At(h.fs, Backup(stamp)) == At(old(h.fs), Backup(stamp))
    ensures h.strays == old(h.strays) && (h.failures == old(h.failures) ==> NoTempsLeft(old(h.fs), [], h.fs))
    ensures forall p :: p != Part(stamp) && p != Backup(stamp) ==> At(h.fs, p) == At(old(h.fs), p)
    ensures forall image :: CrashSafeSince(h.visited, old(h.visited), old(h.fs), image)
    ensures DepthsSince(h.visited, old(h.visited), old(h.fs)) && Depths(h.fs) == Depths(old(h.fs))
    ensures h.refusals == old(h.refusals) && IsFile(old(h.fs), DISK) ==> b.Taken?
  {
    var whole := CopyToPart(h, stamp, want);
    if !whole {
      return Refused;
    }
    ghost var copied, seen := h.fs, h.visited;
    var named := NamePart(h, stamp);
    assert forall x :: x in h.visited && x !in seen ==> NamedOrNot(copied, stamp, x);
    return if named then Taken(Backup(stamp)) else Refused;
  }

  /** The copy under the backup's name, or still under its own, or removed; nothing else moves. */
  ghost predicate NamedOrNot(a: Fs, stamp: nat, x: Fs) {
    && (At(x, Backup(stamp)) == At(a, Backup(stamp)) || At(x, Backup(stamp)) == At(a, Part(stamp)))
    && Depths(x) == Depths(a)
    && forall p :: p != Part(stamp) && p != Backup(stamp) ==> At(x, p) == At(a, p)
  }

  method NamePart(h: Host, stamp: nat) returns (named: bool)
    requires h.Valid() && IsFile(h.fs, Part(stamp))
    modifies h
    ensures h.Valid() && h.clock > old(h.clock) && h.failures >= old(h.failures) && h.strays == old(h.strays) && h.refusals >= old(h.refusals) && h.asked == old(h.asked)
    ensures h.reliable ==> h.refusals == old(h.refusals)
    ensures NamedOrNot(old(h.fs), stamp, h.fs)
    ensures forall x :: x in h.visited && x !in old(h.visited) ==> NamedOrNot(old(h.fs), stamp, x)
    ensures named ==> At(h.fs, Backup(stamp)) == At(old(h.fs), Part(stamp))
    ensures !named ==> At(h.fs, Backup(stamp)) == At(old(h.fs), Backup(stamp))
    ensures named || h.failures == old(h.failures) ==> At(h.fs, Part(stamp)) == None && h.failures == old(h.failures)
    ensures h.refusals == old(h.refusals) ==> named
  {
    var rc := h.Mv(Part(stamp), Backup(stamp));
    named := rc == 0 && IsFile(h.fs, Backup(stamp));
    if !named {
      var removed := h.Rm(Part(stamp));
    }
  }

  /** The whole live golden under the name no reader takes for a backup, or nothing there but what a refused removal left. */
  method CopyToPart(h: Host, stamp: nat, want: int) returns (ok: bool)
    requires h.Valid() && At(h.fs, DISK).Some? && want == Size(h.fs, DISK)
    modifies h
    ensures h.Valid() && h.clock > old(h.clock) && h.failures >= old(h.failures) && h.strays == old(h.strays) && h.refusals >= old(h.refusals) && h.asked == old(h.asked)
    ensures h.reliable ==> h.refusals == old(h.refusals)
    ensures forall p :: p != Part(stamp) ==> At(h.fs, p) == At(old(h.fs), p)
    ensures ok ==>
              && IsFile(old(h.fs), DISK) && Contents(h.fs, Part(stamp)) == Contents(old(h.fs), DISK)
              && old(h.clock) < h.fs[Part(stamp)].mtime && h.failures == old(h.failures)
    ensures !ok && h.failures == old(h.failures) ==> At(h.fs, Part(stamp)) == None
    ensures Depths(h.fs) == Depths(old(h.fs))
    ensures StillSince(h.visited, old(h.visited), old(h.fs))
    ensures h.refusals == old(h.refusals) && IsFile(old(h.fs), DISK) ==> ok
  {
    var rc := h.Cp(DISK, Part(stamp));
    ok := rc == 0 && Size(h.fs, Part(stamp)) == want;
    if ok {
      assert h.fs[Part(stamp)].data == old(h.fs)[DISK].data;
    } else {
      var removed := h.Rm(Part(stamp));
    }
  }

  /** A hold on one shelf or the other; the answer is None only after both commands were refused. */
  method MarkKept(h: Host, image: Path, holder: Holder) returns (mark: Option<Path>)
    requires h.Valid()
    modifies h
    ensures h.Valid() && h.clock > old(h.clock) && h.failures == old(h.failures) && h.strays == old(h.strays) && h.refusals >= old(h.refusals) && h.asked == old(h.asked)
    ensures h.reliable ==> h.refusals == old(h.refusals)
    ensures mark.Some? ==> mark.value.Keep? && mark.value.image == image && mark.value.holder == holder && At(h.fs, mark.value).Some?
    ensures forall p: Path :: !(p.Keep? && p.image == image && p.holder == holder) ==> At(h.fs, p) == At(old(h.fs), p)
    ensures forall p :: At(old(h.fs), p).Some? ==> At(h.fs, p).Some?
    ensures Still(old(h.fs), h.fs)
    ensures StillSince(h.visited, old(h.visited), old(h.fs))
    ensures mark == None ==> h.refusals >= old(h.refusals) + 2
  {
    var near := Keep(BesideBackups, image, holder);
    var ok := h.Touch(near);
    if ok && near in h.fs {
      return Some(near);
    }
    var far := Keep(BesideMirror, image, holder);
    ok := h.Touch(far);
    if ok && far in h.fs {
      return Some(far);
    }
    return None;
  }

  /** The disk twin as it was or with the backup's bytes, the RAM base and the backups as they were. */
  ghost predicate RollingBack(a: Fs, bak: Path, x: Fs) {
    && (Contents(x, DISK) == Contents(a, DISK) || Contents(x, DISK) == Contents(a, bak))
    && At(x, RAM) == At(a, RAM)
    && forall s :: At(x, Backup(s)) == At(a, Backup(s))
  }

  /** Rolling back the disk twin of a half-done publication is crash safe. */
  lemma RollingBackIsSafe(visited: set<Fs>, earlier: set<Fs>, before: Fs, image: Bytes, stamp: nat, a: Fs, b: Fs)
    requires Contents(a, DISK) == Some(image) && At(a, RAM) == At(before, RAM) && CrashSafe(before, image, a)
    requires Contents(a, Backup(stamp)) == Contents(before, DISK)
    requires RollingBack(a, Backup(stamp), b)
    requires forall x :: x in visited && x !in earlier ==> RollingBack(a, Backup(stamp), x)
    ensures CrashSafe(before, image, b) && CrashSafeSince(visited, earlier, before, image)
  {
    forall x | x == b || (x in visited && x !in earlier)
      ensures CrashSafe(before, image, x)
    {
      assert RollingBack(a, Backup(stamp), x);
    }
  }

  /** The disk twin restored from the backup: all of it, or not at all. */
  method RollBack(h: Host, bak: Path) returns (ok: bool)
    requires h.Valid() && bak.Backup? && IsFile(h.fs, bak)
    modifies h
    ensures h.Valid() && h.clock >= old(h.clock) && h.failures >= old(h.failures) && h.refusals >= old(h.refusals) && h.asked == old(h.asked)
    ensures h.reliable ==> h.refusals == old(h.refusals)
    ensures ok ==> IsFile(h.fs, DISK) && h.fs[DISK].data == old(h.fs)[bak].data
    ensures !ok ==> At(h.fs, DISK) == At(old(h.fs), DISK) && h.refusals > old(h.refusals)
    ensures forall p: Path :: p != DISK && !p.RotTmp? ==> At(h.fs, p) == At(old(h.fs), p)
    ensures h.strays >= old(h.strays)
    ensures h.failures == old(h.failures) && h.strays == old(h.strays) ==> NoTempsLeft(old(h.fs), [], h.fs)
    ensures forall x :: x in h.visited && x !in old(h.visited) ==> RollingBack(old(h.fs), bak, x)
    ensures DepthsSince(h.visited, old(h.visited), old(h.fs)) && Depths(h.fs) == Depths(old(h.fs))
  {
    var t, copied := StageOne(h, DiskSide, bak, Size(h.fs, bak));
    ok := false;
    if t == None {
      return;
    }
    ghost var staged := h.fs;
    if copied {
      var rc := h.Mv(t.value, DISK);
      ok := rc == 0;
    }
    if !ok {
      var removed := h.Rm(t.value);
    }
  }

  /** What a promotion promises, by outcome; the whole of it is the contract of `Promote`. */
  ghost predicate AllOrNothing(before: Fs, image: Bytes, stamp: nat, r: Outcome, after: Fs) {
    match r
    case Published =>
      && Contents(after, DISK) == Some(image) && after[DISK].mode == MODE_0644
      && Contents(after, RAM) == Some(image) && after[RAM].mode == MODE_0644
    case Split(backup, mark) =>
      && Contents(after, DISK) == Some(image)
      && At(after, RAM) == At(before, RAM)
      && backup == (if At(before, DISK).Some? then Some(Backup(stamp)) else None)
      && (mark.Some? ==>
            && At(after, mark.value).Some?
            && backup.Some?
            && mark.value.Keep? && mark.value.image == backup.value && mark.value.holder == Operator)
    case _ =>
      && Contents(after, DISK) == Contents(before, DISK) && At(after, DISK).Some? == At(before, DISK).Some?
      && At(after, RAM) == At(before, RAM)
  }

  /** The displaced golden is backed up exactly when something was published over one; a run that
      published nothing and removed what it meant to leaves no backup of its own. */
  ghost predicate BackedUp(before: Fs, stamp: nat, r: Outcome, after: Fs, cleanedUp: bool, since: nat) {
    match r
    case Published => if At(before, DISK).Some? then DisplacedAt(before, stamp, after, since) else At(after, Backup(stamp)) == At(before, Backup(stamp))
    case Split(_, _) => if At(before, DISK).Some? then DisplacedAt(before, stamp, after, since) else At(after, Backup(stamp)) == At(before, Backup(stamp))
    case _ => cleanedUp && At(before, Backup(stamp)) == None ==> At(after, Backup(stamp)) == None
  }

  ghost predicate DisplacedAt(before: Fs, stamp: nat, after: Fs, since: nat) {
    && IsFile(before, DISK)
    && Contents(after, Backup(stamp)) == Contents(before, DISK)
    && since < after[Backup(stamp)].mtime
  }

  /** Over an earlier golden a split takes `n` commands other than removals that did not do their work, and two
      more when its backup could not be held. */
  ghost predicate SplitTakes(before: Fs, r: Outcome, n: int, refused: int) {
    r.Split? && At(before, DISK).Some? ==> refused >= if r.mark == None then n + 2 else n
  }

  /** Removing the backup, or failing to, is crash safe too. */
  lemma BackupGone(before: Fs, image: Bytes, stamp: nat, a: Fs, b: Fs)
    requires CrashSafe(before, image, a) && (At(b, Backup(stamp)) == None || b == a)
    requires forall p :: p != Backup(stamp) ==> At(b, p) == At(a, p)
    ensures CrashSafe(before, image, b)
  {
  }

  /** The rollback from a backup that is there, or the split state with the backup held. */
  method Restore(h: Host, stamp: nat, ghost before: Fs, ghost image: Bytes, ghost since: nat) returns (r: Outcome)
    requires h.Valid() && At(before, DISK).Some?
    requires Contents(h.fs, DISK) == Some(image) && At(h.fs, RAM) == At(before, RAM)
    requires BackedUp(before, stamp, Published, h.fs, true, since)
    requires CrashSafe(before, image, h.fs)
    modifies h
    ensures h.Valid() && h.clock >= old(h.clock) && h.failures >= old(h.failures) && h.refusals >= old(h.refusals) && h.asked == old(h.asked)
    ensures h.reliable ==> h.refusals == old(h.refusals)
    ensures r == NothingPublished || r.Split?
    ensures AllOrNothing(before, image, stamp, r, h.fs)
    ensures BackedUp(before, stamp, r, h.fs, h.failures == old(h.failures), since)
    ensures SplitTakes(before, r, 1, h.refusals - old(h.refusals))
    ensures r == NothingPublished && h.failures == old(h.failures) ==> At(h.fs, Backup(stamp)) == None
    ensures h.strays >= old(h.strays)
    ensures h.failures == old(h.failures) && h.strays == old(h.strays) ==> NoTempsLeft(old(h.fs), [], h.fs)
    ensures forall p :: !Touched(p, stamp) ==> At(h.fs, p) == At(old(h.fs), p)
    ensures CrashSafe(before, image, h.fs)
    ensures CrashSafeSince(h.visited, old(h.visited), before, image)
    ensures DepthsSince(h.visited, old(h.visited), old(h.fs)) && Depths(h.fs) == Depths(old(h.fs))
  {
    var bak := Backup(stamp);
    var restored := RollBack(h, bak);
    ghost var kept, seen := h.fs, h.visited;
    RollingBackIsSafe(seen, old(h.visited), before, image, stamp, old(h.fs), kept);
    if restored {
      var removed := h.Rm(bak);
      BackupGone(before, image, stamp, kept, h.fs);
      return NothingPublished;
    }
    r := HoldSplit(h, stamp, before, image, since);
    CrashSafeFurther(old(h.visited), seen, h.visited, before, image);
  }

  /** The split state, with its backup held if a shelf takes the hold. */
  method HoldSplit(h: Host, stamp: nat, ghost before: Fs, ghost image: Bytes, ghost since: nat) returns (r: Outcome)
    requires h.Valid() && At(before, DISK).Some?
    requires Contents(h.fs, DISK) == Some(image) && At(h.fs, RAM) == At(before, RAM)
    requires BackedUp(before, stamp, Published, h.fs, true, since)
    requires CrashSafe(before, image, h.fs)
    modifies h
    ensures h.Valid() && h.clock > old(h.clock) && h.failures == old(h.failures) && h.refusals >= old(h.refusals) && h.strays == old(h.strays) && h.asked == old(h.asked)
    ensures h.reliable ==> h.refusals == old(h.refusals)
    ensures r.Split? && (r.mark == None ==> h.refusals >= old(h.refusals) + 2)
    ensures AllOrNothing(before, image, stamp, r, h.fs)
    ensures BackedUp(before, stamp, r, h.fs, true, since)
    ensures NoTempsLeft(old(h.fs), [], h.fs)
    ensures forall p :: !Touched(p, stamp) || p.RotTmp? ==> At(h.fs, p) == At(old(h.fs), p)
    ensures CrashSafe(before, image, h.fs) && CrashSafeSince(h.visited, old(h.visited), before, image)
    ensures DepthsSince(h.visited, old(h.visited), old(h.fs)) && Depths(h.fs) == Depths(old(h.fs))
  {
    var mark := MarkKept(h, Backup(stamp), Operator);
    ThenSteady(old(h.visited), old(h.visited), h.visited, before, image, old(h.fs));
    return Split(Some(Backup(stamp)), mark);
  }

  /** The disk twin is new and the RAM rename failed: roll the disk twin back from the backup, or
      report the split state with the backup held. */
  method Recover(h: Host, tmps: seq<Path>, bak: BackupResult, stamp: nat, ghost before: Fs, ghost image: Bytes, ghost since: nat)
    returns (r: Outcome)
    requires h.Valid() && forall i :: 0 <= i < |tmps| ==> tmps[i].RotTmp?
    requires Contents(h.fs, DISK) == Some(image) && At(h.fs, RAM) == At(before, RAM)
    requires bak == if At(before, DISK).Some? then Taken(Backup(stamp)) else NoGolden
    requires BackedUp(before, stamp, Published, h.fs, true, since)
    requires CrashSafe(before, image, h.fs)
    modifies h
    ensures h.Valid() && h.clock >= old(h.clock) && h.failures >= old(h.failures) && h.refusals >= old(h.refusals) && h.asked == old(h.asked)
    ensures h.reliable ==> h.refusals == old(h.refusals)
    ensures r == NothingPublished || r.Split?
    ensures AllOrNothing(before, image, stamp, r, h.fs)
    ensures BackedUp(before, stamp, r, h.fs, h.failures == old(h.failures), since)
    ensures SplitTakes(before, r, 1, h.refusals - old(h.refusals))
    ensures r == NothingPublished && h.failures == old(h.failures) ==> At(h.fs, Backup(stamp)) == None
    ensures h.strays >= old(h.strays)
    ensures h.failures == old(h.failures) && h.strays == old(h.strays) ==> NoTempsLeft(old(h.fs), tmps, h.fs)
    ensures forall p :: !Touched(p, stamp) ==> At(h.fs, p) == At(old(h.fs), p)
    ensures CrashSafe(before, image, h.fs)
    ensures CrashSafeSince(h.visited, old(h.visited), before, image)
    ensures DepthsSince(h.visited, old(h.visited), old(h.fs)) && Depths(h.fs) == Depths(old(h.fs))
  {
    RemoveTemps(h, tmps);
    ghost var cleaned, seen := h.fs, h.visited;
    ThenSteady(old(h.visited), old(h.visited), seen, before, image, old(h.fs));
    if bak == NoGolden || At(h.fs, bak.path) == None {
      return Split(None, None);
    }
    assert CrashSafe(before, image, cleaned);
    r := Restore(h, stamp, before, image, since);
    CrashSafeFurther(old(h.visited), seen, h.visited, before, image);
  }

  /** The disk rename failed: the temporaries go, and so does the backup of the unchanged golden. */
  method Abandon(h: Host, tmps: seq<Path>, bak: BackupResult, stamp: nat, ghost before: Fs, ghost image: Bytes)
    requires h.Valid() && forall i :: 0 <= i < |tmps| ==> tmps[i].RotTmp?
    requires At(h.fs, DISK) == At(before, DISK) && At(h.fs, RAM) == At(before, RAM)
    requires bak == if At(before, DISK).Some? then Taken(Backup(stamp)) else NoGolden
    requires bak == NoGolden ==> At(h.fs, Backup(stamp)) == At(before, Backup(stamp))
    requires CrashSafe(before, image, h.fs)
    modifies h
    ensures h.Valid() && h.clock >= old(h.clock) && h.failures >= old(h.failures) && h.refusals >= old(h.refusals) && h.asked == old(h.asked)
    ensures h.reliable ==> h.refusals == old(h.refusals)
    ensures AllOrNothing(before, image, stamp, NothingPublished, h.fs)
    ensures BackedUp(before, stamp, NothingPublished, h.fs, h.failures == old(h.failures), 0)
    ensures h.strays >= old(h.strays)
    ensures h.failures == old(h.failures) && h.strays == old(h.strays) ==> NoTempsLeft(old(h.fs), tmps, h.fs)
    ensures forall p :: !Touched(p, stamp) ==> At(h.fs, p) == At(old(h.fs), p)
    ensures CrashSafe(before, image, h.fs)
    ensures CrashSafeSince(h.visited, old(h.visited), before, image)
    ensures DepthsSince(h.visited, old(h.visited), old(h.fs)) && Depths(h.fs) == Depths(old(h.fs))
  {
    RemoveTemps(h, tmps);
    ThenSteady(old(h.visited), old(h.visited), h.visited, before, image, old(h.fs));
    if bak.Taken? {
      var removed := h.Rm(bak.path);
      assert CrashSafe(before, image, h.fs);
    }
  }

  /** The second rename, and what follows when it fails. */
  method RenameRam(h: Host, tmps: seq<Path>, bak: BackupResult, stamp: nat, ghost before: Fs, ghost image: Bytes, ghost since: nat)
    returns (r: Outcome)
    requires h.Valid()
    requires |tmps| == 2 && tmps[0].RotTmp? && tmps[1].RotTmp? && tmps[0] != tmps[1] && At(h.fs, tmps[0]) == None
    requires IsFile(h.fs, tmps[1]) && h.fs[tmps[1]].data == image && h.fs[tmps[1]].mode == MODE_0644
    requires Contents(h.fs, DISK) == Some(image) && h.fs[DISK].mode == MODE_0644 && At(h.fs, RAM) == At(before, RAM)
    requires bak == if At(before, DISK).Some? then Taken(Backup(stamp)) else NoGolden
    requires BackedUp(before, stamp, Published, h.fs, true, since)
    requires CrashSafe(before, image, h.fs)
    modifies h
    ensures h.Valid() && h.clock >= old(h.clock) && h.failures >= old(h.failures) && h.refusals >= old(h.refusals) && h.asked == old(h.asked)
    ensures h.reliable ==> h.refusals == old(h.refusals)
    ensures r != Broken
    ensures AllOrNothing(before, image, stamp, r, h.fs)
    ensures BackedUp(before, stamp, r, h.fs, h.failures == old(h.failures), since)
    ensures SplitTakes(before, r, 2, h.refusals - old(h.refusals))
    ensures At(before, DISK).Some? && h.refusals == old(h.refusals) + 1 ==>
              r == NothingPublished && (h.failures == old(h.failures) ==> At(h.fs, Backup(stamp)) == None)
    ensures h.strays >= old(h.strays)
    ensures h.failures == old(h.failures) && h.strays == old(h.strays) ==> NoTempsLeft(old(h.fs), tmps, h.fs)
    ensures forall p :: !Touched(p, stamp) ==> At(h.fs, p) == At(old(h.fs), p)
    ensures CrashSafe(before, image, h.fs)
    ensures CrashSafeSince(h.visited, old(h.visited), before, image)
    ensures DepthsSince(h.visited, old(h.visited), old(h.fs)) && Depths(h.fs) == Depths(old(h.fs))
    ensures h.refusals == old(h.refusals) ==> r == Published
  {
    var done := TakeRam(h, tmps, stamp, before, image, since);
    if done {
      return Published;
    }
    ghost var seen := h.visited;
    r := Recover(h, tmps, bak, stamp, before, image, since);
    CrashSafeFurther(old(h.visited), seen, h.visited, before, image);
  }

  /** The second rename alone. */
  method TakeRam(h: Host, tmps: seq<Path>, ghost stamp: nat, ghost before: Fs, ghost image: Bytes, ghost since: nat) returns (done: bool)
    requires h.Valid()
    requires |tmps| == 2 && tmps[0].RotTmp? && tmps[1].RotTmp? && tmps[0] != tmps[1] && At(h.fs, tmps[0]) == None
    requires IsFile(h.fs, tmps[1]) && h.fs[tmps[1]].data == image && h.fs[tmps[1]].mode == MODE_0644
    requires Contents(h.fs, DISK) == Some(image) && h.fs[DISK].mode == MODE_0644
    requires BackedUp(before, stamp, Published, h.fs, true, since)
    requires CrashSafe(before, image, h.fs)
    modifies h
    ensures h.Valid() && h.clock > old(h.clock) && h.failures == old(h.failures) && h.strays == old(h.strays) && h.asked == old(h.asked)
    ensures h.refusals == if done then old(h.refusals) else old(h.refusals) + 1
    ensures h.reliable ==> done
    ensures !done ==> h.fs == old(h.fs)
    ensures done ==>
              && AllOrNothing(before, image, stamp, Published, h.fs) && BackedUp(before, stamp, Published, h.fs, true, since)
              && NoTempsLeft(old(h.fs), tmps, h.fs) && CrashSafe(before, image, h.fs)
              && forall p :: !Touched(p, stamp) ==> At(h.fs, p) == At(old(h.fs), p)
    ensures CrashSafeSince(h.visited, old(h.visited), before, image)
    ensures DepthsSince(h.visited, old(h.visited), old(h.fs)) && Depths(h.fs) == Depths(old(h.fs))
  {
    var rc := h.Mv(tmps[1], RAM);
    done := rc == 0;
    assert CrashSafe(before, image, h.fs);
  }

  /** The two renames: disk first, and a rollback of the disk twin when the RAM rename fails. */
  method RenameBoth(h: Host, tmps: seq<Path>, bak: BackupResult, stamp: nat, ghost before: Fs, ghost image: Bytes, ghost since: nat)
    returns (r: Outcome)
    requires h.Valid()
    requires |tmps| == 2 && tmps[0] != tmps[1]
    requires forall i :: 0 <= i < 2 ==>
               tmps[i].RotTmp? && IsFile(h.fs, tmps[i]) && h.fs[tmps[i]].data == image && h.fs[tmps[i]].mode == MODE_0644
    requires At(h.fs, DISK) == At(before, DISK) && At(h.fs, RAM) == At(before, RAM)
    requires bak == if At(before, DISK).Some? then Taken(Backup(stamp)) else NoGolden
    requires BackedUp(before, stamp, Published, h.fs, true, since)
    requires CrashSafe(before, image, h.fs)
    modifies h
    ensures h.Valid() && h.clock >= old(h.clock) && h.failures >= old(h.failures) && h.refusals >= old(h.refusals) && h.asked == old(h.asked)
    ensures h.reliable ==> h.refusals == old(h.refusals)
    ensures r != Broken
    ensures AllOrNothing(before, image, stamp, r, h.fs)
    ensures BackedUp(before, stamp, r, h.fs, h.failures == old(h.failures), since)
    ensures SplitTakes(before, r, 2, h.refusals - old(h.refusals))
    ensures h.strays >= old(h.strays)
    ensures h.failures == old(h.failures) && h.strays == old(h.strays) ==> NoTempsLeft(old(h.fs), tmps, h.fs)
    ensures forall p :: !Touched(p, stamp) ==> At(h.fs, p) == At(old(h.fs), p)
    ensures CrashSafe(before, image, h.fs)
    ensures CrashSafeSince(h.visited, old(h.visited), before, image)
    ensures DepthsSince(h.visited, old(h.visited), old(h.fs)) && Depths(h.fs) == Depths(old(h.fs))
    ensures h.refusals == old(h.refusals) ==> r == Published
  {
    var done := TakeDisk(h, tmps, stamp, before, image, since);
    ghost var seen := h.visited;
    if done {
      r := RenameRam(h, tmps, bak, stamp, before, image, since);
    } else {
      r := NothingPublished;
      Abandon(h, tmps, bak, stamp, before, image);
    }
    CrashSafeFurther(old(h.visited), seen, h.visited, before, image);
  }

  /** The first rename alone. */
  method TakeDisk(h: Host, tmps: seq<Path>, ghost stamp: nat, ghost before: Fs, ghost image: Bytes, ghost since: nat) returns (done: bool)
    requires h.Valid() && |tmps| == 2 && tmps[0].RotTmp? && tmps[1].RotTmp? && tmps[0] != tmps[1]
    requires IsFile(h.fs, tmps[0]) && h.fs[tmps[0]].data == image && h.fs[tmps[0]].mode == MODE_0644
    requires At(h.fs, DISK) == At(before, DISK) && At(h.fs, RAM) == At(before, RAM)
    requires BackedUp(before, stamp, Published, h.fs, true, since)
    requires CrashSafe(before, image, h.fs)
    modifies h
    ensures h.Valid() && h.clock > old(h.clock) && h.failures == old(h.failures) && h.strays == old(h.strays) && h.asked == old(h.asked)
    ensures h.refusals == if done then old(h.refusals) else old(h.refusals) + 1
    ensures h.reliable ==> done
    ensures !done ==> h.fs == old(h.fs)
    ensures done ==>
              && Contents(h.fs, DISK) == Some(image) && h.fs[DISK].mode == MODE_0644
              && BackedUp(before, stamp, Published, h.fs, true, since)
              && At(h.fs, tmps[0]) == None && CrashSafe(before, image, h.fs)
              && forall p :: p != DISK && p != tmps[0] ==> At(h.fs, p) == At(old(h.fs), p)
    ensures CrashSafeSince(h.visited, old(h.visited), before, image)
    ensures DepthsSince(h.visited, old(h.visited), old(h.fs)) && Depths(h.fs) == Depths(old(h.fs))
  {
    var rc := h.Mv(tmps[0], DISK);
    done := rc == 0;
    assert CrashSafe(before, image, h.fs);
  }

  /** With both copies staged: the backup, then the renames. */
  method Publish(h: Host, tmps: seq<Path>, stamp: nat, ghost image: Bytes) returns (r: Outcome)
    requires h.Valid()
    requires |tmps| == 2 && tmps[0] != tmps[1]
    requires forall i :: 0 <= i < 2 ==>
               tmps[i].RotTmp? && IsFile(h.fs, tmps[i]) && h.fs[tmps[i]].data == image && h.fs[tmps[i]].mode == MODE_0644
    requires At(h.fs, DISK).Some? ==> IsFile(h.fs, DISK)
    modifies h
    ensures h.Valid() && h.clock >= old(h.clock) && h.failures >= old(h.failures) && h.refusals >= old(h.refusals) && old(h.asked) <= h.asked
    ensures h.reliable ==> h.refusals == old(h.refusals)
    ensures r == Broken <==> LastAnswer(old(h.asked), h.asked, None)
    ensures LastAnswer(old(h.asked), h.asked, Some(false)) ==> r == NothingPublished
    ensures r == Published || r.Split? ==> h.asked == old(h.asked) + BackupAsks(old(h.fs))
    ensures AllOrNothing(old(h.fs), image, stamp, r, h.fs)
    ensures BackedUp(old(h.fs), stamp, r, h.fs, h.failures == old(h.failures), old(h.clock))
    ensures h.strays >= old(h.strays)
    ensures SplitTakes(old(h.fs), r, 2, h.refusals - old(h.refusals))
    ensures h.failures == old(h.failures) && h.strays == old(h.strays) ==> NoTempsLeft(old(h.fs), tmps, h.fs)
    ensures forall p :: !Touched(p, stamp) ==> At(h.fs, p) == At(old(h.fs), p)
    ensures CrashSafe(old(h.fs), image, h.fs)
    ensures CrashSafeSince(h.visited, old(h.visited), old(h.fs), image)
    ensures DepthsSince(h.visited, old(h.visited), old(h.fs)) && Depths(h.fs) == Depths(old(h.fs))
    ensures h.refusals == old(h.refusals) ==> r == Published
  {
    var bak := BackupCurrent(h, stamp);
    assert CrashSafeSince(h.visited, old(h.visited), old(h.fs), image);
    if bak.Refused? || bak.BackupBroken? {
      ghost var same, seen := h.fs, h.visited;
      RemoveTemps(h, tmps);
      ThenSteady(old(h.visited), seen, h.visited, old(h.fs), image, same);
      return if bak.Refused? then NothingPublished else Broken;
    }
    ghost var copied, seen := h.fs, h.visited;
    assert CrashSafe(old(h.fs), image, copied);
    r := RenameBoth(h, tmps, bak, stamp, old(h.fs), image, old(h.clock));
    CrashSafeFurther(old(h.visited), seen, h.visited, old(h.fs), image);
  }

  /** A publish target may be absent or a file; a directory at its name is refused. */
  predicate Replaceable(fs: Fs, base: Path) {
    At(fs, base).Some? ==> IsFile(fs, base)
  }

  /** Nothing about the stores stands in a promotion's way. */
  predicate Promotable(fs: Fs, candidate: Path) {
    IsFile(fs, candidate) && !Sweepable(candidate) && Replaceable(fs, DISK) && Replaceable(fs, RAM)
  }

  /** A question that was answered with enough. */
  function Granted(want: int): Query {
    Query(want, Some(true))
  }

  /** What a promotion that comes as far as its renames has asked: room for either temporary, and for the backup of a
      golden. */
  function Asks(fs: Fs, candidate: Path): seq<Query> {
    [Granted(Size(fs, candidate)), Granted(Size(fs, candidate))] + BackupAsks(fs)
  }

  function BackupAsks(fs: Fs): seq<Query> {
    if At(fs, DISK) == None then [] else [Granted(Size(fs, DISK))]
  }

  /** `Published` when both stores say they have room for a temporary. */
  method RoomBesideBases(h: Host, want: int) returns (r: Outcome)
    requires h.Valid()
    modifies h`refusals, h`asked
    ensures h.Valid() && h.refusals >= old(h.refusals) && (h.reliable ==> h.refusals == old(h.refusals)) && old(h.asked) <= h.asked
    ensures r == Broken <==> LastAnswer(old(h.asked), h.asked, None)
    ensures r == NothingPublished <==> LastAnswer(old(h.asked), h.asked, Some(false))
    ensures r == Published ==> h.asked == old(h.asked) + [Granted(want), Granted(want)]
    ensures r == Published || r == NothingPublished || r == Broken
    ensures h.refusals == old(h.refusals) ==> r == Published
  {
    for side := 0 to 2
      invariant h.Valid() && h.refusals >= old(h.refusals) && (h.reliable ==> h.refusals == old(h.refusals))
      invariant h.asked == old(h.asked) + if side == 0 then [] else if side == 1 then [Granted(want)] else [Granted(want), Granted(want)]
    {
      var room := h.HasRoom(want);
      if room == None {
        return Broken;
      }
      if !room.value {
        return NothingPublished;
      }
    }
    return Published;
  }

  /** Everything before the backup: the refusals, the sweep and the two copies. */
  method Prepare(h: Host, candidate: Path) returns (r: Outcome, tmps: seq<Path>)
    requires h.Valid()
    modifies h
    ensures h.Valid() && h.clock >= old(h.clock) && h.failures >= old(h.failures) && h.refusals >= old(h.refusals) && old(h.asked) <= h.asked
    ensures h.reliable ==> h.refusals == old(h.refusals)
    ensures r == NothingPublished || r == Broken
    ensures r == Broken <==> At(old(h.fs), candidate) == None || LastAnswer(old(h.asked), h.asked, None)
    ensures LastAnswer(old(h.asked), h.asked, Some(false)) ==> tmps == [] && r == NothingPublished
    ensures tmps != [] ==> h.asked == old(h.asked) + [Granted(Size(old(h.fs), candidate)), Granted(Size(old(h.fs), candidate))]
    ensures tmps == [] || |tmps| == 2
    ensures |tmps| == 2 ==>
              && IsFile(old(h.fs), candidate)
              && tmps[0] != tmps[1]
              && (At(h.fs, DISK).Some? ==> IsFile(h.fs, DISK))
              && forall i :: 0 <= i < 2 ==>
                    && tmps[i].RotTmp?
                    && IsFile(h.fs, tmps[i])
                    && h.fs[tmps[i]].data == old(h.fs)[candidate].data
                    && h.fs[tmps[i]].mode == MODE_0644
    ensures h.strays >= old(h.strays)
    ensures tmps == [] && h.failures == old(h.failures) && h.strays == old(h.strays) ==> NoTempsLeft(old(h.fs), [], h.fs)
    ensures forall p :: Sweepable(p) && At(h.fs, p).Some? ==> At(old(h.fs), p).Some? || p in tmps || tmps == []
    ensures forall p :: !Sweepable(p) ==> At(h.fs, p) == At(old(h.fs), p)
    ensures Depths(h.fs) == Depths(old(h.fs))
    ensures StillSince(h.visited, old(h.visited), old(h.fs))
    ensures h.refusals == old(h.refusals) && Promotable(old(h.fs), candidate) ==> |tmps| == 2
  {
    if candidate !in h.fs {
      return Broken, [];
    }
    var want := Size(h.fs, candidate);
    if !Replaceable(h.fs, DISK) || !Replaceable(h.fs, RAM) {
      return NothingPublished, [];
    }
    SweepOwnTemps(h);
    r := RoomBesideBases(h, want);
    if r != Published {
      return r, [];
    }
    tmps := StageCopies(h, candidate, want);
    r := NothingPublished;
  }

  /** After questions that were all granted the last answer is a later one's. */
  lemma LaterAnswer(before: seq<Query>, mid: seq<Query>, now: seq<Query>)
    requires before <= mid <= now && (mid != before ==> mid[|mid| - 1].answer == Some(true))
    ensures LastAnswer(before, now, None) <==> LastAnswer(mid, now, None)
    ensures LastAnswer(before, now, Some(false)) <==> LastAnswer(mid, now, Some(false))
  {
  }

  method Promote(h: Host, candidate: Path, stamp: nat) returns (r: Outcome)
    requires h.Valid()
    modifies h
    ensures h.Valid() && h.clock >= old(h.clock) && h.failures >= old(h.failures) && h.refusals >= old(h.refusals) && old(h.asked) <= h.asked
    ensures h.reliable ==> h.refusals == old(h.refusals)
    ensures !IsFile(old(h.fs), candidate) ==> r == NothingPublished || r == Broken
    ensures r == Broken <==> At(old(h.fs), candidate) == None || LastAnswer(old(h.asked), h.asked, None)
    ensures LastAnswer(old(h.asked), h.asked, Some(false)) ==> r == NothingPublished
    ensures r == Published || r.Split? ==> h.asked == old(h.asked) + Asks(old(h.fs), candidate)
    ensures AllOrNothing(old(h.fs), Contents(old(h.fs), candidate).Or([]), stamp, r, h.fs)
    ensures BackedUp(old(h.fs), stamp, r, h.fs, h.failures == old(h.failures), old(h.clock))
    ensures SplitTakes(old(h.fs), r, 2, h.refusals - old(h.refusals))
    ensures h.failures == old(h.failures) && h.strays == old(h.strays) ==> NoTempsLeft(old(h.fs), [], h.fs)
    ensures forall p :: !Touched(p, stamp) ==> At(h.fs, p) == At(old(h.fs), p)
    ensures forall s :: s != stamp ==> At(h.fs, Backup(s)) == At(old(h.fs), Backup(s))
    ensures CrashSafe(old(h.fs), Contents(old(h.fs), candidate).Or([]), h.fs)
    ensures CrashSafeSince(h.visited, old(h.visited), old(h.fs), Contents(old(h.fs), candidate).Or([]))
    ensures DepthsSince(h.visited, old(h.visited), old(h.fs)) && Depths(h.fs) == Depths(old(h.fs))
    ensures h.refusals == old(h.refusals) && Promotable(old(h.fs), candidate) ==> r == Published
  {
    ghost var image := Contents(h.fs, candidate).Or([]);
    var tmps;
    r, tmps := Prepare(h, candidate);
    ghost var staged, seen := h.fs, h.visited;
    ghost var room := h.asked;
    if tmps != [] {
      r := Publish(h, tmps, stamp, image);
      LaterAnswer(old(h.asked), room, h.asked);
    }
    SteadyThen(old(h.visited), seen, h.visited, old(h.fs), image, staged);
  }
}
