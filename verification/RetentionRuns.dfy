/** Runs of rotations: which displaced goldens are still there, and for how long a split state's
    recovery copy is. */
module RetentionRuns {
  import opened Options
  import opened Host
  import opened Promotion
  import opened Chain
  import opened Retention
  import opened Rotation
  import Preflight

  /** A golden that was displaced, and the stamp its backup was named with. */
  datatype Displaced = Displaced(stamp: nat, image: Bytes)

  /** One rotation of a run, from the stores it found through the state before its prune. */
  datatype Step = Step(mid: Fs, candidate: Path, stamp: nat, outcome: Outcome, rec: Option<Recording>, since: nat, now: nat)

  /** A rotation that published or published nothing, whose removals all succeeded, under a stamp no
      backup had, with nothing held and no backup as its candidate. */
  ghost predicate Clean(before: Fs, step: Step, after: Fs, cfg: Config, live: set<Proc>) {
    && Rotated(before, step.mid, after, cfg, live, step.candidate, step.stamp, step.outcome, step.rec, step.since, step.now, true)
    && (step.outcome == Published || step.outcome == NothingPublished)
    && At(before, Backup(step.stamp)) == None
    && (forall p :: At(before, p).Some? ==> At(before, p).value.mtime <= step.since)
    && !step.candidate.Backup?
    && Held(step.mid, live) == {}
  }

  /** A rotation, or a preflight, which may have failed at any point. */
  datatype Turn = Rotates(step: Step) | Preflights

  ghost predicate Turned(before: Fs, turn: Turn, after: Fs, cfg: Config, live: set<Proc>) {
    match turn
    case Rotates(step) => Clean(before, step, after, cfg, live)
    case Preflights => Retains(before, after, cfg.keepN)
  }

  ghost predicate IsRun(states: seq<Fs>, turns: seq<Turn>, cfg: Config, live: set<Proc>) {
    && |states| == |turns| + 1
    && forall i :: 0 <= i < |turns| ==> Turned(states[i], turns[i], states[i + 1], cfg, live)
  }

  /** The goldens a run displaced, in order. */
  ghost function History(states: seq<Fs>, turns: seq<Turn>): seq<Displaced>
    requires |states| == |turns| + 1
  {
    if turns == [] then []
    else
      var n := |turns| - 1;
      History(states[..n + 1], turns[..n])
      + if turns[n].Rotates? then DisplacedBy(states[n], turns[n].step) else []
  }

  function Last<T>(s: seq<T>, n: nat): seq<T> {
    if |s| <= n then s else s[|s| - n..]
  }

  lemma LastOfLonger<T>(s: seq<T>, x: T, n: nat)
    ensures Last(s + [x], n) == Last(Last(s, n) + [x], n)
  {
  }

  /** The backups are exactly those of `list`, oldest first, each with its bytes. */
  ghost predicate Listing(fs: Fs, list: seq<Displaced>) {
    && (forall i :: 0 <= i < |list| ==> Contents(fs, Backup(list[i].stamp)) == Some(list[i].image))
    && Sorted(fs, Names(list))
    && forall p :: p in Backups(fs) <==> p in Names(list)
  }

  function Names(list: seq<Displaced>): seq<Path> {
    seq(|list|, i requires 0 <= i < |list| => Backup(list[i].stamp))
  }

  /** Of a listing, the retained are the last `n`. */
  lemma RetainedOfListing(fs: Fs, list: seq<Displaced>, n: nat, kept: set<Path>)
    requires Listing(fs, list)
    requires forall p :: p in kept ==> p !in Backups(fs)
    ensures forall p :: p in Retained(fs, Backups(fs), n, kept) <==> p in Names(Last(list, n))
  {
    var s := Names(list);
    var cut := if |list| <= n then 0 else |list| - n;
    forall i | 0 <= i < |s|
      ensures s[i] in Retained(fs, Backups(fs), n, kept) <==> i >= cut
    {
      NewerAreLater(fs, s, Backups(fs), i);
    }
    assert Names(Last(list, n)) == s[cut..];
    forall p
      ensures p in Retained(fs, Backups(fs), n, kept) <==> p in s[cut..]
    {
      if p in Retained(fs, Backups(fs), n, kept) {
        var i :| 0 <= i < |s| && s[i] == p;
        assert s[cut..][i - cut] == p;
      }
    }
  }

  /** A prune of a listing leaves the listing of its last `n`. */
  lemma PrunedListing(mid: Fs, after: Fs, list: seq<Displaced>, now: nat, cfg: Config, live: set<Proc>, kept: set<Path>)
    requires Listing(mid, list) && Pruned(mid, after, now, cfg, live, kept, true)
    requires forall p :: p in kept ==> p !in Backups(mid)
    ensures Listing(after, Last(list, cfg.keepN))
  {
    RetainedOfListing(mid, list, cfg.keepN, kept);
    var rest := Last(list, cfg.keepN);
    var cut := |list| - |rest|;
    assert Names(rest) == Names(list)[cut..];
    forall i | 0 <= i < |rest|
      ensures At(after, Names(rest)[i]) == At(mid, Names(rest)[i])
    {
      assert Names(rest)[i] in Backups(after);
      assert At(after, Names(rest)[i]).Some?;
    }
    forall i | 0 <= i < |rest|
      ensures Contents(after, Backup(rest[i].stamp)) == Some(rest[i].image)
    {
      assert Names(rest)[i] == Backup(rest[i].stamp) && rest[i] == list[cut + i];
      assert At(after, Backup(rest[i].stamp)) == At(mid, Backup(rest[i].stamp));
    }
  }

  lemma ListingDependsOnBackups(a: Fs, b: Fs, list: seq<Displaced>)
    requires Listing(a, list) && forall p: Path :: p.Backup? ==> At(b, p) == At(a, p)
    ensures Listing(b, list)
  {
    SameBackups(a, b, 0, {});
    var s := Names(list);
    forall i, j | 0 <= i < j < |s|
      ensures Older(b, s[i], s[j])
    {
      assert Older(a, s[i], s[j]) && At(b, s[i]) == At(a, s[i]) && At(b, s[j]) == At(a, s[j]);
    }
    forall i | 0 <= i < |list|
      ensures Contents(b, Backup(list[i].stamp)) == Some(list[i].image)
    {
      assert At(b, Backup(list[i].stamp)) == At(a, Backup(list[i].stamp));
    }
  }

  /** A backup newer than every other extends the listing. */
  lemma Extended(before: Fs, mid: Fs, list: seq<Displaced>, d: Displaced, since: nat)
    requires Listing(before, list) && At(before, Backup(d.stamp)) == None
    requires forall s :: s != d.stamp ==> At(mid, Backup(s)) == At(before, Backup(s))
    requires Contents(mid, Backup(d.stamp)) == Some(d.image) && since < Mtime(mid, Backup(d.stamp))
    requires forall p :: At(before, p).Some? ==> At(before, p).value.mtime <= since
    ensures Listing(mid, list + [d])
  {
    var s, t := Names(list), Names(list + [d]);
    assert t == s + [Backup(d.stamp)];
    forall i | 0 <= i < |s|
      ensures At(mid, s[i]) == At(before, s[i]) && At(before, s[i]).Some? && s[i] == Backup(list[i].stamp)
    {
      assert Contents(before, Backup(list[i].stamp)).Some?;
    }
    forall i, j | 0 <= i < j < |t|
      ensures Older(mid, t[i], t[j])
    {
      if j < |s| {
        assert Older(before, s[i], s[j]);
      }
    }
    forall p
      ensures p in Backups(mid) <==> p in t
    {
      if p.Backup? {
        assert p == Backup(p.stamp);
        assert p in Backups(mid) <==> At(mid, p).Some?;
        assert p in Backups(before) <==> At(before, p).Some?;
      }
    }
  }

  /** What one rotation displaced. */
  ghost function DisplacedBy(before: Fs, step: Step): seq<Displaced> {
    if step.outcome == Published && IsFile(before, DISK) then [Displaced(step.stamp, Contents(before, DISK).value)] else []
  }

  lemma OneRotation(before: Fs, step: Step, after: Fs, list: seq<Displaced>, cfg: Config, live: set<Proc>)
    requires Clean(before, step, after, cfg, live) && Listing(before, list)
    ensures Listing(after, Last(list + DisplacedBy(before, step), cfg.keepN))
  {
    var kept := KeptBy(step.mid, live, Some(step.candidate), None);
    if DisplacedBy(before, step) != [] {
      Extended(before, step.mid, list, DisplacedBy(before, step)[0], step.since);
    } else {
      forall p: Path | p.Backup?
        ensures At(step.mid, p) == At(before, p)
      {
        assert p == Backup(p.stamp);
      }
      ListingDependsOnBackups(before, step.mid, list);
      assert list + DisplacedBy(before, step) == list;
    }
    PrunedListing(step.mid, after, list + DisplacedBy(before, step), step.now, cfg, live, kept);
  }

  /** A preflight of a listing that is within `n` leaves it, whatever failed in it. */
  lemma OnePreflight(before: Fs, after: Fs, list: seq<Displaced>, n: nat)
    requires Listing(before, list) && |list| <= n && Retains(before, after, n)
    ensures Listing(after, list)
  {
    RetainedOfListing(before, list, n, {});
    assert Last(list, n) == list;
    forall p: Path | p.Backup?
      ensures At(after, p) == At(before, p)
    {
      assert p in Backups(before) <==> At(before, p).Some?;
    }
    ListingDependsOnBackups(before, after, list);
  }

  /** From an empty backup directory, the backups are at every moment precisely the last `keepN`
      goldens the run displaced, byte for byte; runs that published nothing and preflights between
      them leave no mark. */
  lemma {:induction false} LastDisplacedAreKept(states: seq<Fs>, turns: seq<Turn>, cfg: Config, live: set<Proc>)
    requires IsRun(states, turns, cfg, live) && Backups(states[0]) == {}
    ensures Listing(states[|turns|], Last(History(states, turns), cfg.keepN))
  {
    if turns != [] {
      var n := |turns| - 1;
      LastDisplacedAreKept(states[..n + 1], turns[..n], cfg, live);
      assert states[..n + 1][n] == states[n];
      var h := History(states[..n + 1], turns[..n]);
      assert Turned(states[n], turns[n], states[n + 1], cfg, live);
      if turns[n].Rotates? {
        OneRotation(states[n], turns[n].step, states[n + 1], Last(h, cfg.keepN), cfg, live);
        Displacing(h, DisplacedBy(states[n], turns[n].step), cfg.keepN);
      } else {
        OnePreflight(states[n], states[n + 1], Last(h, cfg.keepN), cfg.keepN);
        assert h + [] == h;
      }
    }
  }

  lemma Displacing(h: seq<Displaced>, d: seq<Displaced>, n: nat)
    requires |d| <= 1
    ensures Last(Last(h, n) + d, n) == Last(h + d, n)
  {
    if d == [] {
      assert h + d == h && Last(h, n) + d == Last(h, n);
    } else {
      LastOfLonger(h, d[0], n);
      assert d == [d[0]];
    }
  }

  // ---- a split state's recovery copy

  /** Anything the rotator does to the stores between two looks at them, under knobs of its own. */
  datatype Deed =
    | APrune(cfg: Config, live: set<Proc>, keep: Option<Path>, alsoKeep: Option<Path>, now: nat, clean: bool)
    | ARotation(cfg: Config, live: set<Proc>, step: Step, clean: bool)
    | APreflight(cfg: Config, live: set<Proc>, keep: Option<Path>, now: nat)

  ghost predicate Did(before: Fs, deed: Deed, after: Fs) {
    match deed
    case APrune(cfg, live, keep, alsoKeep, now, clean) => Pruned(before, after, now, cfg, live, KeptBy(before, live, keep, alsoKeep), clean)
    case ARotation(cfg, live, s, clean) =>
      Rotated(before, s.mid, after, cfg, live, s.candidate, s.stamp, s.outcome, s.rec, s.since, s.now, clean)
    case APreflight(cfg, live, keep, now) => Preflight.Untouched(before, after, now, cfg, live, KeptBy(before, live, keep, None), keep)
  }

  /** `bak` is there with its operator's hold beside it or beside the mirror. */
  ghost predicate HeldCopy(fs: Fs, bak: Path, mark: Path, image: Bytes) {
    && bak.Backup? && mark.Keep? && mark.image == bak && mark.holder == Operator
    && At(fs, mark).Some?
    && Contents(fs, bak) == Some(image)
  }

  lemma HoldKeeps(fs: Fs, bak: Path, mark: Path, image: Bytes, live: set<Proc>, keep: Option<Path>, alsoKeep: Option<Path>)
    requires HeldCopy(fs, bak, mark, image)
    ensures bak in KeptBy(fs, live, keep, alsoKeep)
  {
    assert mark in fs;
    assert mark.image in Held(fs, live);
  }

  lemma HeldCopySurvives(before: Fs, deed: Deed, after: Fs, bak: Path, mark: Path, image: Bytes)
    requires HeldCopy(before, bak, mark, image) && Did(before, deed, after)
    requires deed.ARotation? ==> bak != Backup(deed.step.stamp)
    ensures HeldCopy(after, bak, mark, image)
  {
    match deed
    case APrune(cfg, live, keep, alsoKeep, now, clean) =>
      HoldKeeps(before, bak, mark, image, live, keep, alsoKeep);
      assert At(after, mark) == At(before, mark) && At(after, bak) == At(before, bak);
    case APreflight(cfg, live, keep, now) =>
      HoldKeeps(before, bak, mark, image, live, keep, None);
      assert At(after, mark) == At(before, mark) && At(after, bak) == At(before, bak);
    case ARotation(cfg, live, s, clean) =>
      assert bak == Backup(bak.stamp);
      assert At(s.mid, mark) == At(before, mark) && At(s.mid, bak) == At(before, bak);
      HoldKeeps(s.mid, bak, mark, image, live, Some(s.candidate), if s.outcome.Split? then s.outcome.backup else None);
      assert At(after, mark) == At(s.mid, mark) && At(after, bak) == At(s.mid, bak);
  }

  /** The copy a split state names keeps its exact bytes through anything the rotator does afterwards,
      whatever KEEP_N is at each step, for as long as nobody removes the hold. */
  lemma {:induction false} RecoveryCopySurvives(states: seq<Fs>, deeds: seq<Deed>, bak: Path, mark: Path, image: Bytes)
    requires |states| == |deeds| + 1 && forall i :: 0 <= i < |deeds| ==> Did(states[i], deeds[i], states[i + 1])
    requires forall i :: 0 <= i < |deeds| && deeds[i].ARotation? ==> bak != Backup(deeds[i].step.stamp)
    requires HeldCopy(states[0], bak, mark, image)
    ensures HeldCopy(states[|deeds|], bak, mark, image)
  {
    var n := |deeds|;
    if n > 0 {
      RecoveryCopySurvives(states[..n], deeds[..n - 1], bak, mark, image);
      assert states[..n][n - 1] == states[n - 1];
      HeldCopySurvives(states[n - 1], deeds[n - 1], states[n], bak, mark, image);
    }
  }

  /** A rotation that split over a golden leaves that golden's exact bytes under the name it gives,
      and, when it says the copy is held, in the state the lemma above starts from. */
  lemma SplitLeavesRecoveryCopy(before: Fs, step: Step, after: Fs, cfg: Config, live: set<Proc>, clean: bool)
    requires Rotated(before, step.mid, after, cfg, live, step.candidate, step.stamp, step.outcome, step.rec, step.since, step.now, clean)
    requires step.outcome.Split? && IsFile(before, DISK)
    ensures step.outcome.backup == Some(Backup(step.stamp))
    ensures Contents(after, Backup(step.stamp)) == Contents(before, DISK)
    ensures step.outcome.mark.Some? ==>
              HeldCopy(after, Backup(step.stamp), step.outcome.mark.value, Contents(before, DISK).value)
  {
  }
}
