/** One rotation under the lock: promote, record the depth, prune on every outcome. */
module Rotation {
  import opened Options
  import opened Host
  import opened Promotion
  import opened Chain
  import opened Retention

  predicate Promoted(r: Outcome) {
    r == Published || r.Split?
  }

  /** The depth of what is live after a rotation. */
  ghost predicate DepthFollows(before: Fs, candidate: Path, cfg: Config, r: Outcome, rec: Option<Recording>, after: Fs) {
    if Promoted(r) then
      && rec.Some?
      && rec.value.depth == CandidateDepth(before, candidate, cfg)
      && (rec.value.recorded || rec.value.mirrored || rec.value.dated ==>
            ChainLength(after, cfg) == ReadingAfter(before, candidate, cfg, rec.value))
    else
      rec == None && ChainLength(after, cfg) == ChainLength(before, cfg)
  }

  /** A promotion writes nothing the depth is read from. */
  lemma PromotionKeepsDepths(before: Fs, after: Fs, candidate: Path, cfg: Config, stamp: nat, rec: Recording)
    requires cfg.Valid() && Depths(after) == Depths(before) && forall p :: !Touched(p, stamp) ==> At(after, p) == At(before, p)
    ensures ChainLength(after, cfg) == ChainLength(before, cfg)
    ensures CandidateDepth(after, candidate, cfg) == CandidateDepth(before, candidate, cfg)
    ensures ReadingAfter(after, candidate, cfg, rec) == ReadingAfter(before, candidate, cfg, rec)
    ensures SidecarReads(after, candidate, cfg) == SidecarReads(before, candidate, cfg)
    ensures Apart(after, candidate) == Apart(before, candidate)
  {
    SameDepthReads(before, after, cfg);
    assert At(after, Record) == At(before, Record) && At(after, Mirror) == At(before, Mirror);
    assert At(after, Marker(candidate)) == At(before, Marker(candidate));
    SameMarkers(before, after, cfg);
    assert Contents(after, SidecarOf(candidate)) == Contents(before, SidecarOf(candidate)) by {
      assert At(after, SidecarOf(candidate)) == At(before, SidecarOf(candidate));
    }
  }

  /** Recording and pruning leave the outcome standing: they touch neither base, nor a counted hold. */
  lemma OutcomeStands(before: Fs, image: Bytes, stamp: nat, r: Outcome, mid: Fs, after: Fs)
    requires AllOrNothing(before, image, stamp, r, mid)
    requires At(after, DISK) == At(mid, DISK) && At(after, RAM) == At(mid, RAM)
    requires forall p: Path :: p.Keep? && p.holder == Operator ==> At(after, p) == At(mid, p)
    ensures AllOrNothing(before, image, stamp, r, after)
  {
  }

  /** A state with the bases of a crash-safe one, and no backups but its own, is crash safe. */
  lemma ThenQuiet(earlier: set<Fs>, until: set<Fs>, now: set<Fs>, before: Fs, image: Bytes, mid: Fs, cfg: Config)
    requires CrashSafeSince(until, earlier, before, image) && CrashSafe(before, image, mid)
    requires QuietSince(now, until, mid, cfg)
    ensures CrashSafeSince(now, earlier, before, image)
  {
    forall x | x in now && x !in earlier
      ensures CrashSafe(before, image, x)
    {
      if x !in until {
        assert Quiet(mid, x, cfg);
      }
    }
  }

  predicate OfDepth(p: Path, candidate: Path) {
    p == Record || p == Mirror || p.Scratch? || p == SidecarOf(candidate) || p == Marker(candidate)
  }

  /** Between a rotation's start and its prune nothing is written but what a promotion at `stamp`
      writes, the copies of the depth and the candidate's sidecar and marker. */
  ghost predicate WroteOnly(before: Fs, mid: Fs, candidate: Path, stamp: nat) {
    forall p :: At(mid, p) == At(before, p) || Touched(p, stamp) || OfDepth(p, candidate)
  }

  /** A state a rotation goes through: the earlier depth until a store took the new one, and from then on (`took`) the
      new one under a published disk base.  Where no store takes it the sidecar's own text may be what is read. */
  ghost predicate OnTheWay(before: Fs, x: Fs, candidate: Path, image: Bytes, cfg: Config, rec: Option<Recording>, took: bool) {
    if took then
      && rec.Some? && (rec.value.recorded || rec.value.mirrored)
      && ChainLength(x, cfg) == rec.value.depth && Contents(x, DISK) == Some(image)
    else
      || ChainLength(x, cfg) == ChainLength(before, cfg)
      || (rec.Some? && !rec.value.recorded && !rec.value.mirrored && Contents(x, DISK) == Some(image)
          && ChainLength(x, cfg) == SidecarReads(before, candidate, cfg))
  }

  ghost predicate OnTheWaySince(visited: set<Fs>, earlier: set<Fs>, late: set<Fs>, before: Fs, candidate: Path, image: Bytes,
                                cfg: Config, rec: Option<Recording>) {
    forall x :: x in visited && x !in earlier ==> OnTheWay(before, x, candidate, image, cfg, rec, x in late)
  }

  /** The states of a promotion, none of them late. */
  lemma PromotionOnTheWay(visited: set<Fs>, earlier: set<Fs>, before: Fs, candidate: Path, image: Bytes, cfg: Config, rec: Option<Recording>)
    requires cfg.Valid() && DepthsSince(visited, earlier, before)
    ensures OnTheWaySince(visited, earlier, {}, before, candidate, image, cfg, rec)
  {
    forall x | x in visited && x !in earlier
      ensures ChainLength(x, cfg) == ChainLength(before, cfg)
    {
      SameDepthReads(before, x, cfg);
    }
  }

  /** Then those of a recording. */
  lemma RecordingOnTheWay(visited: set<Fs>, until: set<Fs>, earlier: set<Fs>, late: set<Fs>, before: Fs, published: Fs,
                          candidate: Path, image: Bytes, cfg: Config, rec: Recording)
    requires OnTheWaySince(until, earlier, {}, before, candidate, image, cfg, Some(rec))
    requires Recorded(visited, until, late, published, candidate, cfg, rec) && SteadySince(visited, until, published)
    requires Contents(published, DISK) == Some(image) && ChainLength(published, cfg) == ChainLength(before, cfg)
    requires SidecarReads(published, candidate, cfg) == SidecarReads(before, candidate, cfg)
    requires late <= visited - until
    ensures OnTheWaySince(visited, earlier, late, before, candidate, image, cfg, Some(rec))
  {
    forall x | x in visited && x !in earlier
      ensures OnTheWay(before, x, candidate, image, cfg, Some(rec), x in late)
    {
      if x !in until {
        assert ReadsAs(published, x, candidate, cfg, rec, x in late) && Steady(published, x);
      }
    }
  }

  /** What a recording may write. */
  predicate OfRecording(p: Path, candidate: Path) {
    p in {Record, Mirror, Scratch(Record), Scratch(Mirror), SidecarOf(candidate), Marker(candidate)}
  }

  /** A recording leaves what the promotion did. */
  lemma RecordingStands(before: Fs, published: Fs, after: Fs, candidate: Path, image: Bytes, stamp: nat, r: Outcome)
    requires Promoted(r) && AllOrNothing(before, image, stamp, r, published) && CrashSafe(before, image, published)
    requires forall p :: !Touched(p, stamp) ==> At(published, p) == At(before, p)
    requires forall p :: !OfRecording(p, candidate) ==> At(after, p) == At(published, p)
    ensures AllOrNothing(before, image, stamp, r, after) && CrashSafe(before, image, after)
    ensures WroteOnly(before, after, candidate, stamp) && forall s :: At(after, Backup(s)) == At(published, Backup(s))
  {
    OutcomeStands(before, image, stamp, r, published, after);
  }

  /** And the depth follows the recording. */
  lemma DepthIsFollowed(before: Fs, published: Fs, written: Fs, after: Fs, candidate: Path, cfg: Config, stamp: nat,
                        r: Outcome, rec: Recording, since: nat)
    requires cfg.Valid() && Promoted(r)
    requires Depths(published) == Depths(before) && forall p :: !Touched(p, stamp) ==> At(published, p) == At(before, p)
    requires RecordStep(published, written, after, cfg, candidate, rec, since)
    ensures DepthFollows(before, candidate, cfg, r, Some(rec), after)
  {
    PromotionKeepsDepths(before, published, candidate, cfg, stamp, rec);
    if rec.recorded || rec.mirrored || rec.dated {
      RecordReads(published, written, after, cfg, candidate, rec, since);
    }
  }

  /** Later refusals change nothing of what a split took. */
  lemma StillTakes(before: Fs, r: Outcome, n: int, refused: int, more: int)
    requires SplitTakes(before, r, n, refused) && refused <= more
    ensures SplitTakes(before, r, n, more)
  {
  }

  /** The recording after a promotion that published, with the promotion's promise standing. */
  method RecordPromotion(h: Host, cfg: Config, candidate: Path, ghost stamp: nat, ghost r: Outcome, ghost before: Fs,
                         ghost image: Bytes, ghost earlier: set<Fs>)
    returns (rec: Option<Recording>, ghost late: set<Fs>)
    requires h.Valid() && cfg.Valid() && Promoted(r)
    requires AllOrNothing(before, image, stamp, r, h.fs) && CrashSafe(before, image, h.fs)
    requires CrashSafeSince(h.visited, earlier, before, image) && DepthsSince(h.visited, earlier, before)
    requires Depths(h.fs) == Depths(before) && forall p :: !Touched(p, stamp) ==> At(h.fs, p) == At(before, p)
    modifies h
    ensures h.Valid() && h.clock >= old(h.clock) && h.failures >= old(h.failures) && h.refusals >= old(h.refusals) && h.asked == old(h.asked)
    ensures AllOrNothing(before, image, stamp, r, h.fs) && CrashSafe(before, image, h.fs)
    ensures rec.Some? && RecordTakes(before, candidate, rec.value, h.refusals - old(h.refusals))
    ensures DepthFollows(before, candidate, cfg, r, rec, h.fs)
    ensures WroteOnly(before, h.fs, candidate, stamp) && forall s :: At(h.fs, Backup(s)) == At(old(h.fs), Backup(s))
    ensures CrashSafeSince(h.visited, earlier, before, image) && late <= h.visited
    ensures Apart(before, candidate) ==>
              && OnTheWaySince(h.visited, earlier, late, before, candidate, image, cfg, rec)
              && OnTheWay(before, h.fs, candidate, image, cfg, rec, Took(rec))
    ensures h.reliable ==> BothTook(rec)
  {
    ghost var published, seen := h.fs, h.visited;
    var done;
    ghost var written;
    done, written, late := RecordChain(h, cfg, candidate);
    rec := Some(done);
    ghost var after := h.fs;
    RecordedAfter(h.visited, seen, earlier, late, before, published, written, after, candidate, image, cfg, stamp, r, done, old(h.clock), h.refusals - old(h.refusals));
    late := late * (h.visited - seen);
  }

  /** What was refused to a recording, seen from before the promotion. */
  lemma TakesFromBefore(before: Fs, published: Fs, candidate: Path, stamp: nat, rec: Recording, refused: int)
    requires forall p :: !Touched(p, stamp) ==> At(published, p) == At(before, p)
    requires RecordTakes(published, candidate, rec, refused)
    ensures RecordTakes(before, candidate, rec, refused)
  {
    assert At(published, SidecarOf(candidate)) == At(before, SidecarOf(candidate));
  }

  /** All that a recording keeps of a promotion, and every state of both. */
  lemma RecordedAfter(visited: set<Fs>, until: set<Fs>, earlier: set<Fs>, late: set<Fs>, before: Fs, published: Fs, written: Fs, after: Fs,
                      candidate: Path, image: Bytes, cfg: Config, stamp: nat, r: Outcome, rec: Recording, since: nat, refused: int)
    requires cfg.Valid() && Promoted(r) && RecordTakes(published, candidate, rec, refused)
    requires AllOrNothing(before, image, stamp, r, published) && CrashSafe(before, image, published)
    requires CrashSafeSince(until, earlier, before, image) && DepthsSince(until, earlier, before)
    requires Depths(published) == Depths(before) && forall p :: !Touched(p, stamp) ==> At(published, p) == At(before, p)
    requires RecordStep(published, written, after, cfg, candidate, rec, since) && SteadySince(visited, until, published)
    requires Apart(published, candidate) ==>
               && Recorded(visited, until, late, published, candidate, cfg, rec)
               && ReadsAs(published, after, candidate, cfg, rec, rec.recorded || rec.mirrored)
    ensures AllOrNothing(before, image, stamp, r, after) && CrashSafe(before, image, after)
    ensures DepthFollows(before, candidate, cfg, r, Some(rec), after) && RecordTakes(before, candidate, rec, refused)
    ensures WroteOnly(before, after, candidate, stamp) && forall s :: At(after, Backup(s)) == At(published, Backup(s))
    ensures CrashSafeSince(visited, earlier, before, image)
    ensures Apart(before, candidate) ==>
              && OnTheWaySince(visited, earlier, late * (visited - until), before, candidate, image, cfg, Some(rec))
              && OnTheWay(before, after, candidate, image, cfg, Some(rec), Took(Some(rec)))
  {
    PublishedThenRecorded(before, published, written, after, candidate, image, cfg, stamp, r, rec, since);
    ThenSteady(earlier, until, visited, before, image, published);
    TakesFromBefore(before, published, candidate, stamp, rec, refused);
    if Apart(before, candidate) {
      RecordWrites(published, written, after, cfg, candidate, rec, since);
      RecordingSeen(visited, until, earlier, late, before, published, after, candidate, image, cfg, stamp, rec);
    }
  }

  /** A promotion and its recording, seen from before both. */
  lemma PublishedThenRecorded(before: Fs, published: Fs, written: Fs, after: Fs, candidate: Path, image: Bytes, cfg: Config, stamp: nat,
                              r: Outcome, rec: Recording, since: nat)
    requires cfg.Valid() && Promoted(r)
    requires AllOrNothing(before, image, stamp, r, published) && CrashSafe(before, image, published)
    requires Depths(published) == Depths(before) && forall p :: !Touched(p, stamp) ==> At(published, p) == At(before, p)
    requires RecordStep(published, written, after, cfg, candidate, rec, since)
    ensures AllOrNothing(before, image, stamp, r, after) && CrashSafe(before, image, after)
    ensures WroteOnly(before, after, candidate, stamp) && forall s :: At(after, Backup(s)) == At(published, Backup(s))
    ensures DepthFollows(before, candidate, cfg, r, Some(rec), after)
    ensures Apart(published, candidate) == Apart(before, candidate)
  {
    PromotionKeepsDepths(before, published, candidate, cfg, stamp, rec);
    RecordWrites(published, written, after, cfg, candidate, rec, since);
    RecordingStands(before, published, after, candidate, image, stamp, r);
    DepthIsFollowed(before, published, written, after, candidate, cfg, stamp, r, rec, since);
  }

  lemma RecordingSeen(visited: set<Fs>, until: set<Fs>, earlier: set<Fs>, late: set<Fs>, before: Fs, published: Fs, after: Fs,
                      candidate: Path, image: Bytes, cfg: Config, stamp: nat, rec: Recording)
    requires cfg.Valid() && DepthsSince(until, earlier, before) && Contents(published, DISK) == Some(image)
    requires Depths(published) == Depths(before) && forall p :: !Touched(p, stamp) ==> At(published, p) == At(before, p)
    requires Recorded(visited, until, late, published, candidate, cfg, rec) && SteadySince(visited, until, published)
    requires ReadsAs(published, after, candidate, cfg, rec, rec.recorded || rec.mirrored) && At(after, DISK) == At(published, DISK)
    ensures OnTheWaySince(visited, earlier, late * (visited - until), before, candidate, image, cfg, Some(rec))
    ensures OnTheWay(before, after, candidate, image, cfg, Some(rec), Took(Some(rec)))
  {
    PromotionKeepsDepths(before, published, candidate, cfg, stamp, rec);
    PromotionOnTheWay(until, earlier, before, candidate, image, cfg, Some(rec));
    RecordingOnTheWay(visited, until, earlier, late * (visited - until), before, published, candidate, image, cfg, rec);
  }

  /** A promotion that did not publish leaves the depth as it reads, and the sidecar. */
  lemma NothingRecorded(visited: set<Fs>, earlier: set<Fs>, before: Fs, after: Fs, candidate: Path, image: Bytes, cfg: Config, stamp: nat,
                        r: Outcome)
    requires cfg.Valid() && !Promoted(r) && DepthsSince(visited, earlier, before) && Depths(after) == Depths(before)
    requires forall p :: !Touched(p, stamp) ==> At(after, p) == At(before, p)
    ensures DepthFollows(before, candidate, cfg, r, None, after) && WroteOnly(before, after, candidate, stamp)
    ensures At(after, SidecarOf(candidate)) == At(before, SidecarOf(candidate))
    ensures OnTheWaySince(visited, earlier, {}, before, candidate, image, cfg, None)
    ensures OnTheWay(before, after, candidate, image, cfg, None, false)
  {
    SameDepthReads(before, after, cfg);
    PromotionOnTheWay(visited, earlier, before, candidate, image, cfg, None);
  }

  /** A promotion with its depth recorded, before the prune; `late` are the states from the first write of the depth. */
  method PromoteAndRecord(h: Host, cfg: Config, candidate: Path, stamp: nat)
    returns (r: Outcome, rec: Option<Recording>, ghost late: set<Fs>)
    requires h.Valid() && cfg.Valid()
    modifies h
    ensures h.Valid() && h.clock >= old(h.clock) && h.failures >= old(h.failures) && h.refusals >= old(h.refusals) && old(h.asked) <= h.asked
    ensures !IsFile(old(h.fs), candidate) ==> !Promoted(r)
    ensures r == Broken <==> At(old(h.fs), candidate) == None || LastAnswer(old(h.asked), h.asked, None)
    ensures Promoted(r) ==> h.asked == old(h.asked) + Asks(old(h.fs), candidate)
    ensures !Promoted(r) ==> At(h.fs, SidecarOf(candidate)) == At(old(h.fs), SidecarOf(candidate))
    ensures SplitTakes(old(h.fs), r, 2, h.refusals - old(h.refusals))
    ensures rec.Some? ==> RecordTakes(old(h.fs), candidate, rec.value, h.refusals - old(h.refusals))
    ensures AllOrNothing(old(h.fs), Contents(old(h.fs), candidate).Or([]), stamp, r, h.fs)
    ensures BackedUp(old(h.fs), stamp, r, h.fs, h.failures == old(h.failures), old(h.clock))
    ensures DepthFollows(old(h.fs), candidate, cfg, r, rec, h.fs)
    ensures WroteOnly(old(h.fs), h.fs, candidate, stamp)
    ensures forall s :: s != stamp ==> At(h.fs, Backup(s)) == At(old(h.fs), Backup(s))
    ensures CrashSafe(old(h.fs), Contents(old(h.fs), candidate).Or([]), h.fs)
    ensures CrashSafeSince(h.visited, old(h.visited), old(h.fs), Contents(old(h.fs), candidate).Or([]))
    ensures Apart(old(h.fs), candidate) ==>
              && OnTheWaySince(h.visited, old(h.visited), late, old(h.fs), candidate, Contents(old(h.fs), candidate).Or([]), cfg, rec)
              && OnTheWay(old(h.fs), h.fs, candidate, Contents(old(h.fs), candidate).Or([]), cfg, rec, Took(rec))
    ensures late <= h.visited
    ensures h.reliable && IsFile(old(h.fs), candidate) && !Sweepable(candidate) ==> r == Published && BothTook(rec)
  {
    ghost var image := Contents(h.fs, candidate).Or([]);
    r := Promote(h, candidate, stamp);
    rec, late := None, {};
    ghost var published, seen := h.fs, h.visited;
    if !Promoted(r) {
      NothingRecorded(seen, old(h.visited), old(h.fs), published, candidate, image, cfg, stamp, r);
    }
    if Promoted(r) {
      ghost var refused := h.refusals;
      rec, late := RecordPromotion(h, cfg, candidate, stamp, r, old(h.fs), image, old(h.visited));
      StillTakes(old(h.fs), r, 2, refused - old(h.refusals), h.refusals - old(h.refusals));
    }
  }

  predicate Took(rec: Option<Recording>) {
    rec.Some? && (rec.value.recorded || rec.value.mirrored)
  }

  predicate BothTook(rec: Option<Recording>) {
    rec.Some? && rec.value.recorded && rec.value.mirrored
  }

  /** What one rotation promises, from the stores it found (`before`), through the promotion and the
      recording (`mid`), to the stores it left. */
  ghost predicate Rotated(before: Fs, mid: Fs, after: Fs, cfg: Config, live: set<Proc>, candidate: Path, stamp: nat,
                          r: Outcome, rec: Option<Recording>, since: nat, now: nat, clean: bool) {
    && AllOrNothing(before, Contents(before, candidate).Or([]), stamp, r, after)
    && WroteOnly(before, mid, candidate, stamp)
    && BackedUp(before, stamp, r, mid, clean, since)
    && (forall s :: s != stamp ==> At(mid, Backup(s)) == At(before, Backup(s)))
    && DepthFollows(before, candidate, cfg, r, rec, after)
    && Pruned(mid, after, now, cfg, live, KeptBy(mid, live, Some(candidate), if r.Split? then r.backup else None), clean)
    && (r.Split? && r.backup.Some? ==> Contents(after, r.backup.value) == Contents(before, DISK))
  }

  /** A prune after a promotion and its recording completes the rotation's promise. */
  lemma Conclude(before: Fs, mid: Fs, after: Fs, cfg: Config, live: set<Proc>, candidate: Path, stamp: nat,
                 r: Outcome, rec: Option<Recording>, since: nat, now: nat, clean: bool)
    requires AllOrNothing(before, Contents(before, candidate).Or([]), stamp, r, mid)
    requires BackedUp(before, stamp, r, mid, clean, since) && WroteOnly(before, mid, candidate, stamp)
    requires forall s :: s != stamp ==> At(mid, Backup(s)) == At(before, Backup(s))
    requires DepthFollows(before, candidate, cfg, r, rec, mid) && ChainLength(after, cfg) == ChainLength(mid, cfg)
    requires Pruned(mid, after, now, cfg, live, KeptBy(mid, live, Some(candidate), if r.Split? then r.backup else None), clean)
    ensures Rotated(before, mid, after, cfg, live, candidate, stamp, r, rec, since, now, clean)
  {
    OutcomeStands(before, Contents(before, candidate).Or([]), stamp, r, mid, after);
    if r.Split? && r.backup.Some? {
      assert r.backup.value in KeptBy(mid, live, Some(candidate), r.backup);
      assert At(after, r.backup.value) == At(mid, r.backup.value);
    }
  }

  /** And the states of the prune read as the one it started from. */
  lemma PruneOnTheWay(visited: set<Fs>, until: set<Fs>, earlier: set<Fs>, late: set<Fs>, before: Fs, mid: Fs, after: Fs,
                      candidate: Path, image: Bytes, cfg: Config, rec: Option<Recording>)
    requires OnTheWaySince(until, earlier, late, before, candidate, image, cfg, rec)
    requires OnTheWay(before, mid, candidate, image, cfg, rec, Took(rec))
    requires QuietSince(visited, until, mid, cfg) && Quiet(mid, after, cfg) && late <= until
    ensures OnTheWaySince(visited, earlier, if Took(rec) then late + (visited - until) else late, before, candidate, image, cfg, rec)
    ensures OnTheWay(before, after, candidate, image, cfg, rec, Took(rec))
  {
    forall x | x in visited && x !in earlier
      ensures OnTheWay(before, x, candidate, image, cfg, rec, x in if Took(rec) then late + (visited - until) else late)
    {
      if x !in until {
        assert Quiet(mid, x, cfg);
      }
    }
  }

  /** All that the states of the prune keep. */
  lemma ThenPruned(visited: set<Fs>, until: set<Fs>, earlier: set<Fs>, late: set<Fs>, before: Fs, mid: Fs, after: Fs,
                   candidate: Path, image: Bytes, cfg: Config, rec: Option<Recording>)
    requires CrashSafeSince(until, earlier, before, image) && CrashSafe(before, image, mid)
    requires QuietSince(visited, until, mid, cfg) && Quiet(mid, after, cfg) && late <= until
    requires Apart(before, candidate) ==>
               && OnTheWaySince(until, earlier, late, before, candidate, image, cfg, rec)
               && OnTheWay(before, mid, candidate, image, cfg, rec, Took(rec))
    ensures CrashSafeSince(visited, earlier, before, image) && CrashSafe(before, image, after)
    ensures Apart(before, candidate) ==>
              && OnTheWaySince(visited, earlier, if Took(rec) then late + (visited - until) else late, before, candidate, image, cfg, rec)
              && OnTheWay(before, after, candidate, image, cfg, rec, Took(rec))
  {
    ThenQuiet(earlier, until, visited, before, image, mid, cfg);
    if Apart(before, candidate) {
      PruneOnTheWay(visited, until, earlier, late, before, mid, after, candidate, image, cfg, rec);
    }
  }

  /** The candidate's sidecar is kept with it. */
  lemma SidecarStays(mid: Fs, after: Fs, candidate: Path, needed: Option<Path>, now: nat, cfg: Config, live: set<Proc>, clean: bool)
    requires Pruned(mid, after, now, cfg, live, KeptBy(mid, live, Some(candidate), needed), clean)
    ensures At(after, SidecarOf(candidate)) == At(mid, SidecarOf(candidate))
  {
    assert SidecarOf(candidate) in KeptBy(mid, live, Some(candidate), needed);
  }

  method RotateLocked(h: Host, cfg: Config, live: set<Proc>, candidate: Path, stamp: nat)
    returns (r: Outcome, rec: Option<Recording>, ghost mid: Fs, ghost late: set<Fs>)
    requires h.Valid() && cfg.Valid()
    modifies h
    ensures h.Valid() && h.clock >= old(h.clock) && h.failures >= old(h.failures) && h.refusals >= old(h.refusals) && old(h.asked) <= h.asked
    ensures !IsFile(old(h.fs), candidate) ==> !Promoted(r)
    ensures r == Broken <==> At(old(h.fs), candidate) == None || LastAnswer(old(h.asked), h.asked, None)
    ensures Promoted(r) ==> h.asked == old(h.asked) + Asks(old(h.fs), candidate)
    ensures !Promoted(r) ==> At(h.fs, SidecarOf(candidate)) == At(old(h.fs), SidecarOf(candidate))
    ensures SplitTakes(old(h.fs), r, 2, h.refusals - old(h.refusals))
    ensures rec.Some? ==> RecordTakes(old(h.fs), candidate, rec.value, h.refusals - old(h.refusals))
    ensures Rotated(old(h.fs), mid, h.fs, cfg, live, candidate, stamp, r, rec, old(h.clock), h.clock, h.failures == old(h.failures))
    ensures CrashSafe(old(h.fs), Contents(old(h.fs), candidate).Or([]), h.fs)
    ensures CrashSafeSince(h.visited, old(h.visited), old(h.fs), Contents(old(h.fs), candidate).Or([]))
    ensures Apart(old(h.fs), candidate) ==>
              && OnTheWaySince(h.visited, old(h.visited), late, old(h.fs), candidate, Contents(old(h.fs), candidate).Or([]), cfg, rec)
              && OnTheWay(old(h.fs), h.fs, candidate, Contents(old(h.fs), candidate).Or([]), cfg, rec, Took(rec))
    ensures h.reliable && IsFile(old(h.fs), candidate) && !Sweepable(candidate) ==> r == Published && BothTook(rec)
  {
    ghost var image := Contents(h.fs, candidate).Or([]);
    r, rec, late := PromoteAndRecord(h, cfg, candidate, stamp);
    mid := h.fs;
    ghost var seen, failed := h.visited, h.failures;
    var needed := if r.Split? then r.backup else None;
    Prune(h, cfg, live, Some(candidate), needed);
    ThenPruned(h.visited, seen, old(h.visited), late, old(h.fs), mid, h.fs, candidate, image, cfg, rec);
    SidecarStays(mid, h.fs, candidate, needed, h.clock, cfg, live, h.failures == failed);
    late := if Took(rec) then late + (h.visited - seen) else late;
    Conclude(old(h.fs), mid, h.fs, cfg, live, candidate, stamp, r, rec, old(h.clock), h.clock, h.failures == old(h.failures));
  }

  /** `rotate`: a candidate that is no regular file is refused before the lock, a held lock at once. */
  method Rotate(h: Host, cfg: Config, live: set<Proc>, candidate: Path, stamp: nat)
    returns (r: Outcome, rec: Option<Recording>, ghost mid: Fs, ghost late: set<Fs>, ghost locked: bool)
    requires h.Valid() && cfg.Valid()
    modifies h
    ensures h.Valid() && h.clock >= old(h.clock) && h.failures >= old(h.failures) && h.refusals >= old(h.refusals) && old(h.asked) <= h.asked
    ensures !locked ==> r == NothingPublished && rec == None && h.fs == old(h.fs)
    ensures r == Broken <==> LastAnswer(old(h.asked), h.asked, None)
    ensures Promoted(r) ==> h.asked == old(h.asked) + Asks(old(h.fs), candidate)
    ensures !Promoted(r) ==> At(h.fs, SidecarOf(candidate)) == At(old(h.fs), SidecarOf(candidate))
    ensures SplitTakes(old(h.fs), r, 2, h.refusals - old(h.refusals))
    ensures rec.Some? ==> RecordTakes(old(h.fs), candidate, rec.value, h.refusals - old(h.refusals))
    ensures rec.Some? <==> Promoted(r)
    ensures locked ==> IsFile(old(h.fs), candidate)
    ensures locked ==> Rotated(old(h.fs), mid, h.fs, cfg, live, candidate, stamp, r, rec, old(h.clock), h.clock, h.failures == old(h.failures))
    ensures CrashSafe(old(h.fs), Contents(old(h.fs), candidate).Or([]), h.fs)
    ensures CrashSafeSince(h.visited, old(h.visited), old(h.fs), Contents(old(h.fs), candidate).Or([]))
    ensures Apart(old(h.fs), candidate) ==>
              && OnTheWaySince(h.visited, old(h.visited), late, old(h.fs), candidate, Contents(old(h.fs), candidate).Or([]), cfg, rec)
              && OnTheWay(old(h.fs), h.fs, candidate, Contents(old(h.fs), candidate).Or([]), cfg, rec, Took(rec))
    ensures h.reliable && IsFile(old(h.fs), candidate) && !Sweepable(candidate) ==> locked && r == Published && BothTook(rec)
  {
    r, rec, mid, late, locked := NothingPublished, None, h.fs, {}, false;
    var busy := h.Refuses();
    if IsFile(h.fs, candidate) && !busy {
      r, rec, mid, late := RotateLocked(h, cfg, live, candidate, stamp);
      locked := true;
    }
  }
}
