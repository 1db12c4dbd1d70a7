/** The rebake depth of the promoted golden: kept beside the golden (the record), off the images
    store (the mirror) and, when neither takes a write, in the renamed sidecar (a marker).  The
    newest copy is the depth. */
module Chain {
  import opened Options
  import opened Decimal
  import opened Host

  type Positive = n: nat | n >= 1 witness 1

  /** What the gate asks a worker about, and a knob that may name one: unset, set to what is no file, or set. */
  type Sample = string
  datatype Knob = Unset | Missing | Set(sample: Sample)

  /** The knobs; `glob` is the order a directory lists equally new markers in, any fixed order; `verdict` is what a
      worker that boots off an image says of a sample. */
  datatype Config = Config(keepN: nat, maxChain: Positive, candidateKeep: nat, stranded: nat, hour: nat,
                           glob: set<Path> -> Path, benign: Knob, revoked: Knob, verdict: (Bytes, Sample) -> string) {
    /** The gate: the benign sample has to be Valid, and the revoked one, when there is one, Revoked. */
    predicate Gate(image: Bytes) {
      && benign.Set? && verdict(image, benign.sample) == "Valid"
      && !revoked.Missing? && (revoked.Set? ==> verdict(image, revoked.sample) == "Revoked")
    }

    ghost predicate Valid() {
      && (forall s :: s != {} ==> glob(s) in s)
      && forall s, t :: s <= t && glob(t) in s ==> glob(s) == glob(t)
    }
  }

  /** `_mtime(p) or 0` */
  function Mtime(fs: Fs, p: Path): nat {
    if At(fs, p).Some? then At(fs, p).value.mtime else 0
  }

  /** None where there is no such copy; unreadable provenance reads as the depth that forces a master bake. */
  function ReadDepth(fs: Fs, p: Path, cfg: Config): Option<int> {
    if At(fs, p) == None then None
    else if IsFile(fs, p) then Some(ReadInt(At(fs, p).value.data).Or(cfg.maxChain))
    else Some(cfg.maxChain)
  }

  function Markers(fs: Fs): set<Path> {
    set p | p in fs && p.Marker?
  }

  function NewestMarkers(fs: Fs): set<Path> {
    set p | p in Markers(fs) && forall q | q in Markers(fs) :: Mtime(fs, q) <= Mtime(fs, p)
  }

  /** One copy of the depth with its date. */
  datatype Copy = Copy(date: nat, depth: int)

  function CopyAt(fs: Fs, p: Path, cfg: Config): Option<Copy> {
    match ReadDepth(fs, p, cfg)
    case None => None
    case Some(d) => Some(Copy(Mtime(fs, p), d))
  }

  function MarkerCopy(fs: Fs, cfg: Config): Option<Copy> {
    if NewestMarkers(fs) == {} then None else CopyAt(fs, cfg.glob(NewestMarkers(fs)), cfg)
  }

  /** `max` over two copies: the first one wins a tie. */
  function Newer(a: Option<Copy>, b: Option<Copy>): Option<Copy> {
    if b.Some? && (a == None || b.value.date > a.value.date) then b else a
  }

  function Depth(c: Option<Copy>): int {
    if c.Some? then c.value.depth else 0
  }

  function NewestCopy(fs: Fs, cfg: Config): Option<Copy> {
    Newer(Newer(CopyAt(fs, Record, cfg), CopyAt(fs, Mirror, cfg)), MarkerCopy(fs, cfg))
  }

  function ChainLength(fs: Fs, cfg: Config): int {
    Depth(NewestCopy(fs, cfg))
  }

  /** An image's sidecar is its name with `.chain`: for the disk base that is the record, for one name the mirror. */
  function SidecarOf(image: Path): Path {
    if image == DISK then Record else if image == MirrorStem then Mirror else Sidecar(image)
  }

  /** The depth a promotion records: an empty sidecar is 0, a missing or garbled one forces a master bake. */
  function CandidateDepth(fs: Fs, candidate: Path, cfg: Config): int {
    match Contents(fs, SidecarOf(candidate))
    case None => cfg.maxChain
    case Some(text) => if Strip(text) == [] then 0 else ReadInt(text).Or(cfg.maxChain)
  }

  /** What became of the commands of one recording. */
  datatype Recording = Recording(depth: int, mirrored: bool, recorded: bool, sidecarGone: bool, staleGone: bool, dated: bool)

  // ---- the newest marker

  lemma {:induction false} NewestExists(fs: Fs, among: set<Path>) returns (m: Path)
    requires among != {}
    ensures m in among && forall q :: q in among ==> Mtime(fs, q) <= Mtime(fs, m)
  {
    m :| m in among;
    if among != {m} {
      var rest := among - {m};
      assert among == rest + {m};
      var n := NewestExists(fs, rest);
      if Mtime(fs, n) > Mtime(fs, m) {
        m := n;
      }
    }
  }

  lemma MarkerCopyIsNewest(fs: Fs, cfg: Config)
    requires cfg.Valid()
    ensures Markers(fs) == {} ==> MarkerCopy(fs, cfg) == None
    ensures Markers(fs) != {} ==> MarkerCopy(fs, cfg).Some?
    ensures forall p: Path :: p.Marker? && At(fs, p).Some? ==>
              MarkerCopy(fs, cfg).Some? && Mtime(fs, p) <= MarkerCopy(fs, cfg).value.date
  {
    if Markers(fs) != {} {
      var m := NewestExists(fs, Markers(fs));
      assert m in NewestMarkers(fs);
      var g := cfg.glob(NewestMarkers(fs));
      assert g in NewestMarkers(fs);
      assert g in fs;
    }
    forall p: Path | p.Marker? && At(fs, p).Some?
      ensures p in Markers(fs)
    {
    }
  }

  /** The copies a set of markers makes depend on the markers alone. */
  lemma SameMarkers(a: Fs, b: Fs, cfg: Config)
    requires forall p: Path :: p.Marker? ==> At(a, p) == At(b, p)
    requires cfg.Valid()
    ensures MarkerCopy(a, cfg) == MarkerCopy(b, cfg)
  {
    forall p: Path
      ensures p in Markers(a) <==> p in Markers(b)
    {
      if p.Marker? {
        assert At(a, p) == At(b, p);
      }
    }
    assert Markers(a) == Markers(b);
    assert forall p :: p in Markers(a) ==> Mtime(a, p) == Mtime(b, p);
    assert NewestMarkers(a) == NewestMarkers(b);
    if NewestMarkers(a) != {} {
      var g := cfg.glob(NewestMarkers(a));
      assert g in NewestMarkers(a);
      assert At(a, g) == At(b, g);
    }
  }

  /** The depth depends on its copies alone. */
  lemma SameChain(a: Fs, b: Fs, cfg: Config)
    requires cfg.Valid()
    requires At(a, Record) == At(b, Record) && At(a, Mirror) == At(b, Mirror)
    requires forall p: Path :: p.Marker? ==> At(a, p) == At(b, p)
    ensures ChainLength(a, cfg) == ChainLength(b, cfg)
  {
    SameMarkers(a, b, cfg);
    assert CopyAt(a, Record, cfg) == CopyAt(b, Record, cfg);
    assert CopyAt(a, Mirror, cfg) == CopyAt(b, Mirror, cfg);
  }

  lemma SameDepthReads(a: Fs, b: Fs, cfg: Config)
    requires cfg.Valid() && Depths(a) == Depths(b)
    ensures ChainLength(a, cfg) == ChainLength(b, cfg)
  {
    forall p | IsDepth(p)
      ensures At(a, p) == At(b, p)
    {
      DepthsAt(a, b, p);
    }
    SameChain(a, b, cfg);
  }

  /** A marker dated after every other copy is the depth. */
  lemma NewestMarkerRules(fs: Fs, cfg: Config, m: Path)
    requires cfg.Valid() && m.Marker? && At(fs, m).Some?
    requires forall p: Path :: p != m && (p == Record || p == Mirror || p.Marker?) && At(fs, p).Some? ==> Mtime(fs, p) < Mtime(fs, m)
    ensures ReadDepth(fs, m, cfg) == Some(ChainLength(fs, cfg))
  {
    MarkerCopyIsNewest(fs, cfg);
    var g := cfg.glob(NewestMarkers(fs));
    assert m in Markers(fs);
    assert g in NewestMarkers(fs);
    assert g == m;
  }

  /** The copies in the order in which the latest is taken: by date, and of one date the record first, then the mirror. */
  ghost predicate Latest(fs: Fs, p: Path) {
    && IsDepth(p) && At(fs, p).Some?
    && forall q :: IsDepth(q) && q != p && At(fs, q).Some? ==>
         if p == Record || (p == Mirror && q != Record) then At(fs, q).value.mtime <= At(fs, p).value.mtime
         else At(fs, q).value.mtime < At(fs, p).value.mtime
  }

  /** The depth is what the latest copy says, the depth that forces a master bake where that is no number, and 0 where
      there is no copy. */
  lemma LatestRules(fs: Fs, cfg: Config, p: Path)
    requires cfg.Valid()
    ensures (forall q :: IsDepth(q) ==> At(fs, q) == None) ==> ChainLength(fs, cfg) == 0
    ensures Latest(fs, p) ==>
              ChainLength(fs, cfg) == match Contents(fs, p)
                                      case None => cfg.maxChain
                                      case Some(text) => match ReadInt(text) case None => cfg.maxChain case Some(n) => n
  {
    MarkerCopyIsNewest(fs, cfg);
    if forall q :: IsDepth(q) ==> At(fs, q) == None {
      assert At(fs, Record) == None && At(fs, Mirror) == None;
      forall q
        ensures q !in Markers(fs)
      {
        assert IsDepth(q) ==> At(fs, q) == None;
      }
    }
    if Latest(fs, p) {
      LatestReads(fs, cfg, p);
    }
  }

  lemma LatestReads(fs: Fs, cfg: Config, p: Path)
    requires cfg.Valid() && Latest(fs, p)
    ensures Some(ChainLength(fs, cfg)) == ReadDepth(fs, p, cfg)
  {
    MarkerCopyIsNewest(fs, cfg);
    assert IsDepth(Record) && IsDepth(Mirror) && (p.Marker? ==> p in Markers(fs));
    if NewestMarkers(fs) != {} {
      var g := cfg.glob(NewestMarkers(fs));
      assert g in NewestMarkers(fs) && g in Markers(fs) && IsDepth(g) && At(fs, g).Some?;
      assert p.Marker? ==> g == p;
    }
  }

  /** A marker that was not there can only bring in its own depth. */
  lemma MarkerArrives(before: Fs, after: Fs, cfg: Config, m: Path)
    requires cfg.Valid() && m.Marker? && At(before, m) == None && At(after, m).Some?
    requires forall p :: IsDepth(p) && p != m ==> At(after, p) == At(before, p)
    ensures ChainLength(after, cfg) == ChainLength(before, cfg) || Some(ChainLength(after, cfg)) == ReadDepth(after, m, cfg)
  {
    MarkerCopyIsNewest(before, cfg);
    MarkerCopyIsNewest(after, cfg);
    ArrivedMarkerCopy(before, after, cfg, m);
    assert CopyAt(after, Record, cfg) == CopyAt(before, Record, cfg);
    assert CopyAt(after, Mirror, cfg) == CopyAt(before, Mirror, cfg);
  }

  lemma ArrivedMarkerCopy(before: Fs, after: Fs, cfg: Config, m: Path)
    requires cfg.Valid() && m.Marker? && At(before, m) == None && At(after, m).Some?
    requires forall p :: IsDepth(p) && p != m ==> At(after, p) == At(before, p)
    ensures MarkerCopy(after, cfg) == MarkerCopy(before, cfg) || MarkerCopy(after, cfg) == CopyAt(after, m, cfg)
  {
    forall p
      ensures p in Markers(after) <==> p in Markers(before) || p == m
      ensures p in Markers(before) ==> p != m && At(after, p) == At(before, p)
    {
      if p.Marker? && p != m {
        assert At(after, p) == At(before, p);
      }
    }
    var g := cfg.glob(NewestMarkers(after));
    var n := NewestExists(after, Markers(after));
    assert n in NewestMarkers(after);
    assert g in NewestMarkers(after);
    if g != m {
      assert forall p :: p in NewestMarkers(before) ==> Mtime(before, g) == Mtime(before, p) && p in NewestMarkers(after);
      assert g in NewestMarkers(before);
      assert NewestMarkers(before) <= NewestMarkers(after);
      assert cfg.glob(NewestMarkers(before)) == g;
    }
  }

  // ---- recording

  /** `_keep_as_unrecorded`; `dated` when the marker was made and re-dated by this call. */
  method KeepAsUnrecorded(h: Host, candidate: Path) returns (kept: bool, dated: bool)
    requires h.Valid()
    modifies h
    ensures h.Valid() && h.clock >= old(h.clock) && h.failures == old(h.failures) && h.refusals >= old(h.refusals) && h.asked == old(h.asked)
    ensures kept ==> IsFile(h.fs, Marker(candidate))
    ensures At(old(h.fs), SidecarOf(candidate)) == None ==> h.fs == old(h.fs) && h.visited == old(h.visited)
    ensures At(old(h.fs), SidecarOf(candidate)) == None ==> (kept <==> IsFile(h.fs, Marker(candidate)))
    ensures dated ==> kept && MarkedAs(old(h.fs), h.fs, candidate, old(h.clock))
    ensures MovedOrNot(old(h.fs), h.fs, candidate)
    ensures forall x :: x in h.visited && x !in old(h.visited) ==> MovedOrNot(old(h.fs), x, candidate)
    ensures SteadySince(h.visited, old(h.visited), old(h.fs))
    ensures IsFile(old(h.fs), SidecarOf(candidate)) && !dated ==> h.refusals > old(h.refusals)
    ensures h.reliable && At(old(h.fs), SidecarOf(candidate)).Some? ==> dated
  {
    var sidecar := SidecarOf(candidate);
    if At(h.fs, sidecar) == None {
      return IsFile(h.fs, Marker(candidate)), false;
    }
    var rc := h.Mv(sidecar, Marker(candidate));
    kept := rc == 0 && IsFile(h.fs, Marker(candidate));
    dated := false;
    if kept {
      dated := h.Touch(Marker(candidate));
    }
  }

  /** The sidecar where it was, or under the marker's name, and everything else as it was. */
  ghost predicate MovedOrNot(a: Fs, b: Fs, candidate: Path) {
    && (forall p :: p != SidecarOf(candidate) && p != Marker(candidate) ==> At(b, p) == At(a, p))
    && (|| (At(b, SidecarOf(candidate)) == At(a, SidecarOf(candidate)) && At(b, Marker(candidate)) == At(a, Marker(candidate)))
        || (At(b, SidecarOf(candidate)) == None && At(b, Marker(candidate)).Some?
            && Contents(b, Marker(candidate)) == Contents(a, SidecarOf(candidate))))
  }

  /** What the depth reads as once a promotion of `candidate` was recorded as `rec` says.  The two names whose
      sidecar is itself a copy of the depth stand apart: there the tidying up takes what was just written. */
  function ReadingAfter(before: Fs, candidate: Path, cfg: Config, rec: Recording): int {
    if rec.recorded && !rec.mirrored && candidate == DISK && rec.sidecarGone then
      Depth(Newer(if rec.staleGone then None else CopyAt(before, Mirror, cfg), MarkerCopy(before, cfg)))
    else if rec.mirrored && !rec.recorded && candidate == MirrorStem && rec.sidecarGone then
      Depth(Newer(if rec.staleGone then None else CopyAt(before, Record, cfg), MarkerCopy(before, cfg)))
    else if rec.recorded || rec.mirrored then
      rec.depth
    else
      SidecarReads(before, candidate, cfg)
  }

  /** What a marker made of the sidecar reads as; unlike a recording it takes a blank one for unknown provenance. */
  function SidecarReads(fs: Fs, candidate: Path, cfg: Config): int {
    match Contents(fs, SidecarOf(candidate))
    case None => cfg.maxChain
    case Some(text) => ReadInt(text).Or(cfg.maxChain)
  }

  /** A copy dated after the markers, and no other copy at all or one that agrees or is older. */
  ghost predicate Rules(fs: Fs, cfg: Config, p: Path, other: Path, depth: int, since: nat) {
    && CopyAt(fs, p, cfg).Some?
    && CopyAt(fs, p, cfg).value.depth == depth
    && since < CopyAt(fs, p, cfg).value.date
    && (CopyAt(fs, other, cfg).Some? ==> CopyAt(fs, other, cfg).value.date <= since || CopyAt(fs, other, cfg).value.depth == depth)
    && forall m: Path :: m.Marker? && At(fs, m).Some? ==> Mtime(fs, m) <= since
  }

  lemma RuledBy(fs: Fs, cfg: Config, p: Path, other: Path, depth: int, since: nat)
    requires cfg.Valid() && ((p == Record && other == Mirror) || (p == Mirror && other == Record))
    requires Rules(fs, cfg, p, other, depth, since)
    ensures ChainLength(fs, cfg) == depth
  {
    if NewestMarkers(fs) != {} {
      var g := cfg.glob(NewestMarkers(fs));
      assert g in NewestMarkers(fs);
      assert Mtime(fs, g) <= since;
    }
  }

  /** The state between the two writes of a recording and the tidying up after them. */
  ghost predicate Written(before: Fs, now: Fs, cfg: Config, depth: int, mirrored: bool, recorded: bool, since: nat) {
    && (forall p :: At(before, p).Some? ==> At(before, p).value.mtime <= since)
    && (if mirrored then
          && CopyAt(now, Mirror, cfg).Some?
          && CopyAt(now, Mirror, cfg).value.depth == depth
          && since < CopyAt(now, Mirror, cfg).value.date
        else At(now, Mirror) == At(before, Mirror))
    && (if recorded then
          && CopyAt(now, Record, cfg).Some?
          && CopyAt(now, Record, cfg).value.depth == depth
          && since < CopyAt(now, Record, cfg).value.date
        else At(now, Record) == At(before, Record))
    && forall p :: p !in {Record, Mirror, Scratch(Record), Scratch(Mirror)} ==> At(now, p) == At(before, p)
  }

  /** What tidying up after a recording leaves, path by path. */
  ghost predicate Tidied(written: Fs, after: Fs, candidate: Path, rec: Recording, since: nat) {
    if rec.recorded then
      Without(written, SidecarOf(candidate), rec.sidecarGone, Mirror, !rec.mirrored && rec.staleGone, after)
    else if rec.mirrored then
      Without(written, SidecarOf(candidate), rec.sidecarGone, Record, rec.staleGone, after)
    else
      MovedOrNot(written, after, candidate) && (rec.dated ==> MarkedAs(written, after, candidate, since))
  }

  ghost predicate Without(a: Fs, p: Path, pGone: bool, q: Path, qGone: bool, b: Fs) {
    forall x :: At(b, x) == if (x == p && pGone) || (x == q && qGone) then None else At(a, x)
  }

  /** The sidecar under the marker's name, dated after everything else. */
  ghost predicate MarkedAs(a: Fs, b: Fs, candidate: Path, since: nat) {
    && IsFile(a, SidecarOf(candidate)) && Contents(b, Marker(candidate)) == Contents(a, SidecarOf(candidate))
    && since < Mtime(b, Marker(candidate)) && At(b, SidecarOf(candidate)) == None
    && forall p :: p != SidecarOf(candidate) && p != Marker(candidate) ==> At(b, p) == At(a, p)
  }

  /** One recording, command by command: from the stores before it, through the two writes, to the stores after. */
  ghost predicate RecordStep(before: Fs, written: Fs, after: Fs, cfg: Config, candidate: Path, rec: Recording, since: nat) {
    && rec.depth == CandidateDepth(before, candidate, cfg)
    && Written(before, written, cfg, rec.depth, rec.mirrored, rec.recorded, since)
    && Tidied(written, after, candidate, rec, since)
  }

  /** It writes the copies of the depth, their temporaries, the sidecar and the marker. */
  lemma RecordWrites(before: Fs, written: Fs, after: Fs, cfg: Config, candidate: Path, rec: Recording, since: nat)
    requires RecordStep(before, written, after, cfg, candidate, rec, since)
    ensures forall p :: p !in {Record, Mirror, Scratch(Record), Scratch(Mirror), SidecarOf(candidate), Marker(candidate)} ==>
              At(after, p) == At(before, p)
  {
  }

  /** And what the depth reads as after it. */
  lemma RecordReads(before: Fs, written: Fs, after: Fs, cfg: Config, candidate: Path, rec: Recording, since: nat)
    requires cfg.Valid() && RecordStep(before, written, after, cfg, candidate, rec, since)
    requires rec.recorded || rec.mirrored || rec.dated
    ensures ChainLength(after, cfg) == ReadingAfter(before, candidate, cfg, rec)
  {
    if rec.recorded {
      if candidate == DISK && rec.sidecarGone {
        SelfRecordReads(before, written, after, cfg, rec, since);
      } else {
        assert At(after, Record) == At(written, Record);
        RuledBy(after, cfg, Record, Mirror, rec.depth, since);
      }
    } else if rec.mirrored {
      if candidate == MirrorStem && rec.sidecarGone {
        assert forall p: Path :: p.Marker? ==> At(after, p) == At(before, p);
        SameMarkers(before, after, cfg);
      } else {
        assert At(after, Mirror) == At(written, Mirror);
        RuledBy(after, cfg, Mirror, Record, rec.depth, since);
      }
    } else {
      MarkerReads(before, written, after, cfg, candidate, rec, since);
    }
  }

  lemma SelfRecordReads(before: Fs, written: Fs, after: Fs, cfg: Config, rec: Recording, since: nat)
    requires cfg.Valid() && RecordStep(before, written, after, cfg, DISK, rec, since) && rec.recorded && rec.sidecarGone
    ensures ChainLength(after, cfg) == ReadingAfter(before, DISK, cfg, rec)
  {
    if rec.mirrored {
      assert At(after, Mirror) == At(written, Mirror) && At(after, Record) == None;
      RuledBy(after, cfg, Mirror, Record, rec.depth, since);
    } else {
      assert forall p: Path :: p.Marker? ==> At(after, p) == At(before, p);
      SameMarkers(before, after, cfg);
    }
  }

  lemma MarkerReads(before: Fs, written: Fs, after: Fs, cfg: Config, candidate: Path, rec: Recording, since: nat)
    requires cfg.Valid() && RecordStep(before, written, after, cfg, candidate, rec, since)
    requires !rec.recorded && !rec.mirrored && rec.dated
    ensures ChainLength(after, cfg) == SidecarReads(before, candidate, cfg)
  {
    assert At(written, SidecarOf(candidate)) == At(before, SidecarOf(candidate));
    forall p: Path | p != Marker(candidate) && IsDepth(p) && At(after, p).Some?
      ensures Mtime(after, p) <= since
    {
      assert p != SidecarOf(candidate);
      assert At(after, p) == At(before, p);
    }
    NewestMarkerRules(after, cfg, Marker(candidate));
  }

  // ---- the states on the way

  /** The depth reads as `depth` in every state gained. */
  ghost predicate ReadsSince(visited: set<Fs>, earlier: set<Fs>, cfg: Config, depth: int) {
    forall x :: x in visited && x !in earlier ==> ChainLength(x, cfg) == depth
  }

  function OtherStore(p: Path): Path {
    if p == Record then Mirror else Record
  }

  /** One small write of the depth: every state on the way reads as before, the last one as was written. */
  method WriteDepth(h: Host, cfg: Config, p: Path, depth: int, ghost since: nat) returns (ok: bool)
    requires h.Valid() && cfg.Valid() && (p == Record || p == Mirror)
    requires since <= h.clock && forall q: Path :: q.Marker? && At(h.fs, q).Some? ==> Mtime(h.fs, q) <= since
    requires var q := OtherStore(p);
             CopyAt(h.fs, q, cfg).Some? ==> CopyAt(h.fs, q, cfg).value.date <= since || CopyAt(h.fs, q, cfg).value.depth == depth
    modifies h
    ensures h.Valid() && h.clock >= old(h.clock) && h.failures == old(h.failures) && h.refusals >= old(h.refusals) && h.asked == old(h.asked) && old(h.visited) <= h.visited
    ensures ok ==> CopyAt(h.fs, p, cfg).Some? && CopyAt(h.fs, p, cfg).value.depth == depth && old(h.clock) < CopyAt(h.fs, p, cfg).value.date
    ensures !ok ==> At(h.fs, p) == At(old(h.fs), p)
    ensures forall q :: q != p && q != Scratch(p) ==> At(h.fs, q) == At(old(h.fs), q)
    ensures forall x :: x in h.visited && x !in old(h.visited) ==> At(x, OtherStore(p)) == At(old(h.fs), OtherStore(p))
    ensures ChainLength(h.fs, cfg) == if ok then depth else ChainLength(old(h.fs), cfg)
    ensures forall x :: x in h.visited && x !in old(h.visited) ==> x == h.fs || ChainLength(x, cfg) == ChainLength(old(h.fs), cfg)
    ensures SteadySince(h.visited, old(h.visited), old(h.fs))
    ensures !ok ==> h.refusals > old(h.refusals)
    ensures h.reliable ==> ok
  {
    ShowReads(depth);
    ok := h.WriteSmall(p, Show(depth));
    forall x | x in h.visited && x !in old(h.visited) && x != h.fs
      ensures ChainLength(x, cfg) == ChainLength(old(h.fs), cfg)
    {
      SameChain(old(h.fs), x, cfg);
    }
    if ok {
      RuledBy(h.fs, cfg, p, OtherStore(p), depth, since);
    } else {
      SameChain(old(h.fs), h.fs, cfg);
    }
  }

  /** Each state gained reads as `depth` from the first write a store took, and as before until then. */
  ghost predicate ReadsFrom(visited: set<Fs>, earlier: set<Fs>, late: set<Fs>, cfg: Config, earlierDepth: int, depth: int) {
    forall x :: x in visited && x !in earlier ==> ChainLength(x, cfg) == if x in late then depth else earlierDepth
  }

  lemma ReadsOn(visited: set<Fs>, until: set<Fs>, earlier: set<Fs>, late: set<Fs>, before: Fs, once: Fs, after: Fs, cfg: Config,
                depth: int, mirrored: bool, recorded: bool)
    requires forall x :: x in until && x !in earlier ==> x == once || ChainLength(x, cfg) == ChainLength(before, cfg)
    requires forall x :: x in visited && x !in until ==> x == after || ChainLength(x, cfg) == ChainLength(once, cfg)
    requires ChainLength(once, cfg) == if mirrored then depth else ChainLength(before, cfg)
    requires ChainLength(after, cfg) == if recorded then depth else ChainLength(once, cfg)
    requires late == (if mirrored then {once} + (visited - until) else if recorded then {after} else {})
    ensures ReadsFrom(visited, earlier, late, cfg, ChainLength(before, cfg), depth)
  {
  }

  lemma WroteBoth(before: Fs, once: Fs, after: Fs, cfg: Config, depth: int, mirrored: bool, recorded: bool, since: nat)
    requires Written(before, once, cfg, depth, mirrored, false, since)
    requires if recorded then
               CopyAt(after, Record, cfg).Some? && CopyAt(after, Record, cfg).value.depth == depth && since < CopyAt(after, Record, cfg).value.date
             else At(after, Record) == At(once, Record)
    requires forall q :: q != Record && q != Scratch(Record) ==> At(after, q) == At(once, q)
    ensures Written(before, after, cfg, depth, mirrored, recorded, since)
  {
    assert CopyAt(after, Mirror, cfg) == CopyAt(once, Mirror, cfg);
  }

  /** How many of the two stores did not take the depth. */
  function Missing(mirrored: bool, recorded: bool): nat {
    (if mirrored then 0 else 1) + if recorded then 0 else 1
  }

  /** Each store that has not got the depth refused it, and a sidecar that is not kept as a dated marker either could
      not be renamed or not be re-dated. */
  ghost predicate RecordTakes(before: Fs, candidate: Path, rec: Recording, refused: int) {
    && refused >= Missing(rec.mirrored, rec.recorded)
    && (IsFile(before, SidecarOf(candidate)) && !rec.recorded && !rec.mirrored && !rec.dated ==> refused >= 3)
  }

  lemma MirrorFirst(visited: set<Fs>, until: set<Fs>, earlier: set<Fs>, before: Fs, once: Fs, after: Fs)
    requires forall x :: x in until && x !in earlier ==> At(x, Record) == At(before, Record)
    requires forall x :: x in visited && x !in until ==> At(x, Mirror) == At(once, Mirror)
    requires At(after, Mirror) == At(once, Mirror)
    ensures forall x :: x in visited && x !in earlier && At(x, Record) != At(before, Record) ==> At(x, Mirror) == At(after, Mirror)
  {
  }

  /** The mirror first, then the record; `late` are the states from the first write that was taken. */
  method WriteBoth(h: Host, cfg: Config, depth: int) returns (mirrored: bool, recorded: bool, ghost late: set<Fs>)
    requires h.Valid() && cfg.Valid()
    modifies h
    ensures h.Valid() && h.clock >= old(h.clock) && h.failures == old(h.failures) && h.refusals >= old(h.refusals) && h.asked == old(h.asked)
    ensures Written(old(h.fs), h.fs, cfg, depth, mirrored, recorded, old(h.clock))
    ensures SteadySince(h.visited, old(h.visited), old(h.fs))
    ensures ReadsFrom(h.visited, old(h.visited), late, cfg, ChainLength(old(h.fs), cfg), depth)
    ensures !mirrored && !recorded ==> late == {}
    ensures forall x :: x in h.visited && x !in old(h.visited) && At(x, Record) != At(old(h.fs), Record) ==> At(x, Mirror) == At(h.fs, Mirror)
    ensures h.refusals >= old(h.refusals) + Missing(mirrored, recorded)
    ensures h.reliable ==> mirrored && recorded
  {
    ghost var since := h.clock;
    mirrored := WriteDepth(h, cfg, Mirror, depth, since);
    ghost var once, seen := h.fs, h.visited;
    recorded := WriteDepth(h, cfg, Record, depth, since);
    late := if mirrored then {once} + (h.visited - seen) else if recorded then {h.fs} else {};
    MirrorFirst(h.visited, seen, old(h.visited), old(h.fs), once, h.fs);
    WroteBoth(old(h.fs), once, h.fs, cfg, depth, mirrored, recorded, since);
    SteadyFurther(h.visited, seen, old(h.visited), old(h.fs), once);
    ReadsOn(h.visited, seen, old(h.visited), late, old(h.fs), once, h.fs, cfg, depth, mirrored, recorded);
  }

  /** `rm -f p`. */
  method RemoveOne(h: Host, p: Path) returns (ok: bool)
    requires h.Valid() && !p.Base? && !p.Backup?
    modifies h
    ensures h.Valid() && h.clock >= old(h.clock) && h.failures >= old(h.failures) && h.refusals >= old(h.refusals) && h.asked == old(h.asked)
    ensures Without(old(h.fs), p, ok, p, false, h.fs) && Steady(old(h.fs), h.fs)
    ensures h.failures == old(h.failures) || h.reliable ==> ok
    ensures h.visited == old(h.visited) + {h.fs}
  {
    ok := h.Rm(p);
  }

  lemma WithoutBoth(a: Fs, b: Fs, c: Fs, p: Path, pGone: bool, q: Path, qGone: bool)
    requires Without(a, p, pGone, p, false, b) && Without(b, q, qGone, q, false, c)
    ensures Without(a, p, pGone, q, qGone, c) && Without(a, p, pGone, q, false, b)
  {
  }

  /** `rm -f p`, and `rm -f q` when it is to go as well. */
  method Tidy(h: Host, p: Path, q: Path, both: bool) returns (a: bool, b: bool, ghost once: Fs)
    requires h.Valid() && !p.Base? && !p.Backup? && !q.Base? && !q.Backup?
    modifies h
    ensures h.Valid() && h.clock >= old(h.clock) && h.failures >= old(h.failures) && h.refusals >= old(h.refusals) && h.asked == old(h.asked)
    ensures Without(old(h.fs), p, a, q, b, h.fs) && (b ==> both)
    ensures h.failures == old(h.failures) || h.reliable ==> a && b == both
    ensures h.visited == old(h.visited) + {once, h.fs} && Without(old(h.fs), p, a, q, false, once)
    ensures Steady(old(h.fs), once) && Steady(old(h.fs), h.fs)
  {
    a := RemoveOne(h, p);
    once := h.fs;
    b := false;
    if both {
      b := RemoveOne(h, q);
      WithoutBoth(old(h.fs), once, h.fs, p, a, q, b);
      SteadyTwice(old(h.fs), once, h.fs);
    } else {
      WithoutBoth(old(h.fs), once, once, p, a, q, false);
    }
  }

  lemma SteadyTwice(a: Fs, b: Fs, c: Fs)
    requires Steady(a, b) && Steady(b, c)
    ensures Steady(a, c)
  {
  }

  /** A candidate whose sidecar and marker are no copy of the depth yet. */
  predicate Apart(fs: Fs, candidate: Path) {
    candidate != DISK && candidate != MirrorStem && At(fs, Marker(candidate)) == None
  }

  lemma SteadyPair(visited: set<Fs>, earlier: set<Fs>, a: Fs, once: Fs, after: Fs)
    requires visited == earlier + {once, after} && Steady(a, once) && Steady(a, after)
    ensures SteadySince(visited, earlier, a)
  {
  }

  lemma ReadsPair(visited: set<Fs>, earlier: set<Fs>, once: Fs, after: Fs, cfg: Config, depth: int, apart: bool)
    requires visited == earlier + {once, after} && (apart ==> ChainLength(once, cfg) == ChainLength(after, cfg) == depth)
    ensures apart ==> ReadsSince(visited, earlier, cfg, depth)
  {
  }

  lemma RecordTidied(before: Fs, written: Fs, once: Fs, after: Fs, cfg: Config, candidate: Path, rec: Recording, since: nat)
    requires cfg.Valid() && rec.depth == CandidateDepth(before, candidate, cfg) && rec.recorded && (rec.staleGone ==> !rec.mirrored)
    requires Written(before, written, cfg, rec.depth, rec.mirrored, true, since)
    requires Without(written, SidecarOf(candidate), rec.sidecarGone, Mirror, false, once)
    requires Without(written, SidecarOf(candidate), rec.sidecarGone, Mirror, rec.staleGone, after)
    ensures RecordStep(before, written, after, cfg, candidate, rec, since)
    ensures ChainLength(after, cfg) == ReadingAfter(before, candidate, cfg, rec)
    ensures candidate != DISK && candidate != MirrorStem ==> ChainLength(once, cfg) == ChainLength(after, cfg) == rec.depth
  {
    RecordReads(before, written, after, cfg, candidate, rec, since);
    RecordReads(before, written, once, cfg, candidate, rec.(staleGone := false), since);
  }

  lemma MirrorTidied(before: Fs, written: Fs, once: Fs, after: Fs, cfg: Config, candidate: Path, rec: Recording, since: nat)
    requires cfg.Valid() && rec.depth == CandidateDepth(before, candidate, cfg) && rec.mirrored && !rec.recorded
    requires Written(before, written, cfg, rec.depth, true, false, since)
    requires Without(written, Record, rec.staleGone, SidecarOf(candidate), false, once)
    requires Without(written, Record, rec.staleGone, SidecarOf(candidate), rec.sidecarGone, after)
    ensures RecordStep(before, written, after, cfg, candidate, rec, since)
    ensures ChainLength(after, cfg) == ReadingAfter(before, candidate, cfg, rec)
    ensures candidate != DISK && candidate != MirrorStem ==> ChainLength(once, cfg) == ChainLength(after, cfg) == rec.depth
  {
    RecordReads(before, written, after, cfg, candidate, rec, since);
    RecordReads(before, written, once, cfg, candidate, rec.(sidecarGone := false), since);
  }

  /** The record took the depth: the sidecar goes, and a mirror that could not be rewritten with it. */
  method AfterRecord(h: Host, cfg: Config, candidate: Path, depth: int, mirrored: bool, ghost before: Fs, ghost since: nat)
    returns (rec: Recording)
    requires h.Valid() && cfg.Valid() && depth == CandidateDepth(before, candidate, cfg)
    requires Written(before, h.fs, cfg, depth, mirrored, true, since)
    modifies h
    ensures h.Valid() && h.clock >= old(h.clock) && h.failures >= old(h.failures) && h.refusals >= old(h.refusals) && h.asked == old(h.asked)
    ensures rec.depth == depth && rec.mirrored == mirrored && rec.recorded
    ensures Tidied(old(h.fs), h.fs, candidate, rec, since)
    ensures ChainLength(h.fs, cfg) == ReadingAfter(before, candidate, cfg, rec)
    ensures h.failures == old(h.failures) || h.reliable ==> rec.sidecarGone && (!mirrored ==> rec.staleGone)
    ensures Apart(before, candidate) ==> ReadsSince(h.visited, old(h.visited), cfg, depth)
    ensures SteadySince(h.visited, old(h.visited), old(h.fs))
  {
    ghost var written, earlier := h.fs, h.visited;
    var gone, stale;
    ghost var once;
    gone, stale, once := Tidy(h, SidecarOf(candidate), Mirror, !mirrored);
    rec := Recording(depth, mirrored, true, gone, stale, false);
    ghost var after := h.fs;
    RecordTidied(before, written, once, after, cfg, candidate, rec, since);
    SteadyPair(h.visited, earlier, written, once, after);
    ReadsPair(h.visited, earlier, once, after, cfg, depth, Apart(before, candidate));
  }

  /** Only the mirror took the depth: a record that could not be rewritten must not outlive it. */
  method AfterMirror(h: Host, cfg: Config, candidate: Path, depth: int, ghost before: Fs, ghost since: nat)
    returns (rec: Recording)
    requires h.Valid() && cfg.Valid() && depth == CandidateDepth(before, candidate, cfg)
    requires Written(before, h.fs, cfg, depth, true, false, since)
    modifies h
    ensures h.Valid() && h.clock >= old(h.clock) && h.failures >= old(h.failures) && h.refusals >= old(h.refusals) && h.asked == old(h.asked)
    ensures rec.depth == depth && rec.mirrored && !rec.recorded
    ensures Tidied(old(h.fs), h.fs, candidate, rec, since)
    ensures ChainLength(h.fs, cfg) == ReadingAfter(before, candidate, cfg, rec)
    ensures h.failures == old(h.failures) || h.reliable ==> rec.sidecarGone && rec.staleGone
    ensures Apart(before, candidate) ==> ReadsSince(h.visited, old(h.visited), cfg, depth)
    ensures SteadySince(h.visited, old(h.visited), old(h.fs))
  {
    ghost var written, earlier := h.fs, h.visited;
    var stale, gone;
    ghost var once;
    stale, gone, once := Tidy(h, Record, SidecarOf(candidate), true);
    rec := Recording(depth, true, false, gone, stale, false);
    ghost var after := h.fs;
    MirrorTidied(before, written, once, after, cfg, candidate, rec, since);
    SteadyPair(h.visited, earlier, written, once, after);
    ReadsPair(h.visited, earlier, once, after, cfg, depth, Apart(before, candidate));
  }

  /** Neither store took the depth: the sidecar is the last copy. */
  method AfterNeither(h: Host, cfg: Config, candidate: Path, depth: int, ghost before: Fs, ghost since: nat)
    returns (rec: Recording)
    requires h.Valid() && cfg.Valid() && depth == CandidateDepth(before, candidate, cfg) && since <= h.clock
    requires Written(before, h.fs, cfg, depth, false, false, since)
    modifies h
    ensures h.Valid() && h.clock >= old(h.clock) && h.failures >= old(h.failures) && h.refusals >= old(h.refusals) && h.asked == old(h.asked)
    ensures rec.depth == depth && !rec.mirrored && !rec.recorded
    ensures Tidied(old(h.fs), h.fs, candidate, rec, since)
    ensures IsFile(before, SidecarOf(candidate)) && !rec.dated ==> h.refusals > old(h.refusals)
    ensures rec.dated ==> ChainLength(h.fs, cfg) == SidecarReads(before, candidate, cfg)
    ensures Apart(before, candidate) ==>
              forall x :: x in h.visited && x !in old(h.visited) ==>
                ChainLength(x, cfg) == ChainLength(before, cfg) || ChainLength(x, cfg) == SidecarReads(before, candidate, cfg)
    ensures Apart(before, candidate) ==>
              ChainLength(h.fs, cfg) == ChainLength(before, cfg) || ChainLength(h.fs, cfg) == SidecarReads(before, candidate, cfg)
    ensures SteadySince(h.visited, old(h.visited), old(h.fs))
  {
    var kept, dated := KeepAsUnrecorded(h, candidate);
    rec := Recording(depth, false, false, false, false, dated);
    if dated {
      RecordReads(before, old(h.fs), h.fs, cfg, candidate, rec, since);
    }
    forall x | x in h.visited && x !in old(h.visited) && Apart(before, candidate)
      ensures ChainLength(x, cfg) == ChainLength(before, cfg) || ChainLength(x, cfg) == SidecarReads(before, candidate, cfg)
    {
      MovedReads(before, old(h.fs), x, cfg, candidate, since);
    }
    if Apart(before, candidate) {
      MovedReads(before, old(h.fs), h.fs, cfg, candidate, since);
    }
  }

  lemma MovedReads(before: Fs, written: Fs, x: Fs, cfg: Config, candidate: Path, since: nat)
    requires cfg.Valid() && Apart(before, candidate) && MovedOrNot(written, x, candidate)
    requires Written(before, written, cfg, CandidateDepth(before, candidate, cfg), false, false, since)
    ensures ChainLength(x, cfg) == ChainLength(before, cfg) || ChainLength(x, cfg) == SidecarReads(before, candidate, cfg)
  {
    assert At(written, SidecarOf(candidate)) == At(before, SidecarOf(candidate));
    assert At(written, Marker(candidate)) == None;
    if At(x, Marker(candidate)) == None {
      SameChain(before, x, cfg);
    } else {
      MarkerArrives(before, x, cfg, Marker(candidate));
    }
  }

  lemma RecordedOn(visited: set<Fs>, until: set<Fs>, earlier: set<Fs>, late: set<Fs>, before: Fs, candidate: Path, cfg: Config, rec: Recording)
    requires ReadsFrom(until, earlier, late, cfg, ChainLength(before, cfg), rec.depth)
    requires !rec.recorded && !rec.mirrored ==> late == {}
    requires forall x :: x in visited && x !in until ==> ReadsAs(before, x, candidate, cfg, rec, rec.recorded || rec.mirrored)
    ensures Recorded(visited, earlier, if rec.recorded || rec.mirrored then late + (visited - until) else {}, before, candidate, cfg, rec)
  {
  }

  /** What follows the two writes. */
  method AfterWrites(h: Host, cfg: Config, candidate: Path, depth: int, mirrored: bool, recorded: bool, ghost before: Fs, ghost since: nat)
    returns (rec: Recording)
    requires h.Valid() && cfg.Valid() && depth == CandidateDepth(before, candidate, cfg) && since <= h.clock
    requires Written(before, h.fs, cfg, depth, mirrored, recorded, since)
    modifies h
    ensures h.Valid() && h.clock >= old(h.clock) && h.failures >= old(h.failures) && h.refusals >= old(h.refusals) && h.asked == old(h.asked)
    ensures rec.depth == depth && rec.mirrored == mirrored && rec.recorded == recorded
    ensures Tidied(old(h.fs), h.fs, candidate, rec, since)
    ensures recorded || mirrored || rec.dated ==> ChainLength(h.fs, cfg) == ReadingAfter(before, candidate, cfg, rec)
    ensures IsFile(before, SidecarOf(candidate)) && !recorded && !mirrored && !rec.dated ==> h.refusals > old(h.refusals)
    ensures h.failures == old(h.failures) && (recorded || mirrored) ==> rec.sidecarGone && (!mirrored || !recorded ==> rec.staleGone)
    ensures Apart(before, candidate) ==>
              && ReadsAs(before, h.fs, candidate, cfg, rec, recorded || mirrored)
              && forall x :: x in h.visited && x !in old(h.visited) ==> ReadsAs(before, x, candidate, cfg, rec, recorded || mirrored)
    ensures SteadySince(h.visited, old(h.visited), old(h.fs))
  {
    if recorded {
      rec := AfterRecord(h, cfg, candidate, depth, mirrored, before, since);
    } else if mirrored {
      rec := AfterMirror(h, cfg, candidate, depth, before, since);
    } else {
      rec := AfterNeither(h, cfg, candidate, depth, before, since);
    }
  }

  method RecordChain(h: Host, cfg: Config, candidate: Path) returns (rec: Recording, ghost written: Fs, ghost late: set<Fs>)
    requires h.Valid() && cfg.Valid()
    modifies h
    ensures h.Valid() && h.clock >= old(h.clock) && h.failures >= old(h.failures) && h.refusals >= old(h.refusals) && h.asked == old(h.asked)
    ensures RecordStep(old(h.fs), written, h.fs, cfg, candidate, rec, old(h.clock))
    ensures rec.recorded || rec.mirrored || rec.dated ==> ChainLength(h.fs, cfg) == ReadingAfter(old(h.fs), candidate, cfg, rec)
    ensures RecordTakes(old(h.fs), candidate, rec, h.refusals - old(h.refusals))
    ensures h.failures == old(h.failures) && (rec.recorded || rec.mirrored) ==>
              rec.sidecarGone && (!rec.mirrored || !rec.recorded ==> rec.staleGone)
    ensures Apart(old(h.fs), candidate) ==> Recorded(h.visited, old(h.visited), late, old(h.fs), candidate, cfg, rec)
    ensures Apart(old(h.fs), candidate) ==> ReadsAs(old(h.fs), h.fs, candidate, cfg, rec, rec.recorded || rec.mirrored)
    ensures SteadySince(h.visited, old(h.visited), old(h.fs))
    ensures h.reliable ==> rec.recorded && rec.mirrored
  {
    var depth := CandidateDepth(h.fs, candidate, cfg);
    var mirrored, recorded;
    mirrored, recorded, late := WriteBoth(h, cfg, depth);
    written := h.fs;
    ghost var seen := h.visited;
    rec := AfterWrites(h, cfg, candidate, depth, mirrored, recorded, old(h.fs), old(h.clock));
    SteadyFurther(h.visited, seen, old(h.visited), old(h.fs), written);
    if Apart(old(h.fs), candidate) {
      RecordedOn(h.visited, seen, old(h.visited), late, old(h.fs), candidate, cfg, rec);
    }
    late := if recorded || mirrored then late + (h.visited - seen) else {};
  }

  /** The states of a recording: the earlier depth until a store took the new one, the new one from then on; when
      neither store did, what the sidecar reads as from when it is a marker. */
  ghost predicate Recorded(visited: set<Fs>, earlier: set<Fs>, late: set<Fs>, before: Fs, candidate: Path, cfg: Config, rec: Recording) {
    && (late != {} ==> rec.recorded || rec.mirrored)
    && forall x :: x in visited && x !in earlier ==> ReadsAs(before, x, candidate, cfg, rec, x in late)
  }

  ghost predicate ReadsAs(before: Fs, x: Fs, candidate: Path, cfg: Config, rec: Recording, took: bool) {
    if took then ChainLength(x, cfg) == rec.depth
    else ChainLength(x, cfg) == ChainLength(before, cfg)
         || (!rec.recorded && !rec.mirrored && ChainLength(x, cfg) == SidecarReads(before, candidate, cfg))
  }

  lemma SteadyFurther(visited: set<Fs>, until: set<Fs>, earlier: set<Fs>, a: Fs, b: Fs)
    requires SteadySince(until, earlier, a) && SteadySince(visited, until, b) && Steady(a, b)
    ensures SteadySince(visited, earlier, a)
  {
  }
}
