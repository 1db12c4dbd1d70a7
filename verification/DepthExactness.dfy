/** When the depth a promotion records is the depth that is read back, exactly. */
module DepthExactness {
  import opened Options
  import opened Decimal
  import opened Host
  import opened Chain

  /** A store took the depth, and what the recording left does not read as it. */
  ghost predicate Loses(before: Fs, written: Fs, after: Fs, cfg: Config, candidate: Path, rec: Recording, since: nat) {
    RecordStep(before, written, after, cfg, candidate, rec, since) && (rec.recorded || rec.mirrored) && ChainLength(after, cfg) != rec.depth
  }

  /** Whichever store took the depth and whichever removals failed, the depth is read back, from any stores whatever, if
      and only if the candidate's sidecar is a file of its own: neither the record nor the mirror. */
  lemma RecordedDepthIsRead(candidate: Path, cfg: Config)
    requires cfg.Valid()
    ensures (forall before, written, after, rec, since :: !Loses(before, written, after, cfg, candidate, rec, since))
            <==> SidecarOf(candidate) != Record && SidecarOf(candidate) != Mirror
  {
    if candidate == DISK {
      var before, written, after, rec, since := SelfPromotionLosesDepth(cfg);
    } else if candidate == MirrorStem {
      var before, written, after, rec, since := MirrorStemLosesDepth(cfg);
    } else {
      forall before, written, after, rec, since
        ensures !Loses(before, written, after, cfg, candidate, rec, since)
      {
        if RecordStep(before, written, after, cfg, candidate, rec, since) && (rec.recorded || rec.mirrored) {
          RecordReads(before, written, after, cfg, candidate, rec, since);
        }
      }
    }
  }

  /** A golden just published to both bases, and the image it was published from. */
  function Golden(): Fs {
    map[DISK := Regular("golden", 1, MODE_0644), RAM := Regular("golden", 1, MODE_0644), MirrorStem := Regular("golden", 1, MODE_0644)]
  }

  /** The disk golden promoted onto itself: its sidecar is the record.  With depth 3 recorded and the mirror refusing
      writes, the record is written and then removed, and the depth reads as 0. */
  lemma SelfPromotionLosesDepth(cfg: Config) returns (before: Fs, written: Fs, after: Fs, rec: Recording, since: nat)
    ensures Loses(before, written, after, cfg, DISK, rec, since)
    ensures rec.depth == 3 && rec.recorded && !rec.mirrored && ChainLength(after, cfg) == 0
    ensures IsFile(before, DISK) && Contents(before, RAM) == Contents(before, DISK)
  {
    ThreeReads();
    before, since := Golden()[Record := Regular("3", 1, MODE_0644)], 1;
    written, after := Golden()[Record := Regular("3", 2, MODE_0644)], Golden();
    rec := Recording(3, false, true, true, true, false);
    assert NewestMarkers(after) == {};
    assert Written(before, written, cfg, 3, false, true, since);
  }

  /** The path whose sidecar would have the mirror's own name, promoted while the record refuses writes: the mirror is
      written, the record removed as stale, and then the mirror removed as the candidate's sidecar. */
  lemma MirrorStemLosesDepth(cfg: Config) returns (before: Fs, written: Fs, after: Fs, rec: Recording, since: nat)
    ensures Loses(before, written, after, cfg, MirrorStem, rec, since)
    ensures rec.depth == 3 && rec.mirrored && !rec.recorded && ChainLength(after, cfg) == 0
    ensures IsFile(before, MirrorStem) && Contents(before, RAM) == Contents(before, DISK) == Contents(before, MirrorStem)
  {
    ThreeReads();
    before, since := Golden()[Mirror := Regular("3", 1, MODE_0644)][Record := Regular("3", 1, MODE_0644)], 1;
    written, after := Golden()[Mirror := Regular("3", 2, MODE_0644)][Record := Regular("3", 1, MODE_0644)], Golden();
    rec := Recording(3, true, false, true, true, false);
    assert NewestMarkers(after) == {};
    assert Written(before, written, cfg, 3, true, false, since);
  }

  lemma ThreeReads()
    ensures ReadInt("3") == Some(3) && Strip("3") != []
  {
    assert "3" == Show(3);
    ShowReads(3);
  }

  /** With neither store writable and the sidecar kept and re-dated as the marker, the marker reads as the recorded
      depth if and only if the sidecar was not blank: a recording takes a blank one for 0, the reader of a marker for
      unknown provenance. */
  lemma MarkerDepthIsRead(before: Fs, written: Fs, after: Fs, candidate: Path, cfg: Config, rec: Recording, since: nat)
    requires cfg.Valid() && RecordStep(before, written, after, cfg, candidate, rec, since)
    requires !rec.recorded && !rec.mirrored && rec.dated
    ensures ChainLength(after, cfg) == rec.depth
            <==> Contents(before, SidecarOf(candidate)).Some? && Strip(Contents(before, SidecarOf(candidate)).value) != []
  {
    RecordReads(before, written, after, cfg, candidate, rec, since);
    assert At(written, SidecarOf(candidate)) == At(before, SidecarOf(candidate));
  }
}
