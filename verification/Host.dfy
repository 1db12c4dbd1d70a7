/** The two stores the rotation works on, and the privileged commands it runs on them.

    Every command may fail.  `clock` advances by an unknown positive amount with each command;
    `visited` collects the stores as every single command left them, so a statement about all it
    gained is a statement about every point at which the process can be killed; `failures` counts
    the removals that were refused, `refusals` every other command that was refused, cut short or
    did not do its work, `asked` every question for free space with its answer, `strays` the temporaries that were made by a call that failed.
    On a `reliable` host every command that can be carried out is, and nothing outside this model
    refuses anything. */
module Host {
  import opened Options

  type Bytes = seq<char>

  /** The two places a golden is published to. */
  datatype Side = DiskSide | RamSide

  /** What a file in the backup directory that is not a retained backup was made by. */
  datatype Kind = Candidate | Built | RebakeSource(pid: nat)

  /** Where a hold is written: beside the backups, else beside the chain mirror. */
  datatype Shelf = BesideBackups | BesideMirror

  datatype Proc = Proc(pid: nat, start: nat)

  /** An operator's hold, or one naming the builder process it is valid for. */
  datatype Holder = Operator | Builder(pid: nat, start: Option<nat>)

  datatype Path =
    | Base(side: Side)                        // the disk twin and the RAM base
    | RotTmp(side: Side, tag: nat)            // <base>.rot.XXXXXX
    | PoolTmp(tag: nat)                       // <RAM base>.XXXXXX, the pool-manager unit's
    | Backup(stamp: nat)                      // golden-base.<stamp>.qcow2
    | Part(stamp: nat)                        // golden-base.<stamp>.qcow2.part
    | Image(kind: Kind, tag: nat)             // golden-base.{candidate,built,rebake-src}-<tag>.qcow2
    | Elsewhere(tag: nat)                     // a file outside the directories above
    | MirrorStem                              // the path whose sidecar's name is the mirror's
    | Record                                  // <disk base>.chain
    | Mirror                                  // the second copy, off the images store
    | Sidecar(image: Path)                    // <image>.chain
    | Marker(image: Path)                     // <image>.chain.unrecorded
    | Keep(shelf: Shelf, image: Path, holder: Holder)
    | Probe(of: Path)                         // <record>.probe
    | Scratch(of: Path)                       // <path>.tmp, of an atomic small write

  const DISK: Path := Base(DiskSide)
  const RAM: Path := Base(RamSide)

  datatype Node = Regular(data: Bytes, mtime: nat, mode: nat) | Directory(mtime: nat)

  type Fs = map<Path, Node>

  function At(fs: Fs, p: Path): Option<Node> {
    if p in fs then Some(fs[p]) else None
  }

  predicate IsFile(fs: Fs, p: Path)
    ensures IsFile(fs, p) ==> p in fs && fs[p].Regular?
  {
    At(fs, p).Some? && At(fs, p).value.Regular?
  }

  predicate IsDirectory(fs: Fs, p: Path) {
    At(fs, p).Some? && At(fs, p).value.Directory?
  }

  function Contents(fs: Fs, p: Path): Option<Bytes> {
    if IsFile(fs, p) then Some(At(fs, p).value.data) else None
  }

  /** `stat().st_size`, or -1 where there is no such path; a directory is never the size of an image. */
  function Size(fs: Fs, p: Path): int {
    if IsFile(fs, p) then |fs[p].data| else -1
  }

  /** The paths the rebake depth is read from. */
  predicate IsDepth(p: Path) {
    p == Record || p == Mirror || p.Marker?
  }

  /** The copies of the rebake depth. */
  function Depths(fs: Fs): map<Path, Node> {
    map p | p in fs && IsDepth(p) :: fs[p]
  }

  lemma SameDepths(a: Fs, b: Fs)
    requires forall p :: IsDepth(p) ==> At(a, p) == At(b, p)
    ensures Depths(a) == Depths(b)
  {
    forall p
      ensures p in Depths(a) <==> p in Depths(b)
      ensures p in Depths(a) ==> Depths(a)[p] == Depths(b)[p]
    {
      if IsDepth(p) {
        assert At(a, p) == At(b, p);
      }
    }
  }

  lemma DepthsAt(a: Fs, b: Fs, p: Path)
    requires Depths(a) == Depths(b) && IsDepth(p)
    ensures At(a, p) == At(b, p)
  {
    assert p in a <==> p in Depths(a);
    assert p in b <==> p in Depths(b);
  }

  /** The bases and the retained backups are what they were. */
  ghost predicate Steady(a: Fs, b: Fs) {
    && At(a, DISK) == At(b, DISK)
    && At(a, RAM) == At(b, RAM)
    && forall s :: At(b, Backup(s)) == At(a, Backup(s))
  }

  /** Every state gained since `earlier` has the bases and the retained backups of `a`. */
  ghost predicate SteadySince(visited: set<Fs>, earlier: set<Fs>, a: Fs) {
    forall x :: x in visited && x !in earlier ==> Steady(a, x)
  }

  /** And so are the copies of the depth. */
  ghost predicate Still(a: Fs, b: Fs) {
    Steady(a, b) && Depths(b) == Depths(a)
  }

  ghost predicate StillSince(visited: set<Fs>, earlier: set<Fs>, a: Fs) {
    forall x :: x in visited && x !in earlier ==> Still(a, x)
  }

  ghost predicate DepthsSince(visited: set<Fs>, earlier: set<Fs>, a: Fs) {
    forall x :: x in visited && x !in earlier ==> Depths(x) == Depths(a)
  }

  /** A path that is neither a base, nor a backup, nor a copy of the depth. */
  predicate Aside(p: Path) {
    !p.Base? && !p.Backup? && !IsDepth(p)
  }

  lemma {:induction false} Unused(s: set<nat>) returns (n: nat)
    ensures forall m :: m in s ==> m < n
  {
    n := 0;
    if s != {} {
      var m :| m in s;
      var rest := s - {m};
      n := Unused(rest);
      forall k | k in s
        ensures k < n + m + 1
      {
        assert k == m || k in rest;
      }
      n := n + m + 1;
    }
  }

  const MODE_0600: nat := 384
  const MODE_0644: nat := 420

  /** A question for free space: how much was wanted, and the answer, None where the question raised. */
  datatype Query = Query(want: int, answer: Option<bool>)

  /** The last of the new questions was answered so. */
  ghost predicate LastAnswer(before: seq<Query>, now: seq<Query>, answer: Option<bool>) {
    |before| < |now| && now[|now| - 1].answer == answer
  }

  class Host {
    const reliable: bool
    var fs: Fs
    var clock: nat
    ghost var visited: set<Fs>
    ghost var failures: nat
    ghost var refusals: nat
    ghost var asked: seq<Query>
    ghost var strays: nat

    /** Nothing is dated in the future, and a reliable host has no directory in the way. */
    ghost predicate Valid()
      reads this
    {
      forall p :: At(fs, p).Some? ==> At(fs, p).value.mtime <= clock && (reliable ==> At(fs, p).value.Regular?)
    }

    constructor (fs: Fs, clock: nat, reliable: bool)
      requires forall p :: At(fs, p).Some? ==> At(fs, p).value.mtime <= clock && (reliable ==> At(fs, p).value.Regular?)
      ensures Valid() && this.fs == fs && this.clock == clock && this.reliable == reliable
      ensures visited == {} && failures == 0 && refusals == 0 && asked == [] && strays == 0
    {
      this.fs, this.clock, this.reliable, this.visited, this.failures, this.refusals, this.asked, this.strays := fs, clock, reliable, {}, 0, 0, [], 0;
    }

    /** The command was refused or not, and on a reliable host it was not. */
    ghost predicate OneRefusal(before: nat)
      reads this
    {
      before <= refusals <= before + 1 && (reliable ==> refusals == before)
    }

    /** A check outside this model: a knob, a permission, a lock, the gate's boot. */
    method Refuses() returns (refused: bool)
      ensures reliable ==> !refused
    {
      refused := *;
      refused := refused && !reliable;
    }

    /** Time passes: builds take hours, commands less. */
    method Tick()
      requires Valid()
      modifies this`clock
      ensures Valid() && clock > old(clock)
    {
      var d: int := *;
      clock := clock + 1 + if d > 0 then d else 0;
    }

    /** One entry replaced or removed. */
    method Put(p: Path, n: Option<Node>)
      requires Valid() && (n.Some? ==> n.value.mtime <= clock && (reliable ==> n.value.Regular?))
      modifies this`fs
      ensures Valid()
      ensures At(fs, p) == n
      ensures forall q :: q != p ==> At(fs, q) == At(old(fs), q)
      ensures !IsDepth(p) ==> Depths(fs) == Depths(old(fs))
    {
      fs := if n.Some? then fs[p := n.value] else fs - {p};
      assert forall q :: q != p ==> At(fs, q) == At(old(fs), q);
      if !IsDepth(p) {
        SameDepths(old(fs), fs);
      }
    }

    /** `cp src dst`: any prefix may have been written, with any return code; only a copy that
        never opened its target leaves it as it was, and then it says so. */
    method Cp(src: Path, dst: Path) returns (rc: int)
      requires Valid()
      modifies this
      ensures Valid() && clock > old(clock) && failures == old(failures) && OneRefusal(old(refusals)) && asked == old(asked) && strays == old(strays)
      ensures fs == old(fs) ==> rc != 0
      ensures fs != old(fs) ==>
                && src != dst
                && IsFile(old(fs), src)
                && IsFile(fs, dst)
                && fs[dst].data <= old(fs)[src].data
                && fs[dst].mtime == clock
                && (At(old(fs), dst).Some? ==> IsFile(old(fs), dst) && fs[dst].mode == old(fs)[dst].mode)
      ensures forall q :: q != dst ==> At(fs, q) == At(old(fs), q)
      ensures !IsDepth(dst) ==> Depths(fs) == Depths(old(fs))
      ensures refusals == old(refusals) && src != dst && IsFile(old(fs), src) ==> rc == 0 && Contents(fs, dst) == Contents(old(fs), src)
      ensures visited == old(visited) + {fs}
    {
      Tick();
      rc := *;
      var writable: bool := *;
      var there := src != dst && IsFile(fs, src);
      if there && (writable || reliable) && !IsDirectory(fs, dst) {
        var whole := Overwrite(fs[src].data, dst);
        rc := if reliable then 0 else rc;
        there := !whole || rc != 0;
      } else {
        rc := 1;
      }
      if there {
        refusals := refusals + 1;
      }
      visited := visited + {fs};
    }

    /** Some prefix of `data` under `dst`, all of it on a reliable host. */
    method Overwrite(data: Bytes, dst: Path) returns (whole: bool)
      requires Valid() && !IsDirectory(fs, dst)
      modifies this`fs
      ensures Valid() && IsFile(fs, dst) && fs[dst].data <= data && fs[dst].mtime == clock
      ensures At(old(fs), dst).Some? ==> fs[dst].mode == old(fs)[dst].mode
      ensures whole <==> fs[dst].data == data
      ensures reliable ==> whole
      ensures forall q :: q != dst ==> At(fs, q) == At(old(fs), q)
      ensures !IsDepth(dst) ==> Depths(fs) == Depths(old(fs))
    {
      var k: int := *;
      var mode: int := *;
      k := if !reliable && 0 <= k < |data| then k else |data|;
      mode := if dst in fs then fs[dst].mode else if mode > 0 then mode else 0;
      whole := k == |data|;
      assert data[..|data|] == data;
      Put(dst, Some(Regular(data[..k], clock, mode)));
    }

    /** One entry under another name. */
    method Rename(src: Path, dst: Path)
      requires Valid() && src != dst && At(fs, src).Some?
      modifies this`fs
      ensures Valid()
      ensures At(fs, src) == None && At(fs, dst) == At(old(fs), src)
      ensures forall q :: q != src && q != dst ==> At(fs, q) == At(old(fs), q)
      ensures !IsDepth(src) && !IsDepth(dst) ==> Depths(fs) == Depths(old(fs))
    {
      var n := At(fs, src);
      Put(src, None);
      Put(dst, n);
    }

    /** `mv -fT src dst` within a directory: done with return code 0, or not done. */
    method Mv(src: Path, dst: Path) returns (rc: int)
      requires Valid() && src != dst
      modifies this
      ensures Valid() && clock > old(clock) && failures == old(failures) && OneRefusal(old(refusals)) && asked == old(asked) && strays == old(strays)
      ensures rc == 0 ==>
                && refusals == old(refusals)
                && At(old(fs), src).Some?
                && At(fs, src) == None
                && At(fs, dst) == At(old(fs), src)
                && (At(old(fs), dst).Some? ==> IsFile(old(fs), dst))
      ensures rc != 0 ==> fs == old(fs)
      ensures forall q :: q != src && q != dst ==> At(fs, q) == At(old(fs), q)
      ensures !IsDepth(src) && !IsDepth(dst) ==> Depths(fs) == Depths(old(fs))
      ensures refusals == old(refusals) && At(old(fs), src).Some? ==> rc == 0
      ensures visited == old(visited) + {fs}
    {
      Tick();
      rc := *;
      var blocked := At(fs, src) == None || IsDirectory(fs, dst);
      rc := if blocked then 1 else if reliable then 0 else rc;
      if rc == 0 {
        Rename(src, dst);
      } else if At(fs, src).Some? {
        refusals := refusals + 1;
      }
      visited := visited + {fs};
    }

    /** `rm -f p`. */
    method Rm(p: Path) returns (ok: bool)
      requires Valid()
      modifies this
      ensures Valid() && clock > old(clock) && refusals == old(refusals) && asked == old(asked) && strays == old(strays)
      ensures ok ==> At(fs, p) == None && failures == old(failures)
      ensures !ok ==> fs == old(fs) && failures == old(failures) + 1
      ensures forall q :: q != p ==> At(fs, q) == At(old(fs), q)
      ensures !IsDepth(p) ==> Depths(fs) == Depths(old(fs))
      ensures reliable ==> ok
      ensures visited == old(visited) + {fs}
    {
      Tick();
      ok := *;
      ok := ok || reliable;
      if IsDirectory(fs, p) {
        ok := false;
      }
      if ok {
        Put(p, None);
      } else {
        failures := failures + 1;
      }
      visited := visited + {fs};
    }

    /** `touch p`: re-dates what is there, creates an empty file where nothing is. */
    method Touch(p: Path) returns (ok: bool)
      requires Valid()
      modifies this
      ensures Valid() && clock > old(clock) && failures == old(failures) && OneRefusal(old(refusals)) && asked == old(asked) && strays == old(strays)
      ensures ok ==>
                && At(fs, p).Some?
                && At(fs, p).value.mtime == clock
                && (At(old(fs), p).Some? ==> At(fs, p).value == At(old(fs), p).value.(mtime := clock))
                && (At(old(fs), p) == None ==> Contents(fs, p) == Some([]))
      ensures !ok ==> fs == old(fs)
      ensures forall q :: q != p ==> At(fs, q) == At(old(fs), q)
      ensures !IsDepth(p) ==> Depths(fs) == Depths(old(fs))
      ensures refusals == old(refusals) ==> ok
      ensures visited == old(visited) + {fs}
    {
      Tick();
      ok := *;
      ok := ok || reliable;
      if ok {
        var n := if At(fs, p).Some? then At(fs, p).value.(mtime := clock) else Regular([], clock, MODE_0644);
        Put(p, Some(n));
      } else {
        refusals := refusals + 1;
      }
      visited := visited + {fs};
    }

    /** `mktemp <base>.rot.XXXXXX`: a new empty file; a failed call may still have made one. */
    method Mktemp(side: Side) returns (t: Option<Path>)
      requires Valid()
      modifies this
      ensures Valid() && clock > old(clock) && failures == old(failures) && OneRefusal(old(refusals)) && asked == old(asked) && strays >= old(strays)
      ensures forall p: Path :: !p.RotTmp? ==> At(fs, p) == At(old(fs), p)
      ensures forall p :: At(old(fs), p).Some? ==> At(fs, p) == At(old(fs), p)
      ensures t == None && strays == old(strays) ==> fs == old(fs)
      ensures t.Some? ==>
                && strays == old(strays)
                && t.value.RotTmp? && t.value.side == side
                && At(old(fs), t.value) == None
                && At(fs, t.value) == Some(Regular([], clock, MODE_0600))
                && forall q :: q != t.value ==> At(fs, q) == At(old(fs), q)
      ensures Depths(fs) == Depths(old(fs))
      ensures refusals == old(refusals) ==> t.Some?
      ensures visited == old(visited) + {fs}
    {
      Tick();
      var tag := FreeTag(side);
      var made: bool := *;
      var said: bool := *;
      t := None;
      if made || reliable {
        Put(RotTmp(side, tag), Some(Regular([], clock, MODE_0600)));
        if said || reliable {
          t := Some(RotTmp(side, tag));
        } else {
          strays := strays + 1;
        }
      }
      if t == None {
        refusals := refusals + 1;
      }
      visited := visited + {fs};
    }

    /** A tag no temporary of that side has, the first free one from an unknown start. */
    method FreeTag(side: Side) returns (tag: nat)
      ensures RotTmp(side, tag) !in fs
    {
      var start: int := *;
      tag := if start > 0 then start else 0;
      ghost var taken := set p | p in fs && p.RotTmp? :: p.tag;
      ghost var bound := Unused(taken);
      while RotTmp(side, tag) in fs
        decreases bound - tag
      {
        assert RotTmp(side, tag).tag in taken;
        tag := tag + 1;
      }
    }

    /** `chmod 644 p`: the mode is whatever the command left, with any return code. */
    method Chmod(p: Path) returns (rc: int)
      requires Valid()
      modifies this
      ensures Valid() && clock > old(clock) && failures == old(failures) && OneRefusal(old(refusals)) && asked == old(asked) && strays == old(strays)
      ensures fs != old(fs) ==>
                && IsFile(old(fs), p)
                && IsFile(fs, p)
                && fs[p] == old(fs)[p].(mode := fs[p].mode)
      ensures forall q :: q != p ==> At(fs, q) == At(old(fs), q)
      ensures !IsDepth(p) ==> Depths(fs) == Depths(old(fs))
      ensures refusals == old(refusals) && IsFile(old(fs), p) ==> rc == 0 && IsFile(fs, p) && fs[p] == old(fs)[p].(mode := MODE_0644)
      ensures visited == old(visited) + {fs}
    {
      Tick();
      rc := *;
      rc := if reliable then 0 else rc;
      var mode: int := *;
      mode := if reliable then MODE_0644 else if mode > 0 then mode else 0;
      if IsFile(fs, p) {
        if rc != 0 || mode != MODE_0644 {
          refusals := refusals + 1;
        }
        Put(p, Some(fs[p].(mode := mode)));
      }
      visited := visited + {fs};
    }

    /** `qemu-img convert ... p`: any bytes at all, whole or cut short, with any return code. */
    method Convert(p: Path) returns (rc: int)
      requires Valid()
      modifies this
      ensures Valid() && clock > old(clock) && failures == old(failures) && OneRefusal(old(refusals)) && asked == old(asked) && strays == old(strays)
      ensures rc == 0 ==> IsFile(fs, p)
      ensures forall q :: q != p ==> At(fs, q) == At(old(fs), q)
      ensures !IsDepth(p) ==> Depths(fs) == Depths(old(fs))
      ensures refusals == old(refusals) ==> rc == 0
      ensures visited == old(visited) + {fs}
    {
      Tick();
      rc := *;
      rc := if reliable then 0 else rc;
      var writable: bool := *;
      var data: Bytes := *;
      if writable || reliable {
        Put(p, Some(Regular(data, clock, MODE_0644)));
      } else if !IsFile(fs, p) {
        rc := 1;
      }
      if rc != 0 {
        refusals := refusals + 1;
      }
      visited := visited + {fs};
    }

    /** `disk_usage(dir).free >= want`, or an OSError. */
    method HasRoom(want: int) returns (room: Option<bool>)
      requires Valid()
      modifies this`refusals, this`asked
      ensures OneRefusal(old(refusals)) && Valid() && asked == old(asked) + [Query(want, room)]
      ensures refusals == old(refusals) ==> room == Some(true)
    {
      var v: bool := *;
      var ok: bool := *;
      room := if reliable then Some(true) else if ok then Some(v) else None;
      asked := asked + [Query(want, room)];
      if room != Some(true) {
        refusals := refusals + 1;
      }
    }

    /** `printf text > p.tmp`: all of the text when it says so, any part of it otherwise. */
    method Print(p: Path, text: Bytes) returns (rc: int)
      requires Valid()
      modifies this
      ensures Valid() && clock > old(clock) && failures == old(failures) && OneRefusal(old(refusals)) && asked == old(asked) && strays == old(strays)
      ensures rc == 0 ==> Contents(fs, Scratch(p)) == Some(text) && fs[Scratch(p)].mtime == clock
      ensures forall q :: q != Scratch(p) ==> At(fs, q) == At(old(fs), q)
      ensures Depths(fs) == Depths(old(fs))
      ensures refusals == old(refusals) <==> rc == 0
      ensures visited == old(visited) + {fs}
    {
      Tick();
      rc := *;
      rc := if reliable then 0 else rc;
      var k: int := *;
      var writable: bool := *;
      var part := if rc != 0 && 0 <= k <= |text| then text[..k] else text;
      if (writable || reliable) && !IsDirectory(fs, Scratch(p)) {
        Put(Scratch(p), Some(Regular(part, clock, MODE_0644)));
      } else {
        rc := 1;
      }
      if rc != 0 {
        refusals := refusals + 1;
      }
      visited := visited + {fs};
    }

    /** `printf text > p.tmp && mv -fT p.tmp p`: the file is the whole text or what it was. */
    method WriteSmall(p: Path, text: Bytes) returns (ok: bool)
      requires Valid() && !p.Scratch?
      modifies this
      ensures Valid() && clock > old(clock) && failures == old(failures) && OneRefusal(old(refusals)) && asked == old(asked) && strays == old(strays)
      ensures ok ==> Contents(fs, p) == Some(text) && old(clock) < fs[p].mtime
      ensures !ok ==> At(fs, p) == At(old(fs), p)
      ensures old(visited) <= visited && (ok ==> fs in visited)
      ensures forall q :: q != p && q != Scratch(p) ==> At(fs, q) == At(old(fs), q)
      ensures Aside(p) ==> Still(old(fs), fs) && StillSince(visited, old(visited), old(fs))
      ensures refusals == old(refusals) ==> ok
      ensures !p.Base? && !p.Backup? ==> SteadySince(visited, old(visited), old(fs))
      ensures forall x :: x in visited && x !in old(visited) ==> x == fs || forall q :: q != Scratch(p) ==> At(x, q) == At(old(fs), q)
    {
      var rc := Print(p, text);
      ok := false;
      if rc == 0 {
        var m := Mv(Scratch(p), p);
        ok := m == 0;
      }
    }
  }
}
