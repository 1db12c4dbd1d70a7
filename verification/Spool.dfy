/** The ingress's half of an upload: the chunks of a request are spooled, hashed and bounded as they come.
    The hash is a fold over bytes. */
module Spool {
  import opened Options

  type Bytes = seq<bv8>

  /** What a chunk-wise hash is: a state absorbing one byte after another. */
  datatype Hash = Hash(init: int, absorb: (int, bv8) -> int)

  /** `update(bytes)` */
  function Absorbed(h: Hash, state: int, bytes: Bytes): int
    decreases |bytes|
  {
    if bytes == [] then state else Absorbed(h, h.absorb(state, bytes[0]), bytes[1..])
  }

  function Digest(h: Hash, bytes: Bytes): int {
    Absorbed(h, h.init, bytes)
  }

  lemma {:induction false} AbsorbedAppend(h: Hash, state: int, a: Bytes, b: Bytes)
    ensures Absorbed(h, state, a + b) == Absorbed(h, Absorbed(h, state, a), b)
    decreases |a|
  {
    if a == [] {
      assert a + b == b;
    } else {
      assert (a + b)[1..] == a[1..] + b;
      AbsorbedAppend(h, h.absorb(state, a[0]), a[1..], b);
    }
  }

  /** One pass of a copy loop: a chunk that arrives, and whether its write succeeds; or a read that raises. */
  datatype Pass = Chunk(bytes: Bytes, writes: bool) | Raises

  /** The stream ends at the first empty chunk, or when there is no more. */
  predicate Ended(passes: seq<Pass>) {
    passes == [] || passes[0] == Chunk([], true) || passes[0] == Chunk([], false)
  }

  /** The bytes a stream carries, when it comes to its end without a failure. */
  function Carried(passes: seq<Pass>): (r: Option<Bytes>)
    decreases |passes|
  {
    if Ended(passes) then Some([])
    else if passes[0].Raises? || !passes[0].writes then None
    else match Carried(passes[1..])
      case None => None
      case Some(rest) => Some(passes[0].bytes + rest)
  }

  /** What arrives before the end, failures aside. */
  function Arrived(passes: seq<Pass>): Bytes
    decreases |passes|
  {
    if Ended(passes) || passes[0].Raises? then [] else passes[0].bytes + Arrived(passes[1..])
  }

  lemma {:induction false} CarriedArrived(passes: seq<Pass>)
    ensures Carried(passes).Some? ==> Carried(passes).value == Arrived(passes)
    decreases |passes|
  {
    if !Ended(passes) {
      CarriedArrived(passes[1..]);
    }
  }

  /** One chunk after another. */
  function Joined(chunks: seq<Bytes>): Bytes {
    if chunks == [] then [] else chunks[0] + Joined(chunks[1..])
  }

  function Written(chunks: seq<Bytes>): seq<Pass> {
    seq(|chunks|, i requires 0 <= i < |chunks| => Chunk(chunks[i], true))
  }

  /** Chunks that were written, and then an empty one or nothing: the stream carries them all.  Then a read that raises
      or a write that fails: it carries nothing. */
  lemma {:induction false} StreamIsJoined(chunks: seq<Bytes>, rest: seq<Pass>)
    requires forall i :: 0 <= i < |chunks| ==> chunks[i] != []
    ensures rest == [] || (rest[0].Chunk? && rest[0].bytes == []) ==> Carried(Written(chunks) + rest) == Some(Joined(chunks))
    ensures rest != [] && (rest[0].Raises? || (rest[0].bytes != [] && !rest[0].writes)) ==> Carried(Written(chunks) + rest) == None
  {
    var passes := Written(chunks) + rest;
    if chunks == [] {
      assert passes == rest;
    } else {
      assert passes[1..] == Written(chunks[1..]) + rest && passes[0] == Chunk(chunks[0], true);
      StreamIsJoined(chunks[1..], rest);
    }
  }

  /** A loop that has taken `i` passes holds the bytes `done`: what it will have carried, and what arrived. */
  predicate Taken(passes: seq<Pass>, i: nat, done: Bytes) {
    && i <= |passes|
    && (Carried(passes).Some? <==> Carried(passes[i..]).Some?)
    && (Carried(passes).Some? ==> Carried(passes).value == done + Carried(passes[i..]).value)
    && Arrived(passes) == done + Arrived(passes[i..])
  }

  lemma NoneTaken(passes: seq<Pass>)
    ensures Taken(passes, 0, [])
  {
    assert passes[0..] == passes;
  }

  lemma OneMoreTaken(passes: seq<Pass>, i: nat, done: Bytes)
    requires Taken(passes, i, done) && !Ended(passes[i..]) && passes[i].Chunk?
    ensures passes[i].writes ==> Taken(passes, i + 1, done + passes[i].bytes)
    ensures !passes[i].writes ==> Carried(passes) == None
    ensures done + passes[i].bytes <= Arrived(passes)
    ensures Carried(passes).Some? ==> Carried(passes).value == Arrived(passes)
  {
    CarriedArrived(passes);
    var rest := passes[i..];
    assert rest[1..] == passes[i + 1..] && rest[0] == passes[i];
    assert done + (passes[i].bytes + Arrived(rest[1..])) == done + passes[i].bytes + Arrived(rest[1..]);
  }

  lemma AllTaken(passes: seq<Pass>, i: nat, done: Bytes)
    requires Taken(passes, i, done) && Ended(passes[i..])
    ensures Carried(passes) == Some(done)
  {
    assert done + [] == done;
  }

  /** A job directory as the ingress makes it: `<job>/input/<filename>`. */
  class JobDir {
    var file: Option<Bytes>
    var inputDir: bool
    var jobDir: bool

    /** The spooling half of `scan`.  `unlinks` and `rmdirs` say which clean-up calls succeed. */
    method Scan(h: Hash, passes: seq<Pass>, cap: nat, opens: bool, unlinks: bool, rmdirs: bool) returns (sha: Option<int>)
      requires file == None
      modifies this
      ensures sha.Some? <==> opens && Carried(passes).Some? && |Carried(passes).value| <= cap
      ensures sha.Some? ==> file == Carried(passes) && sha.value == Digest(h, file.value) && inputDir && jobDir
      ensures file.Some? ==> |file.value| <= cap && file.value <= Arrived(passes)
      ensures sha.None? && unlinks ==> file == None && (rmdirs ==> !inputDir && !jobDir)
    {
      jobDir, inputDir := true, true;
      if !opens {
        CleanUp(unlinks, rmdirs);
        return None;
      }
      file := Some([]);
      var state, written, i := h.init, 0, 0;
      NoneTaken(passes);
      while !Ended(passes[i..])
        invariant 0 <= i <= |passes|
        invariant file.Some? && written == |file.value| <= cap && jobDir && inputDir
        invariant state == Digest(h, file.value)
        invariant Taken(passes, i, file.value)
        decreases |passes| - i
      {
        var pass := passes[i];
        if pass.Raises? {
          CleanUp(unlinks, rmdirs);
          return None;
        }
        OneMoreTaken(passes, i, file.value);
        written := written + |pass.bytes|;
        if written > cap || !pass.writes {
          CleanUp(unlinks, rmdirs);
          return None;
        }
        AbsorbedAppend(h, h.init, file.value, pass.bytes);
        state := Absorbed(h, state, pass.bytes);
        file := Some(file.value + pass.bytes);
        i := i + 1;
      }
      AllTaken(passes, i, file.value);
      return Some(state);
    }

    /** Unlink, then remove the two directories if they are empty by now. */
    method CleanUp(unlinks: bool, rmdirs: bool)
      modifies this
      ensures file == if unlinks then None else old(file)
      ensures inputDir == (old(inputDir) && !(rmdirs && file == None))
      ensures jobDir == (old(jobDir) && !(rmdirs && !inputDir))
    {
      if unlinks {
        file := None;
      }
      if rmdirs && file == None {
        inputDir := false;
      }
      if rmdirs && !inputDir {
        jobDir := false;
      }
    }
  }
}
