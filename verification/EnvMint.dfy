/** `compose-env.sh --mint`: the guards, the newline fix-up and the appended URL, against how the
    service reads the file afterwards. */
module EnvMint {
  import opened Options
  import opened EnvFile
  import opened EnvPrint

  function Lift(s: string): Text {
    seq(|s|, i requires 0 <= i < |s| => s[i] as int)
  }

  const URL_KEY: Text := Lift("BLASTBOX_DATABASE_URL")

  function UrlOf(password: Text): Text {
    Lift("postgresql://winval:") + password + Lift("@127.0.0.1:5433/winval")
  }

  /** A value no reader treats specially: no blank, newline, quote, backslash, NUL or stray in it. */
  predicate Plain(v: Text) {
    v != [] && forall i :: 0 <= i < |v| ==> IsPlain(v[i])
  }

  predicate IsPlain(c: Rune) {
    !IsBlank(c) && !IsNewline(c) && c != QUOTE && c != APOSTROPHE && c != BACKSLASH && c != 0 && !IsStray(c)
  }

  /** The file up to its last newline, when it ends in one. */
  function Body(text: Text): Text {
    if text != [] && text[|text| - 1] == LF then text[..|text| - 1] else text
  }

  function Line(k: Text, v: Text): Text {
    k + [EQUALS] + v + [LF]
  }

  /** The append: a last line without its newline is ended first. */
  function Minted(text: Text, v: Text): Text {
    (if text != [] && text[|text| - 1] != LF then text + [LF] else text) + Line(URL_KEY, v)
  }

  /** The machine at the end of the last line, before any newline. */
  function AtEnd(text: Text): Machine {
    Run(START, Body(text))
  }

  function UrlIn(env: map<Text, Text>): Text {
    if URL_KEY in env then env[URL_KEY] else []
  }

  /** What `URL=$(...)` keeps of a printed value: its trailing line feeds are dropped. */
  function Captured(v: Text): Text
    decreases |v|
  {
    if v != [] && v[|v| - 1] == LF then Captured(v[..|v| - 1]) else v
  }

  /** The script sees no URL: none is set, or one of line feeds only. */
  predicate NoUrl(env: map<Text, Text>) {
    Captured(UrlIn(env)) == []
  }

  lemma PlainIsCaptured(v: Text)
    requires Plain(v)
    ensures Captured(v) == v
  {
    assert IsPlain(v[|v| - 1]);
  }

  lemma UrlKeyIsName()
    ensures IsName(URL_KEY) && Plain(URL_KEY) && EQUALS !in URL_KEY
  {
    assert "BLASTBOX_DATABASE_URL" == ['B','L','A','S','T','B','O','X','_','D','A','T','A','B','A','S','E','_','U','R','L'];
    assert URL_KEY == [66, 76, 65, 83, 84, 66, 79, 88, 95, 68, 65, 84, 65, 66, 65, 83, 69, 95, 85, 82, 76];
    forall i | 0 <= i < |URL_KEY|
      ensures IsNameRune(URL_KEY[i])
    {
    }
  }

  // ---- the minted line, from a key position and from inside a value

  lemma {:induction false} PlainIsValue(m: Machine, v: Text)
    requires (m.st == PreValue && v != []) || (m.st == Value && m.valWs == None)
    requires !m.refused && forall i :: 0 <= i < |v| ==> IsPlain(v[i])
    ensures Run(m, v) == m.(st := Value, valWs := None, val := m.val + v)
    decreases |v|
  {
    if v == [] {
      assert m.val + v == m.val;
    } else {
      assert Step(m, v[0]) == m.(st := Value, valWs := None, val := m.val + [v[0]]);
      PlainIsValue(Step(m, v[0]), v[1..]);
      assert m.val + [v[0]] + v[1..] == m.val + v;
    }
  }

  lemma PlainHasNoStray(v: Text)
    requires forall i :: 0 <= i < |v| ==> IsPlain(v[i])
    ensures !HasStray(v)
  {
  }

  /** From where a key would be, the line is one assignment. */
  lemma LineAssigns(m: Machine, k: Text, v: Text)
    requires m.st == PreKey && !m.refused && IsName(k) && Plain(v)
    ensures Finish(Run(m, Line(k, v))) == Parsed(m.out[k := v], false)
  {
    var p := m.(st := PreValue, key := k, keyWs := None, val := [], valWs := None);
    KeyIsRead(m, k);
    RunSnoc(m, k, EQUALS);
    assert Run(m, k + [EQUALS]) == p;
    RunAppend(m, k + [EQUALS], v);
    PlainIsValue(p, v);
    assert [] + v == v;
    var q := p.(st := Value, val := v);
    assert Run(m, k + [EQUALS] + v) == q;
    RunSnoc(m, k + [EQUALS] + v, LF);
    NamesAreClean(k);
    PlainHasNoStray(v);
    TakenAtNewline(q);
  }

  /** A newline after a value takes it, and the file may end there. */
  lemma TakenAtNewline(q: Machine)
    requires q.st == Value && q.valWs == None && !q.refused && !PushCut(q).refused
    ensures Finish(Step(q, LF)) == Parsed(Assign(q.out, Cut(q.key, q.keyWs), q.val), false)
  {
  }

  lemma StraysAdd(a: Text, b: Text)
    requires !HasStray(a) && !HasStray(b)
    ensures !HasStray(a + b)
  {
  }

  /** From inside a value, the line is swallowed into it. */
  lemma LineIsSwallowed(m: Machine, k: Text, v: Text)
    requires m.st == Value && m.valWs == None && !m.refused && Plain(k) && Plain(v) && !PushCut(m).refused
    ensures Finish(Run(m, Line(k, v))) == Parsed(Assign(m.out, Cut(m.key, m.keyWs), m.val + (k + [EQUALS] + v)), false)
  {
    var line := k + [EQUALS] + v;
    assert forall i :: 0 <= i < |line| ==> IsPlain(line[i]);
    PlainIsValue(m, line);
    RunSnoc(m, line, LF);
    PlainHasNoStray(line);
    StraysAdd(m.val, line);
    TakenAtNewline(m.(val := m.val + line));
  }

  /** Wherever a terminated file ends, the newline after its last line leads to a key position, with
      everything taken, or back into the value a continuation left open. */
  lemma AfterLastLine(text: Text)
    requires Parse(text).Parsed? && !Parse(text).unterminated
    ensures !AtEnd(text).refused && !InQuotes(AtEnd(text).st)
    ensures AtEnd(text).st != ValueEscape ==> Flush(AtEnd(text)).out == Parse(text).env && !Flush(AtEnd(text)).refused
  {
    var b := Body(text);
    if b != text {
      assert text == b + [LF];
      RunSnoc(START, b, LF);
    }
  }

  /** An escape forgets the remembered blanks. */
  lemma {:induction false} EscapeForgetsBlanks(t: Text)
    ensures Run(START, t).st == ValueEscape ==> Run(START, t).valWs == None
    decreases |t|
  {
    if t != [] {
      var n := |t| - 1;
      EscapeForgetsBlanks(t[..n]);
      assert t[..n] + [t[n]] == t;
      RunSnoc(START, t[..n], t[n]);
    } else {
      assert Run(START, t) == START;
    }
  }

  /** The machine that reads the minted line. */
  lemma BeforeTheLine(text: Text, v: Text)
    requires Parse(text).Parsed? && !Parse(text).unterminated && Plain(v)
    ensures 0 !in Minted(text, v)
    ensures Parse(Minted(text, v))
            == Finish(Run(if text == [] then START else Step(AtEnd(text), LF), Line(URL_KEY, v)))
  {
    AfterLastLine(text);
    UrlKeyIsName();
    var ended := if text != [] && text[|text| - 1] != LF then text + [LF] else text;
    if text != [] {
      assert ended == Body(text) + [LF];
      RunSnoc(START, Body(text), LF);
    }
    RunAppend(START, ended, Line(URL_KEY, v));
    assert forall i :: 0 <= i < |v| ==> IsPlain(v[i]);
    assert forall i :: 0 <= i < |URL_KEY| ==> IsPlain(URL_KEY[i]);
  }

  /** A line read from inside a value does not set the URL: it lengthens that value. */
  lemma SwallowedIsUnset(out: map<Text, Text>, k: Text, val: Text, v: Text)
    requires NoUrl(Assign(out, k, val)) && Plain(v)
    ensures UrlIn(Assign(out, k, val + (URL_KEY + [EQUALS] + v))) != v
  {
    assert |val + (URL_KEY + [EQUALS] + v)| > |v|;
    PlainIsCaptured(v);
  }

  /** On every file the script would append to (parsed, terminated, no URL yet): the service reads the
      minted line as exactly one override of the old map if and only if the last line does not end
      inside an unquoted value's escape, that is, in a continuation. */
  lemma MintIsReadAsOne(text: Text, v: Text)
    requires Parse(text).Parsed? && !Parse(text).unterminated
    requires NoUrl(Parse(text).env) && Plain(v)
    ensures Parse(Minted(text, v)) == Parsed(Parse(text).env[URL_KEY := v], false) <==> AtEnd(text).st != ValueEscape
  {
    UrlKeyIsName();
    AfterLastLine(text);
    BeforeTheLine(text, v);
    var m := AtEnd(text);
    if text == [] {
      LineAssigns(START, URL_KEY, v);
    } else if m.st != ValueEscape {
      NewlineFlushes(m, LF);
      LineAssigns(Step(m, LF), URL_KEY, v);
    } else {
      EscapeForgetsBlanks(Body(text));
      OpenValue(text);
      LineIsSwallowed(Step(m, LF), URL_KEY, v);
      SwallowedIsUnset(m.out, Cut(m.key, m.keyWs), m.val, v);
    }
  }

  /** A file that ends in a continuation takes the open value as it stands. */
  lemma OpenValue(text: Text)
    requires Parse(text).Parsed? && AtEnd(text).st == ValueEscape && AtEnd(text).valWs == None && !AtEnd(text).refused
    ensures var m := AtEnd(text);
            && !PushCut(Step(m, LF)).refused
            && Parse(text).env == Assign(m.out, Cut(m.key, m.keyWs), m.val)
  {
    if Body(text) != text {
      assert text == Body(text) + [LF];
      RunSnoc(START, Body(text), LF);
    }
  }

  // ---- the guard

  function TrailingBackslashes(t: Text): nat
    decreases |t|
  {
    if t != [] && t[|t| - 1] == BACKSLASH then 1 + TrailingBackslashes(t[..|t| - 1]) else 0
  }

  /** What follows the last line feed. */
  function AfterLastFeed(t: Text): Text
    decreases |t|
  {
    if t == [] || t[|t| - 1] == LF then [] else AfterLastFeed(t[..|t| - 1]) + [t[|t| - 1]]
  }

  /** `tail -1` without its line feed. */
  function LastLine(text: Text): Text {
    AfterLastFeed(Body(text))
  }

  /** What a text-mode read then `rstrip` of newlines leaves: carriage returns were translated, so they go too. */
  function Raw(line: Text): Text
    decreases |line|
  {
    if line != [] && IsNewline(line[|line| - 1]) then Raw(line[..|line| - 1]) else line
  }

  /** `str.isspace` */
  predicate IsPySpace(c: Rune) {
    9 <= c <= 13 || 28 <= c <= 32 || c == 0x85 || c == 0xA0 || c == 0x1680 || 0x2000 <= c <= 0x200A
    || c == 0x2028 || c == 0x2029 || c == 0x202F || c == 0x205F || c == 0x3000
  }

  function StripLeft(t: Text): Text
    decreases |t|
  {
    if t != [] && IsPySpace(t[0]) then StripLeft(t[1..]) else t
  }

  predicate StartsWithHash(t: Text) {
    StripLeft(t) != [] && StripLeft(t)[0] == HASH
  }

  /** The backslash guard; under a strict decoder a last line that is not UTF-8 ends it without a refusal. */
  predicate GuardRefuses(text: Text, strict: bool) {
    var raw := Raw(LastLine(text));
    text != [] && !(strict && HasStray(LastLine(text))) && !StartsWithHash(raw) && TrailingBackslashes(raw) % 2 == 1
  }

  /** The guard refuses exactly a last line that is no comment and ends in an odd number of backslashes: `front` are the
      lines before it, `line` and `n` backslashes are it, and it may be ended by a line feed, with carriage returns before. */
  lemma GuardIsExact(front: Text, line: Text, n: nat, crs: Text, ended: bool, strict: bool)
    requires front == [] || front[|front| - 1] == LF
    requires NoNewline(line) && (line == [] || line[|line| - 1] != BACKSLASH) && line + Backslashes(n) != []
    requires forall i :: 0 <= i < |crs| ==> crs[i] == CR
    ensures var last := line + Backslashes(n);
            GuardRefuses(front + (last + crs) + (if ended then [LF] else []), strict)
            <==> n % 2 == 1 && !(strict && HasStray(last + crs)) && !CommentLike(last)
  {
    var last := line + Backslashes(n);
    var text := front + (last + crs);
    assert NoFeed(last + crs);
    BodyOfEnded(text, ended);
    AfterFront(front, last + crs);
    RawOfReturns(last, crs);
    RunOfBackslashes(line, n);
    HashFirst(last);
  }

  /** Blanks of any kind, then '#'. */
  predicate CommentLike(t: Text) {
    exists i :: 0 <= i < |t| && t[i] == HASH && forall j :: 0 <= j < i ==> IsPySpace(t[j])
  }

  function Backslashes(n: nat): (t: Text)
    ensures |t| == n && forall i :: 0 <= i < n ==> t[i] == BACKSLASH
  {
    seq(n, _ => BACKSLASH)
  }

  predicate NoFeed(t: Text) {
    forall i :: 0 <= i < |t| ==> t[i] != LF
  }

  lemma BodyOfEnded(text: Text, ended: bool)
    requires text != [] && text[|text| - 1] != LF
    ensures Body(text + (if ended then [LF] else [])) == text
  {
    assert text + [] == text;
    assert (text + [LF])[..|text|] == text;
  }

  lemma {:induction false} AfterFront(front: Text, t: Text)
    requires (front == [] || front[|front| - 1] == LF) && NoFeed(t)
    ensures AfterLastFeed(front + t) == t
    decreases |t|
  {
    if t == [] {
      assert front + t == front;
    } else {
      var n := |t| - 1;
      assert (front + t)[..|front + t| - 1] == front + t[..n];
      AfterFront(front, t[..n]);
      assert t[..n] + [t[n]] == t;
    }
  }

  lemma {:induction false} RawOfReturns(t: Text, crs: Text)
    requires t != [] && !IsNewline(t[|t| - 1]) && forall i :: 0 <= i < |crs| ==> crs[i] == CR
    ensures Raw(t + crs) == t
    decreases |crs|
  {
    if crs == [] {
      assert t + crs == t;
    } else {
      var n := |crs| - 1;
      assert (t + crs)[..|t + crs| - 1] == t + crs[..n];
      RawOfReturns(t, crs[..n]);
    }
  }

  lemma {:induction false} RunOfBackslashes(line: Text, n: nat)
    requires line == [] || line[|line| - 1] != BACKSLASH
    ensures TrailingBackslashes(line + Backslashes(n)) == n
    decreases n
  {
    var t := line + Backslashes(n);
    if n == 0 {
      assert t == line;
    } else {
      assert t[..|t| - 1] == line + Backslashes(n - 1);
      RunOfBackslashes(line, n - 1);
    }
  }

  lemma {:induction false} HashFirst(t: Text)
    ensures StartsWithHash(t) <==> CommentLike(t)
    decreases |t|
  {
    if t != [] && IsPySpace(t[0]) {
      HashFirst(t[1..]);
      if CommentLike(t) {
        var i :| 0 <= i < |t| && t[i] == HASH && forall j :: 0 <= j < i ==> IsPySpace(t[j]);
        assert t[1..][i - 1] == HASH;
      }
      if CommentLike(t[1..]) {
        var i :| 0 <= i < |t| - 1 && t[1..][i] == HASH && forall j :: 0 <= j < i ==> IsPySpace(t[1..][j]);
        assert t[i + 1] == HASH;
        forall j | 0 <= j < i + 1
          ensures IsPySpace(t[j])
        {
          assert j > 0 ==> t[j] == t[1..][j - 1];
        }
      }
    } else if CommentLike(t) {
      var i :| 0 <= i < |t| && t[i] == HASH && forall j :: 0 <= j < i ==> IsPySpace(t[j]);
      assert i == 0;
    }
  }

  lemma {:induction false} SameTrail(t: Text)
    ensures TrailingBackslashes(AfterLastFeed(t)) == TrailingBackslashes(t)
    decreases |t|
  {
    if t != [] && t[|t| - 1] != LF {
      var n := |t| - 1;
      SameTrail(t[..n]);
      assert AfterLastFeed(t)[..|AfterLastFeed(t)| - 1] == AfterLastFeed(t[..n]);
    }
  }

  /** An escape is only ever entered by the last backslash of an odd run of them. */
  lemma {:induction false} EscapeMeansOdd(t: Text)
    requires Run(START, t).st == ValueEscape
    ensures t != [] && t[|t| - 1] == BACKSLASH && TrailingBackslashes(t) % 2 == 1
    decreases |t|
  {
    if t != [] {
      var n := |t| - 1;
      assert t[..n] + [t[n]] == t;
      RunSnoc(START, t[..n], t[n]);
      if Run(START, t[..n]).refused {
        RefusedInEscape(t[..n]);
      } else if n > 0 && t[n - 1] == BACKSLASH {
        assert t[..n][..n - 1] == t[..n - 1] && t[..n - 1] + [t[n - 1]] == t[..n];
        RunSnoc(START, t[..n - 1], t[n - 1]);
        EscapeMeansOdd(t[..n - 1]);
      }
    }
  }

  /** A refusal happens at a newline, which leaves the machine where keys begin. */
  lemma {:induction false} RefusedInEscape(t: Text)
    requires Run(START, t).refused
    ensures Run(START, t).st == PreKey
    decreases |t|
  {
    if t != [] {
      var n := |t| - 1;
      assert t[..n] + [t[n]] == t;
      RunSnoc(START, t[..n], t[n]);
      if Run(START, t[..n]).refused {
        RefusedInEscape(t[..n]);
      }
    }
  }

  /** What passes the guard by its backslashes is safe to append to. */
  lemma EvenBackslashesAreSafe(text: Text, strict: bool)
    requires !GuardRefuses(text, strict)
    requires !(strict && HasStray(LastLine(text))) && !StartsWithHash(Raw(LastLine(text)))
    ensures AtEnd(text).st != ValueEscape
  {
    SameTrail(Body(text));
    if AtEnd(text).st == ValueEscape {
      EscapeMeansOdd(Body(text));
    }
  }

  /** A comment: blanks, then '#', and no newline of either kind. */
  predicate CommentLine(line: Text) {
    exists i :: 0 <= i < |line| && line[i] == HASH && (forall j :: 0 <= j < i ==> IsBlank(line[j])) && NoNewline(line)
  }

  predicate NoNewline(line: Text) {
    forall j :: 0 <= j < |line| ==> !IsNewline(line[j])
  }

  lemma {:induction false} StaysInComment(m: Machine, line: Text)
    requires m.st == InComment && NoNewline(line)
    ensures Run(m, line) == m
    decreases |line|
  {
    if line != [] && !m.refused {
      StaysInComment(m, line[1..]);
    }
  }

  lemma {:induction false} BlanksThenComment(m: Machine, line: Text, i: nat)
    requires m.st == PreKey && !m.refused && NoNewline(line)
    requires i < |line| && line[i] == HASH && forall j :: 0 <= j < i ==> IsBlank(line[j])
    ensures Run(m, line).st == InComment
    decreases |line|
  {
    if i == 0 {
      StaysInComment(Step(m, line[0]), line[1..]);
    } else {
      assert Step(m, line[0]) == m;
      BlanksThenComment(m, line[1..], i - 1);
    }
  }

  /** What passes the guard as a comment is safe when it is one to the service too: when the machine is
      at a key position where that line begins. */
  lemma RealCommentsAreSafe(before: Text, line: Text)
    requires Run(START, before).st == PreKey && !Run(START, before).refused && CommentLine(line)
    ensures Run(START, before + line).st != ValueEscape
  {
    RunAppend(START, before, line);
    var i :| 0 <= i < |line| && line[i] == HASH && forall j :: 0 <= j < i ==> IsBlank(line[j]);
    BlanksThenComment(Run(START, before), line, i);
  }

  /** And not otherwise.  After `A=x\` a line `#\` continues that value: the guard takes it for a comment,
      and the minted URL is swallowed into A. */
  lemma CommentInContinuation(v: Text, strict: bool)
    requires Plain(v)
    ensures !GuardRefuses(CONTINUED, strict)
    ensures Parse(CONTINUED) == Parsed(map[[65] := [120, HASH]], false)
    ensures Parse(Minted(CONTINUED, v)) != Parsed(Parse(CONTINUED).env[URL_KEY := v], false)
  {
    ContinuedEnds();
    ContinuedPasses(strict);
    MintIsReadAsOne(CONTINUED, v);
  }

  const CONTINUED: Text := [65, EQUALS, 120, BACKSLASH, LF, HASH, BACKSLASH]

  lemma ContinuedEnds()
    ensures AtEnd(CONTINUED).st == ValueEscape
    ensures Parse(CONTINUED) == Parsed(map[[65] := [120, HASH]], false)
    ensures NoUrl(Parse(CONTINUED).env)
  {
    ContinuedRuns();
    assert IsName([65]);
    UrlKeyIsName();
    assert URL_KEY[0] != 65;
  }

  lemma ContinuedRuns()
    ensures Run(START, CONTINUED) == START.(st := ValueEscape, key := [65], val := [120, HASH])
  {
    var m := START.(st := Key, key := [65]);
    var p := m.(st := PreValue);
    var e := p.(st := ValueEscape, val := [120]);
    RunsOver(CONTINUED, [START, m, p, p.(st := Value, val := [120]), e, e.(st := Value),
                         e.(st := Value, val := [120, HASH]), e.(val := [120, HASH])]);
  }

  lemma ContinuedPasses(strict: bool)
    ensures !GuardRefuses(CONTINUED, strict)
  {
    var t := CONTINUED;
    assert Body(t) == t;
    assert t[..6][..5][4] == LF;
    assert AfterLastFeed(t[..6][..5]) == [];
    assert AfterLastFeed(t[..6]) == [HASH];
    assert AfterLastFeed(t) == [HASH, BACKSLASH];
    assert Raw([HASH, BACKSLASH]) == [HASH, BACKSLASH];
  }

  /** A run given state by state. */
  lemma {:induction false} RunsOver(t: Text, states: seq<Machine>)
    requires |states| == |t| + 1
    requires forall i :: 0 <= i < |t| ==> Step(states[i], t[i]) == states[i + 1] && !states[i].refused
    ensures Run(states[0], t) == states[|t|]
    decreases |t|
  {
    if t != [] {
      RunsOver(t[1..], states[1..]);
    }
  }

  // ---- the command

  predicate IsHex(t: Text) {
    forall i :: 0 <= i < |t| ==> 48 <= t[i] <= 57 || 97 <= t[i] <= 102
  }

  lemma UrlStartIsPlain()
    ensures Plain(Lift("postgresql://winval:"))
  {
    assert Lift("postgresql://winval:")
        == [112, 111, 115, 116, 103, 114, 101, 115, 113, 108, 58, 47, 47, 119, 105, 110, 118, 97, 108, 58];
  }

  lemma UrlEndIsPlain()
    ensures Plain(Lift("@127.0.0.1:5433/winval"))
  {
    assert Lift("@127.0.0.1:5433/winval")
        == [64, 49, 50, 55, 46, 48, 46, 48, 46, 49, 58, 53, 52, 51, 51, 47, 119, 105, 110, 118, 97, 108];
  }

  lemma PlainAdds(a: Text, p: Text, b: Text)
    requires Plain(a) && Plain(b) && IsHex(p)
    ensures Plain(a + p + b)
  {
  }

  /** The minted line, character for character. */
  lemma MintedLine(password: Text)
    ensures Line(URL_KEY, UrlOf(password))
            == Lift("BLASTBOX_DATABASE_URL=postgresql://winval:") + password + Lift("@127.0.0.1:5433/winval") + [LF]
  {
    var scheme, host := Lift("postgresql://winval:"), Lift("@127.0.0.1:5433/winval");
    LineStart();
    LineParts(URL_KEY, [EQUALS], scheme, password, host, [LF]);
  }

  lemma LineStart()
    ensures Lift("BLASTBOX_DATABASE_URL=postgresql://winval:") == URL_KEY + [EQUALS] + Lift("postgresql://winval:")
  {
    LiftAdds("BLASTBOX_DATABASE_URL", "=");
    LiftAdds("BLASTBOX_DATABASE_URL" + "=", "postgresql://winval:");
    assert Lift("=") == [EQUALS];
    assert "BLASTBOX_DATABASE_URL" + "=" + "postgresql://winval:" == "BLASTBOX_DATABASE_URL=postgresql://winval:";
  }

  lemma LineParts(a: Text, b: Text, c: Text, d: Text, e: Text, f: Text)
    ensures a + b + (c + d + e) + f == a + b + c + d + e + f
  {
  }

  lemma LiftAdds(a: string, b: string)
    ensures Lift(a + b) == Lift(a) + Lift(b)
  {
  }

  lemma UrlIsPlain(password: Text)
    requires IsHex(password)
    ensures Plain(UrlOf(password))
  {
    UrlStartIsPlain();
    UrlEndIsPlain();
    PlainAdds(Lift("postgresql://winval:"), password, Lift("@127.0.0.1:5433/winval"));
  }

  /** /etc/winval/winval.env, as the script edits it. */
  class EnvStore {
    var text: Text

    constructor (text: Text)
      ensures this.text == text
    {
      this.text := text;
    }

    /** Return code 0 with a URL there already, or minted; otherwise a refusal that leaves every byte as it was. */
    method Mint(password: Text, strict: bool) returns (rc: int)
      requires IsHex(password)
      modifies this
      ensures rc != 0 ==> text == old(text)
      ensures rc == 0 <==> var p := Parse(old(text));
                           p.Parsed? && (!NoUrl(p.env) || (!p.unterminated && !GuardRefuses(old(text), strict)))
      ensures rc == 0 ==>
                || (text == old(text) && Parse(text).Parsed? && !NoUrl(Parse(text).env))
                || (text == Minted(old(text), UrlOf(password)) && Parse(old(text)).Parsed? && NoUrl(Parse(old(text)).env))
      ensures rc == 0 && AtEnd(old(text)).st != ValueEscape ==>
                && Parse(text).Parsed?
                && UrlIn(Parse(text).env) == (if NoUrl(Parse(old(text)).env) then UrlOf(password) else UrlIn(Parse(old(text)).env))
                && forall k :: k != URL_KEY ==> (k in Parse(text).env <==> k in Parse(old(text)).env)
                                                && (k in Parse(text).env ==> Parse(text).env[k] == Parse(old(text)).env[k])
    {
      UrlIsPlain(password);
      var r := ParseEnvFile(text);
      if r == Refused {
        return 1;
      }
      if Captured(UrlIn(r.env)) != [] {
        return 0;
      }
      if GuardRefuses(text, strict) || r.unterminated {
        return 1;
      }
      MintIsReadAsOne(text, UrlOf(password));
      if text != [] && text[|text| - 1] != LF {
        text := text + [LF];
      }
      text := text + Line(URL_KEY, UrlOf(password));
      return 0;
    }
  }
}
