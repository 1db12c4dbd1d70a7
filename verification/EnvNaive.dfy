/** The character machine refines a reader anyone would write: lines, trimmed, split at the first '='. */
module EnvNaive {
  import opened Options
  import opened EnvFile

  function TrimLeft(t: Text): Text
    decreases |t|
  {
    if t != [] && IsBlank(t[0]) then TrimLeft(t[1..]) else t
  }

  function TrimRight(t: Text): Text
    decreases |t|
  {
    if t != [] && IsBlank(t[|t| - 1]) then TrimRight(t[..|t| - 1]) else t
  }

  function Trim(t: Text): Text {
    TrimRight(TrimLeft(t))
  }

  /** The position of the first '=', or the length when there is none. */
  function FindEquals(t: Text): (k: nat)
    ensures k <= |t|
    ensures k < |t| ==> t[k] == EQUALS
    ensures forall i :: 0 <= i < k ==> t[i] != EQUALS
    decreases |t|
  {
    if t == [] || t[0] == EQUALS then 0 else 1 + FindEquals(t[1..])
  }

  /** One line: blank lines, comments and lines without '=' are dropped, and names that are no names. */
  function ReadLine(out: map<Text, Text>, line: Text): map<Text, Text> {
    var t := TrimLeft(line);
    if t == [] || IsComment(t[0]) || FindEquals(t) == |t| then out
    else Assign(out, Trim(t[..FindEquals(t)]), Trim(t[FindEquals(t) + 1..]))
  }

  function LineEnd(t: Text): (k: nat)
    ensures k <= |t|
    ensures k < |t| ==> IsNewline(t[k])
    ensures forall i :: 0 <= i < k ==> !IsNewline(t[i])
    decreases |t|
  {
    if t == [] || IsNewline(t[0]) then 0 else 1 + LineEnd(t[1..])
  }

  function ReadLines(out: map<Text, Text>, text: Text): map<Text, Text>
    decreases |text|
  {
    var k := LineEnd(text);
    if k == |text| then ReadLine(out, text) else ReadLines(ReadLine(out, text[..k]), text[k + 1..])
  }

  /** Text without quotes, backslashes, NUL or strays. */
  predicate Simple(t: Text) {
    forall i :: 0 <= i < |t| ==> t[i] != QUOTE && t[i] != APOSTROPHE && t[i] != BACKSLASH && t[i] != 0 && !IsStray(t[i])
  }

  predicate OneLine(t: Text) {
    forall i :: 0 <= i < |t| ==> !IsNewline(t[i])
  }

  predicate AllBlank(t: Text) {
    forall i :: 0 <= i < |t| ==> IsBlank(t[i])
  }

  // ---- trimming

  lemma {:induction false} TrimLeftSnoc(t: Text, c: Rune)
    ensures TrimLeft(t + [c]) == if TrimLeft(t) == [] && IsBlank(c) then [] else TrimLeft(t) + [c]
    decreases |t|
  {
    if t == [] {
      assert t + [c] == [c] && [c][1..] == [];
    } else if IsBlank(t[0]) {
      assert (t + [c])[1..] == t[1..] + [c];
      TrimLeftSnoc(t[1..], c);
    }
  }

  lemma TrimRightSnoc(t: Text, c: Rune)
    ensures TrimRight(t + [c]) == if IsBlank(c) then TrimRight(t) else t + [c]
  {
    assert (t + [c])[..|t|] == t;
  }

  lemma {:induction false} TrimRightOfBlank(t: Text)
    requires AllBlank(t)
    ensures TrimRight(t) == [] && TrimLeft(t) == []
    decreases |t|
  {
    if t != [] {
      TrimRightOfBlank(t[..|t| - 1]);
      TrimLeftSnoc(t[..|t| - 1], t[|t| - 1]);
      assert t[..|t| - 1] + [t[|t| - 1]] == t;
    }
  }

  lemma {:induction false} TrimRightIsPrefix(t: Text)
    ensures TrimRight(t) <= t
    decreases |t|
  {
    if t != [] && IsBlank(t[|t| - 1]) {
      TrimRightIsPrefix(t[..|t| - 1]);
    }
  }

  // ---- one line

  /** The remembered index cuts exactly the trailing blanks. */
  predicate Marked(t: Text, ws: Option<nat>) {
    && t != []
    && !IsBlank(t[0])
    && (if ws == None then !IsBlank(t[|t| - 1]) else ws.value <= |t| && IsBlank(t[|t| - 1]))
    && Cut(t, ws) == TrimRight(t)
  }

  lemma MarkedOne(c: Rune)
    ensures !IsBlank(c) ==> Marked([c], None)
  {
  }

  lemma MarkedSnoc(t: Text, ws: Option<nat>, c: Rune)
    requires Marked(t, ws)
    ensures Marked(t + [c], Mark(t, ws, c))
  {
    TrimRightSnoc(t, c);
    if ws == None {
      assert TrimRight(t) == t;
    } else {
      assert (t + [c])[..ws.value] == t[..ws.value];
    }
    if IsBlank(c) && ws == None {
      assert (t + [c])[..|t|] == t;
    }
  }

  /** The machine in the middle of a line, in terms of what it has read of it. */
  predicate Reads(m: Machine, out: map<Text, Text>, line: Text) {
    var t := TrimLeft(line);
    && !m.refused && m.out == out
    && match m.st
       case PreKey => t == []
       case InComment => t != [] && IsComment(t[0])
       case Key => t == m.key && Marked(m.key, m.keyWs) && !IsComment(t[0]) && NoLaterEquals(m.key)
       case PreValue =>
         && KeyOf(t, m) && m.val == [] && AllBlank(t[|m.key| + 1..])
       case Value =>
         && KeyOf(t, m) && m.val == TrimLeft(t[|m.key| + 1..]) && Marked(m.val, m.valWs)
       case _ => false
  }

  /** No '=' but possibly at the very front, where the machine takes it for the start of a key. */
  predicate NoLaterEquals(k: Text) {
    forall i :: 1 <= i < |k| ==> k[i] != EQUALS
  }

  predicate KeyOf(t: Text, m: Machine) {
    && |t| > |m.key| && t[..|m.key|] == m.key && t[|m.key|] == EQUALS
    && Marked(m.key, m.keyWs) && !IsComment(t[0]) && NoLaterEquals(m.key)
  }

  lemma ReadsBeforeKey(m: Machine, out: map<Text, Text>, line: Text, c: Rune)
    requires Reads(m, out, line) && Simple([c]) && !IsNewline(c)
    requires m.st == PreKey || m.st == InComment
    ensures Reads(Step(m, c), out, line + [c])
  {
    TrimLeftSnoc(line, c);
    assert [c][0] == c;
    MarkedOne(c);
    assert [] + [c] == [c];
  }

  lemma ReadsInKey(m: Machine, out: map<Text, Text>, line: Text, c: Rune)
    requires Reads(m, out, line) && Simple([c]) && !IsNewline(c)
    requires m.st == Key
    ensures Reads(Step(m, c), out, line + [c])
  {
    TrimLeftSnoc(line, c);
    assert [c][0] == c;
    var t := TrimLeft(line);
    assert (t + [c])[..|m.key|] == m.key;
    if c == EQUALS {
      assert (t + [c])[|m.key| + 1..] == [];
    } else {
      MarkedSnoc(m.key, m.keyWs, c);
    }
  }

  lemma ReadsBeforeValue(m: Machine, out: map<Text, Text>, line: Text, c: Rune)
    requires Reads(m, out, line) && Simple([c]) && !IsNewline(c)
    requires m.st == PreValue
    ensures Reads(Step(m, c), out, line + [c])
  {
    TrimLeftSnoc(line, c);
    assert [c][0] == c;
    var t := TrimLeft(line);
    var w := t[|m.key| + 1..];
    assert (t + [c])[..|m.key|] == t[..|m.key|];
    assert (t + [c])[|m.key| + 1..] == w + [c];
    TrimLeftSnoc(w, c);
    TrimRightOfBlank(w);
    MarkedOne(c);
    assert [] + [c] == [c];
  }

  lemma ReadsInValue(m: Machine, out: map<Text, Text>, line: Text, c: Rune)
    requires Reads(m, out, line) && Simple([c]) && !IsNewline(c)
    requires m.st == Value
    ensures Reads(Step(m, c), out, line + [c])
  {
    TrimLeftSnoc(line, c);
    assert [c][0] == c;
    var t := TrimLeft(line);
    var w := t[|m.key| + 1..];
    assert (t + [c])[..|m.key|] == t[..|m.key|];
    assert (t + [c])[|m.key| + 1..] == w + [c];
    TrimLeftSnoc(w, c);
    MarkedSnoc(m.val, m.valWs, c);
  }

  lemma ReadsSnoc(m: Machine, out: map<Text, Text>, line: Text, c: Rune)
    requires Reads(m, out, line) && Simple([c]) && !IsNewline(c)
    ensures Reads(Step(m, c), out, line + [c])
  {
    match m.st
    case Key => ReadsInKey(m, out, line, c);
    case PreValue => ReadsBeforeValue(m, out, line, c);
    case Value => ReadsInValue(m, out, line, c);
    case _ => ReadsBeforeKey(m, out, line, c);
  }

  lemma {:induction false} LineIsRead(m: Machine, line: Text)
    requires m.st == PreKey && !m.refused && Simple(line) && OneLine(line)
    ensures Reads(Run(m, line), m.out, line)
    decreases |line|
  {
    if line != [] {
      var n := |line| - 1;
      LineIsRead(m, line[..n]);
      assert line[..n] + [line[n]] == line;
      RunSnoc(m, line[..n], line[n]);
      ReadsSnoc(Run(m, line[..n]), m.out, line[..n], line[n]);
    }
  }

  lemma {:induction false} TrimLeftIsSuffix(t: Text)
    ensures |TrimLeft(t)| <= |t| && TrimLeft(t) == t[|t| - |TrimLeft(t)|..]
    decreases |t|
  {
    if t != [] && IsBlank(t[0]) {
      TrimLeftIsSuffix(t[1..]);
    }
  }

  lemma SimpleHasNoStray(t: Text)
    requires Simple(t)
    ensures !HasStray(t)
  {
  }

  lemma NoStrayInCut(t: Text, ws: Option<nat>)
    requires !HasStray(t)
    ensures !HasStray(Cut(t, ws))
  {
  }

  /** The first '=' of the line ends the key, unless the key itself starts with one: then neither
      reader has a name. */
  lemma WhereTheKeyEnds(t: Text, m: Machine)
    requires KeyOf(t, m)
    ensures FindEquals(t) == |m.key| || (FindEquals(t) == 0 && !IsName(Cut(m.key, m.keyWs)))
    ensures FindEquals(t) == |m.key| ==> Trim(t[..|m.key|]) == Cut(m.key, m.keyWs)
  {
    TrimRightIsPrefix(m.key);
    if m.key[0] == EQUALS {
      assert t[0] == t[..|m.key|][0];
    } else {
      forall i | 0 <= i < |m.key|
        ensures t[i] != EQUALS
      {
        assert t[i] == t[..|m.key|][i];
      }
    }
  }

  /** What an assignment of `k` to `v` makes of a line whose key the machine kept. */
  lemma AssignedAlike(out: map<Text, Text>, line: Text, m: Machine)
    requires KeyOf(TrimLeft(line), m)
    ensures var t := TrimLeft(line);
            ReadLine(out, line) == Assign(out, Cut(m.key, m.keyWs), Trim(t[|m.key| + 1..]))
  {
    var t := TrimLeft(line);
    WhereTheKeyEnds(t, m);
    if FindEquals(t) != |m.key| {
      assert Trim(t[..0]) == [];
      assert !IsName([]);
    }
  }

  /** At the end of a line, or of the file, the machine holds what the naive reader reads. */
  ghost predicate Taken(m: Machine, out: map<Text, Text>, line: Text) {
    !Flush(m).refused && Flush(m).out == ReadLine(out, line)
  }

  lemma TakenInKey(m: Machine, out: map<Text, Text>, line: Text)
    requires Reads(m, out, line) && m.st == Key
    ensures Taken(m, out, line)
  {
    var t := TrimLeft(line);
    if FindEquals(t) < |t| {
      assert FindEquals(t) == 0;
      assert Trim(t[..0]) == [];
      assert !IsName([]);
    }
  }

  lemma KeyIsClean(m: Machine, t: Text)
    requires KeyOf(t, m) && Simple(t)
    ensures !HasStray(Cut(m.key, m.keyWs))
  {
    SimpleHasNoStray(t[..|m.key|]);
    NoStrayInCut(m.key, m.keyWs);
  }

  lemma TakenBeforeValue(m: Machine, out: map<Text, Text>, line: Text)
    requires Reads(m, out, line) && m.st == PreValue && Simple(TrimLeft(line))
    ensures Taken(m, out, line)
  {
    AssignedAlike(out, line, m);
    KeyIsClean(m, TrimLeft(line));
    TrimRightOfBlank(TrimLeft(line)[|m.key| + 1..]);
  }

  lemma TakenInValue(m: Machine, out: map<Text, Text>, line: Text)
    requires Reads(m, out, line) && m.st == Value && Simple(TrimLeft(line))
    ensures Taken(m, out, line)
  {
    var w := TrimLeft(line)[|m.key| + 1..];
    AssignedAlike(out, line, m);
    KeyIsClean(m, TrimLeft(line));
    TrimLeftIsSuffix(w);
    SimpleHasNoStray(w);
    NoStrayInCut(m.val, m.valWs);
  }

  lemma EndOfLine(m: Machine, out: map<Text, Text>, line: Text)
    requires Reads(m, out, line) && Simple(line)
    ensures Taken(m, out, line) && !InQuotes(m.st)
  {
    TrimLeftIsSuffix(line);
    match m.st
    case Key => TakenInKey(m, out, line);
    case PreValue => TakenBeforeValue(m, out, line);
    case Value => TakenInValue(m, out, line);
    case _ =>
  }

  lemma {:induction false} LinesAreRead(m: Machine, text: Text)
    requires m.st == PreKey && !m.refused && Simple(text)
    ensures Finish(Run(m, text)) == Parsed(ReadLines(m.out, text), false)
    decreases |text|
  {
    var k := LineEnd(text);
    var line := text[..k];
    LineIsRead(m, line);
    EndOfLine(Run(m, line), m.out, line);
    if k == |text| {
      assert line == text;
    } else {
      RunSnoc(m, line, text[k]);
      NewlineFlushes(Run(m, line), text[k]);
      var next := Run(m, line + [text[k]]);
      RunAppend(m, line + [text[k]], text[k + 1..]);
      assert line + [text[k]] + text[k + 1..] == text;
      LinesAreRead(next, text[k + 1..]);
    }
  }

  /** On every text without quotes, backslashes, NUL or bytes that are not UTF-8, the parser and the
      naive reader agree, and the file is never unterminated. */
  lemma ParserRefinesNaiveReader(text: Text)
    requires Simple(text)
    ensures Parse(text) == Parsed(ReadLines(map[], text), false)
  {
    LinesAreRead(START, text);
  }
}
