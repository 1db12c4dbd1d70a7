/** The environment-file parser shared by the rotator and the compose script: systemd's character
    machine, over code points.  A byte that is not UTF-8 appears as a stray (a lone surrogate). */
module EnvFile {
  import opened Options

  type Rune = int
  type Text = seq<Rune>

  const TAB: Rune := 9
  const LF: Rune := 10
  const CR: Rune := 13
  const SPACE: Rune := 32
  const QUOTE: Rune := 34      // "
  const HASH: Rune := 35       // #
  const DOLLAR: Rune := 36     // $
  const APOSTROPHE: Rune := 39 // '
  const SEMICOLON: Rune := 59  // ;
  const EQUALS: Rune := 61     // =
  const BACKSLASH: Rune := 92
  const UNDERSCORE: Rune := 95 // _
  const BACKTICK: Rune := 96

  predicate IsBlank(c: Rune) { c == SPACE || c == TAB }
  predicate IsNewline(c: Rune) { c == LF || c == CR }
  predicate IsComment(c: Rune) { c == HASH || c == SEMICOLON }
  predicate IsEscapable(c: Rune) { c == QUOTE || c == BACKSLASH || c == BACKTICK || c == DOLLAR }
  predicate IsStray(c: Rune) { 0xDC80 <= c <= 0xDCFF }

  predicate HasStray(t: Text) {
    exists i :: 0 <= i < |t| && IsStray(t[i])
  }

  predicate IsNameStart(c: Rune) { 65 <= c <= 90 || 97 <= c <= 122 || c == UNDERSCORE }
  predicate IsNameRune(c: Rune) { IsNameStart(c) || 48 <= c <= 57 }

  predicate IsName(k: Text) {
    k != [] && IsNameStart(k[0]) && forall i :: 0 <= i < |k| ==> IsNameRune(k[i])
  }

  /** The classes are the source's, character by character. */
  lemma CharacterClasses(c: Rune)
    ensures IsBlank(c) <==> c == ' ' as int || c == '\t' as int
    ensures IsNewline(c) <==> c == '\n' as int || c == '\r' as int
    ensures IsComment(c) <==> c == '#' as int || c == ';' as int
    ensures IsEscapable(c) <==> c == '"' as int || c == '\\' as int || c == '`' as int || c == '$' as int
    ensures IsNameRune(c) <==> 'A' as int <= c <= 'Z' as int || 'a' as int <= c <= 'z' as int || c == '_' as int || '0' as int <= c <= '9' as int
    ensures IsNameStart(c) <==> IsNameRune(c) && !('0' as int <= c <= '9' as int)
  {
  }

  datatype State = PreKey | Key | PreValue | Value | ValueEscape | SingleQuoted | DoubleQuoted | DoubleQuotedEscape | InComment

  /** The machine's variables; `refused` once an assignment was not valid UTF-8. */
  datatype Machine = Machine(st: State, key: Text, val: Text, keyWs: Option<nat>, valWs: Option<nat>,
                             out: map<Text, Text>, refused: bool)

  datatype Parsed = Refused | Parsed(env: map<Text, Text>, unterminated: bool)

  const START: Machine := Machine(PreKey, [], [], None, None, map[], false)

  /** What is left of `t` once its remembered trailing blanks are cut. */
  function Cut(t: Text, ws: Option<nat>): Text {
    if ws.Some? && ws.value <= |t| then t[..ws.value] else t
  }

  /** Where trailing blanks begin, after one more character. */
  function Mark(t: Text, ws: Option<nat>, c: Rune): Option<nat> {
    if !IsBlank(c) then None else if ws == None then Some(|t|) else ws
  }

  function Assign(out: map<Text, Text>, k: Text, v: Text): map<Text, Text> {
    if IsName(k) then out[k := v] else out
  }

  /** One assignment taken: the last one wins, and a key that is no name is dropped. */
  function Push(m: Machine): Machine {
    var k := Cut(m.key, m.keyWs);
    if HasStray(k) || HasStray(m.val) then m.(refused := true) else m.(out := Assign(m.out, k, m.val))
  }

  function PushCut(m: Machine): Machine {
    Push(m.(val := Cut(m.val, m.valWs)))
  }

  function Step(m: Machine, c: Rune): Machine {
    match m.st
    case PreKey =>
      if IsComment(c) then m.(st := InComment)
      else if IsBlank(c) || IsNewline(c) then m
      else m.(st := Key, key := [c], keyWs := None)
    case Key =>
      if IsNewline(c) then m.(st := PreKey, key := [])
      else if c == EQUALS then m.(st := PreValue, val := [], valWs := None)
      else m.(key := m.key + [c], keyWs := Mark(m.key, m.keyWs, c))
    case PreValue =>
      if IsNewline(c) then Push(m).(st := PreKey, key := [], val := [])
      else if c == APOSTROPHE then m.(st := SingleQuoted)
      else if c == QUOTE then m.(st := DoubleQuoted)
      else if c == BACKSLASH then m.(st := ValueEscape, valWs := None)
      else if IsBlank(c) then m
      else m.(st := Value, valWs := None, val := m.val + [c])
    case Value =>
      if IsNewline(c) then PushCut(m).(st := PreKey, key := [], val := [])
      else if c == BACKSLASH then m.(st := ValueEscape, valWs := None)
      else m.(val := m.val + [c], valWs := Mark(m.val, m.valWs, c))
    case ValueEscape =>
      if IsNewline(c) then m.(st := Value) else m.(st := Value, val := m.val + [c])
    case SingleQuoted =>
      if c == APOSTROPHE then m.(st := PreValue) else m.(val := m.val + [c])
    case DoubleQuoted =>
      if c == QUOTE then m.(st := PreValue)
      else if c == BACKSLASH then m.(st := DoubleQuotedEscape)
      else m.(val := m.val + [c])
    case DoubleQuotedEscape =>
      if IsEscapable(c) then m.(st := DoubleQuoted, val := m.val + [c])
      else if c == LF then m.(st := DoubleQuoted)
      else m.(st := DoubleQuoted, val := m.val + [BACKSLASH, c])
    case InComment =>
      if IsNewline(c) then m.(st := PreKey) else m
  }

  /** Once refused, a machine stays where it is: the exception ends the parse. */
  function Run(m: Machine, text: Text): Machine
    decreases |text|
  {
    if text == [] || m.refused then m else Run(Step(m, text[0]), text[1..])
  }

  predicate InQuotes(st: State) {
    st == SingleQuoted || st == DoubleQuoted || st == DoubleQuotedEscape
  }

  /** End of file: an assignment under way is taken as it stands. */
  function Flush(m: Machine): Machine {
    if m.st == Value then PushCut(m)
    else if m.st == PreValue || m.st == ValueEscape || InQuotes(m.st) then Push(m)
    else m
  }

  function Finish(m: Machine): Parsed {
    if m.refused || Flush(m).refused then Refused else Parsed(Flush(m).out, InQuotes(m.st))
  }

  function Parse(text: Text): Parsed {
    if 0 in text then Refused else Finish(Run(START, text))
  }

  lemma {:induction false} RunAppend(m: Machine, a: Text, b: Text)
    ensures Run(m, a + b) == Run(Run(m, a), b)
    decreases |a|
  {
    if a == [] {
      assert a + b == b;
    } else if !m.refused {
      assert (a + b)[0] == a[0] && (a + b)[1..] == a[1..] + b;
      RunAppend(Step(m, a[0]), a[1..], b);
    } else {
      assert Run(m, a + b) == m && Run(m, a) == m;
    }
  }

  lemma RunOne(m: Machine, c: Rune)
    ensures Run(m, [c]) == if m.refused then m else Step(m, c)
  {
    assert [c][1..] == [];
    assert Run(Step(m, c), []) == Step(m, c);
  }

  lemma RunSnoc(m: Machine, a: Text, c: Rune)
    ensures Run(m, a + [c]) == if Run(m, a).refused then Run(m, a) else Step(Run(m, a), c)
  {
    RunAppend(m, a, [c]);
    RunOne(Run(m, a), c);
  }

  lemma {:induction false} RefusedStays(m: Machine, a: Text)
    requires m.refused
    ensures Run(m, a) == m
  {
  }

  /** A newline takes what the end of the file would, except inside an escape or quotes. */
  lemma NewlineFlushes(m: Machine, c: Rune)
    requires IsNewline(c) && m.st != ValueEscape && !InQuotes(m.st)
    ensures Step(m, c).st == PreKey
    ensures Step(m, c).refused == Flush(m).refused && Step(m, c).out == Flush(m).out
  {
  }

  /** The parser, character by character, with the source's own variables. */
  method ParseEnvFile(text: Text) returns (r: Parsed)
    ensures r == Parse(text)
  {
    if 0 in text {
      return Refused;
    }
    var st, key, val, keyWs, valWs, out := PreKey, [], [], None, None, map[];
    for i := 0 to |text|
      invariant Run(START, text[..i]) == Machine(st, key, val, keyWs, valWs, out, false)
    {
      var c := text[i];
      RunSnoc(START, text[..i], c);
      assert text[..i] + [c] == text[..i + 1];
      var push := false;
      match st {
        case PreKey =>
          if IsComment(c) {
            st := InComment;
          } else if !IsBlank(c) && !IsNewline(c) {
            st, key, keyWs := Key, [c], None;
          }
        case Key =>
          if IsNewline(c) {
            st, key := PreKey, [];
          } else if c == EQUALS {
            st, val, valWs := PreValue, [], None;
          } else {
            keyWs := Mark(key, keyWs, c);
            key := key + [c];
          }
        case PreValue =>
          if IsNewline(c) {
            push := true;
          } else if c == APOSTROPHE {
            st := SingleQuoted;
          } else if c == QUOTE {
            st := DoubleQuoted;
          } else if c == BACKSLASH {
            st, valWs := ValueEscape, None;
          } else if !IsBlank(c) {
            st, valWs, val := Value, None, val + [c];
          }
        case Value =>
          if IsNewline(c) {
            val := Cut(val, valWs);
            push := true;
          } else if c == BACKSLASH {
            st, valWs := ValueEscape, None;
          } else {
            valWs := Mark(val, valWs, c);
            val := val + [c];
          }
        case ValueEscape =>
          st := Value;
          if !IsNewline(c) {
            val := val + [c];
          }
        case SingleQuoted =>
          if c == APOSTROPHE {
            st := PreValue;
          } else {
            val := val + [c];
          }
        case DoubleQuoted =>
          if c == QUOTE {
            st := PreValue;
          } else if c == BACKSLASH {
            st := DoubleQuotedEscape;
          } else {
            val := val + [c];
          }
        case DoubleQuotedEscape =>
          st := DoubleQuoted;
          if IsEscapable(c) {
            val := val + [c];
          } else if c != LF {
            val := val + [BACKSLASH, c];
          }
        case InComment =>
          if IsNewline(c) {
            st := PreKey;
          }
      }
      if push {
        var k := Cut(key, keyWs);
        if HasStray(k) || HasStray(val) {
          assert Run(START, text[..i + 1]).refused;
          RunAppend(START, text[..i + 1], text[i + 1..]);
          RefusedStays(Run(START, text[..i + 1]), text[i + 1..]);
          assert text[..i + 1] + text[i + 1..] == text;
          return Refused;
        }
        st, key, val, out := PreKey, [], [], Assign(out, k, val);
      }
    }
    assert text[..|text|] == text;
    if st == PreValue || st == Value || st == ValueEscape || InQuotes(st) {
      if st == Value {
        val := Cut(val, valWs);
      }
      var k := Cut(key, keyWs);
      if HasStray(k) || HasStray(val) {
        return Refused;
      }
      out := Assign(out, k, val);
    }
    return Parsed(out, InQuotes(st));
  }
}
