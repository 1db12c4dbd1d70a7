/** The file as a reader of its grammar takes it, entry by entry and value part by value part, with no machine; the
    character machine reads every text so. */
module EnvGrammar {
  import opened Options
  import opened EnvFile
  import opened EnvNaive

  // ---- what the parts of a value mean

  /** Between double quotes: a backslash before one of " \ ` $ stands for that character, with a line feed it vanishes,
      and before anything else it stays.  One at the very end of the file vanishes too. */
  function InDouble(t: Text): Text
    decreases |t|
  {
    if t == [] then []
    else if t[0] != BACKSLASH then [t[0]] + InDouble(t[1..])
    else if |t| == 1 then []
    else AfterBackslash(t[1]) + InDouble(t[2..])
  }

  function AfterBackslash(c: Rune): Text {
    if c == '"' as int || c == '\\' as int || c == '`' as int || c == '$' as int then [c]
    else if c == '\n' as int then []
    else ['\\' as int, c]
  }

  /** Outside quotes: a backslash makes any character stand for itself and takes a newline with it, quotes are themselves,
      and once only blanks are left they are no part of the value. */
  function Bare(t: Text): Text
    decreases |t|
  {
    if AllBlank(t) then []
    else if t[0] != BACKSLASH then [t[0]] + Bare(t[1..])
    else if |t| == 1 then []
    else EscapedBare(t[1]) + Bare(t[2..])
  }

  function EscapedBare(c: Rune): Text {
    if c == '\n' as int || c == '\r' as int then [] else [c]
  }

  /** Where the double quote ends that is open before `t`, or the length of `t`. */
  function DoubleEnd(t: Text): (k: nat)
    ensures k <= |t|
    ensures k < |t| ==> t[k] == QUOTE
    decreases |t|
  {
    if t == [] || t[0] == QUOTE then 0
    else if t[0] == BACKSLASH && |t| > 1 then 2 + DoubleEnd(t[2..])
    else 1 + DoubleEnd(t[1..])
  }

  function SingleEnd(t: Text): (k: nat)
    ensures k <= |t|
    ensures k < |t| ==> t[k] == APOSTROPHE
    decreases |t|
  {
    if t == [] || t[0] == APOSTROPHE then 0 else 1 + SingleEnd(t[1..])
  }

  /** Where unquoted text ends: at the first newline that is not escaped. */
  function BareEnd(t: Text): (k: nat)
    ensures k <= |t|
    ensures k < |t| ==> IsNewline(t[k])
    decreases |t|
  {
    if t == [] || IsNewline(t[0]) then 0
    else if t[0] == BACKSLASH && |t| > 1 then 2 + BareEnd(t[2..])
    else 1 + BareEnd(t[1..])
  }

  // ---- values and entries

  /** A value, how much of the text it takes, and whether a quote is still open at the end. */
  datatype Found = Found(text: Text, length: nat, open: bool)

  /** Quoted parts, one after another with blanks between them, and then unquoted text to the end of the line. */
  function ReadValue(t: Text): (v: Found)
    ensures v.length <= |t| && (v.length < |t| ==> IsNewline(t[v.length]) && !v.open)
    decreases |t|, 1
  {
    if t == [] || IsNewline(t[0]) then Found([], 0, false)
    else if IsBlank(t[0]) then After([], 1, ReadValue(t[1..]))
    else if t[0] == QUOTE then ReadDouble(t)
    else if t[0] == APOSTROPHE then ReadSingle(t)
    else Found(Bare(t[..BareEnd(t)]), BareEnd(t), false)
  }

  /** A part of some length, and the value after it. */
  function After(part: Text, length: nat, rest: Found): Found {
    Found(part + rest.text, length + rest.length, rest.open)
  }

  function ReadDouble(t: Text): (v: Found)
    requires t != []
    ensures v.length <= |t| && (v.length < |t| ==> IsNewline(t[v.length]) && !v.open)
    decreases |t|, 0
  {
    var k := 1 + DoubleEnd(t[1..]);
    if k == |t| then Found(InDouble(t[1..]), k, true) else After(InDouble(t[1..k]), k + 1, ReadValue(t[k + 1..]))
  }

  function ReadSingle(t: Text): (v: Found)
    requires t != []
    ensures v.length <= |t| && (v.length < |t| ==> IsNewline(t[v.length]) && !v.open)
    decreases |t|, 0
  {
    var k := 1 + SingleEnd(t[1..]);
    if k == |t| then Found(t[1..], k, true) else After(t[1..k], k + 1, ReadValue(t[k + 1..]))
  }

  /** Where a key ends: at the first '=' or newline after its first character. */
  function KeyEnd(t: Text): (k: nat)
    requires t != []
    ensures 1 <= k <= |t|
    ensures k < |t| ==> t[k] == EQUALS || IsNewline(t[k])
    ensures forall i :: 1 <= i < k ==> t[i] != EQUALS && !IsNewline(t[i])
    decreases |t|
  {
    if |t| == 1 || t[1] == EQUALS || IsNewline(t[1]) then 1 else 1 + KeyEnd(t[1..])
  }

  /** Entry after entry: blank lines, comments, keys without a value, and assignments, of which the last of a name wins. */
  function ReadEntries(out: map<Text, Text>, t: Text): Parsed
    decreases |t|, 1
  {
    if t == [] then Parsed(out, false)
    else if IsBlank(t[0]) || IsNewline(t[0]) then ReadEntries(out, t[1..])
    else if IsComment(t[0]) then ReadEntries(out, t[1 + LineEnd(t[1..])..])
    else if KeyEnd(t) == |t| || t[KeyEnd(t)] != EQUALS then ReadEntries(out, t[KeyEnd(t)..])
    else ReadAssignment(out, TrimRight(t[..KeyEnd(t)]), t[KeyEnd(t) + 1..])
  }

  /** An assignment after its '=', and the entries after it. */
  function ReadAssignment(out: map<Text, Text>, key: Text, t: Text): Parsed
    decreases |t|, 2
  {
    var v := ReadValue(t);
    if HasStray(key) || HasStray(v.text) then Refused
    else if v.open then Parsed(Assign(out, key, v.text), true)
    else ReadEntries(Assign(out, key, v.text), t[v.length..])
  }

  /** The file: with a NUL anywhere it is refused. */
  function ReadFile(t: Text): Parsed {
    if 0 in t then Refused else ReadEntries(map[], t)
  }

  // ---- the machine in quotes

  /** Whether a text inside double quotes ends in a backslash that escapes what comes next. */
  predicate Dangling(t: Text)
    decreases |t|
  {
    t != [] && if t[0] == BACKSLASH then |t| == 1 || Dangling(t[2..]) else Dangling(t[1..])
  }

  lemma Assoc(a: Text, b: Text, c: Text)
    ensures a + b + c == a + (b + c)
  {
  }

  lemma TwoSteps(m: Machine, t: Text, next: Machine)
    requires |t| > 1 && !m.refused && !Step(m, t[0]).refused && next == Step(Step(m, t[0]), t[1])
    ensures Run(m, t) == Run(next, t[2..])
  {
    assert t[1..][1..] == t[2..] && t[1..][0] == t[1];
  }

  lemma DoublePair(m: Machine, t: Text)
    requires m.st == DoubleQuoted && !m.refused && |t| > 1 && t[0] == BACKSLASH
    ensures Run(m, t) == Run(m.(val := m.val + AfterBackslash(t[1])), t[2..])
  {
    var next := m.(val := m.val + AfterBackslash(t[1]));
    assert m.val + [] == m.val;
    TwoSteps(m, t, next);
  }

  lemma BarePair(m: Machine, t: Text)
    requires m.st == Value && !m.refused && |t| > 1 && t[0] == BACKSLASH
    ensures Run(m, t) == Run(m.(val := m.val + EscapedBare(t[1]), valWs := None), t[2..])
  {
    var next := m.(val := m.val + EscapedBare(t[1]), valWs := None);
    assert m.val + [] == m.val;
    TwoSteps(m, t, next);
  }

  lemma {:induction false} DoubleIsRead(m: Machine, t: Text)
    requires m.st == DoubleQuoted && !m.refused && DoubleEnd(t) == |t|
    ensures Run(m, t) == m.(st := if Dangling(t) then DoubleQuotedEscape else DoubleQuoted, val := m.val + InDouble(t))
    decreases |t|
  {
    if t == [] {
      assert m.val + [] == m.val;
    } else if t[0] == BACKSLASH && |t| > 1 {
      DoublePair(m, t);
      var next := m.(val := m.val + AfterBackslash(t[1]));
      DoubleIsRead(next, t[2..]);
      Assoc(m.val, AfterBackslash(t[1]), InDouble(t[2..]));
    } else if t[0] == BACKSLASH {
      assert t == [BACKSLASH];
      RunOne(m, BACKSLASH);
      assert m.val + [] == m.val;
    } else {
      DoubleIsRead(Step(m, t[0]), t[1..]);
      Assoc(m.val, [t[0]], InDouble(t[1..]));
    }
  }

  /** A closing quote is not escaped. */
  lemma {:induction false} DoublePrefix(t: Text)
    ensures DoubleEnd(t[..DoubleEnd(t)]) == DoubleEnd(t)
    ensures DoubleEnd(t) < |t| ==> !Dangling(t[..DoubleEnd(t)])
    decreases |t|
  {
    var k := DoubleEnd(t);
    if t == [] || t[0] == QUOTE {
      assert t[..0] == [];
    } else if t[0] == BACKSLASH && |t| > 1 {
      DoublePrefix(t[2..]);
      assert t[..k][2..] == t[2..][..k - 2];
    } else {
      DoublePrefix(t[1..]);
      assert t[..k][1..] == t[1..][..k - 1];
    }
  }

  lemma {:induction false} SingleIsRead(m: Machine, t: Text)
    requires m.st == SingleQuoted && !m.refused && SingleEnd(t) == |t|
    ensures Run(m, t) == m.(val := m.val + t)
    decreases |t|
  {
    if t == [] {
      assert m.val + [] == m.val;
    } else {
      SingleIsRead(Step(m, t[0]), t[1..]);
      Assoc(m.val, [t[0]], t[1..]);
    }
  }

  lemma {:induction false} SinglePrefix(t: Text)
    ensures SingleEnd(t[..SingleEnd(t)]) == SingleEnd(t)
    decreases |t|
  {
    if t != [] && t[0] != APOSTROPHE {
      SinglePrefix(t[1..]);
      assert t[..SingleEnd(t)][1..] == t[1..][..SingleEnd(t) - 1];
    }
  }

  // ---- the machine outside quotes

  /** What a machine would take for the value if its line ended here. */
  function Taken(m: Machine): Text {
    if m.st == Value then Cut(m.val, m.valWs) else m.val
  }

  predicate InValue(m: Machine) {
    m.st == Value && !m.refused && (m.valWs.Some? ==> m.valWs.value <= |m.val|)
  }

  /** The same assignment under way, as far as its value is concerned. */
  predicate SameEntry(m: Machine, n: Machine) {
    m.key == n.key && m.keyWs == n.keyWs && m.out == n.out && m.refused == n.refused
  }

  lemma {:induction false} BareIsRead(m: Machine, t: Text)
    requires InValue(m) && BareEnd(t) == |t|
    ensures var n := Run(m, t);
            && SameEntry(m, n) && (n.st == Value || n.st == ValueEscape)
            && (n.st == ValueEscape ==> Dangling(t))
            && Taken(n) == if AllBlank(t) then Cut(m.val, m.valWs) else m.val + Bare(t)
    decreases |t|, 1
  {
    if t == [] {
    } else if t[0] == BACKSLASH && |t| > 1 {
      BarePair(m, t);
      var next := m.(val := m.val + EscapedBare(t[1]), valWs := None);
      BareIsRead(next, t[2..]);
      assert !AllBlank(t);
      assert AllBlank(t[2..]) ==> next.val + Bare(t[2..]) == next.val;
      Assoc(m.val, EscapedBare(t[1]), Bare(t[2..]));
    } else if t[0] == BACKSLASH {
      assert t == [BACKSLASH];
      RunOne(m, BACKSLASH);
      assert m.val + [] == m.val;
    } else {
      BareStep(m, t);
    }
  }

  lemma {:induction false} BareStep(m: Machine, t: Text)
    requires InValue(m) && BareEnd(t) == |t| && t != [] && t[0] != BACKSLASH
    ensures var n := Run(m, t);
            && SameEntry(m, n) && (n.st == Value || n.st == ValueEscape)
            && (n.st == ValueEscape ==> Dangling(t))
            && Taken(n) == if AllBlank(t) then Cut(m.val, m.valWs) else m.val + Bare(t)
    decreases |t|, 0
  {
    var next := Step(m, t[0]);
    assert t[1..] == t[1..];
    BareIsRead(next, t[1..]);
    assert t == [t[0]] + t[1..];
    assert AllBlank(t) <==> IsBlank(t[0]) && AllBlank(t[1..]);
    if AllBlank(t) {
      assert Cut(next.val, next.valWs) == Cut(m.val, m.valWs);
    } else {
      if AllBlank(t[1..]) {
        assert Bare(t[1..]) == [] && Cut(next.val, next.valWs) == next.val;
      }
      Assoc(m.val, [t[0]], Bare(t[1..]));
    }
  }

  lemma {:induction false} BarePrefix(t: Text)
    ensures BareEnd(t[..BareEnd(t)]) == BareEnd(t)
    ensures BareEnd(t) < |t| ==> !Dangling(t[..BareEnd(t)])
    decreases |t|
  {
    var k := BareEnd(t);
    if t == [] || IsNewline(t[0]) {
      assert t[..0] == [];
    } else if t[0] == BACKSLASH && |t| > 1 {
      BarePrefix(t[2..]);
      assert t[..k][2..] == t[2..][..k - 2];
    } else {
      BarePrefix(t[1..]);
      assert t[..k][1..] == t[1..][..k - 1];
    }
  }

  // ---- values

  /** The machine `m`, a value on, with `v` read of it. */
  predicate HasRead(m: Machine, n: Machine, v: Found, ended: bool) {
    && SameEntry(m, n) && Taken(n) == m.val + v.text && InQuotes(n.st) == v.open
    && (n.st == PreValue || n.st == Value || n.st == ValueEscape || InQuotes(n.st))
    && (ended ==> n.st == PreValue || n.st == Value)
  }

  /** A part, and what is read after it. */
  lemma PartThenRest(m: Machine, next: Machine, n: Machine, part: Text, rest: Found, v: Found, ended: bool)
    requires next == m.(val := m.val + part) && HasRead(next, n, rest, ended)
    requires v.text == part + rest.text && v.open == rest.open
    ensures HasRead(m, n, v, ended)
  {
    Assoc(m.val, part, rest.text);
  }

  ghost predicate ReadsValue(m: Machine, t: Text) {
    HasRead(m, Run(m, t[..ReadValue(t).length]), ReadValue(t), ReadValue(t).length < |t|)
  }

  lemma {:induction false} ValueIsRead(m: Machine, t: Text)
    requires m.st == PreValue && !m.refused
    ensures ReadsValue(m, t)
    decreases |t|
  {
    if t == [] || IsNewline(t[0]) {
      assert t[..0] == [] && m.val + [] == m.val;
    } else if IsBlank(t[0]) {
      BlankThenRest(m, t);
    } else if t[0] == QUOTE {
      DoubleThenRest(m, t);
    } else if t[0] == APOSTROPHE {
      SingleThenRest(m, t);
    } else {
      BarePart(m, t);
    }
  }

  lemma {:induction false} DoubleThenRest(m: Machine, t: Text)
    requires m.st == PreValue && !m.refused && t != [] && t[0] == QUOTE
    ensures ReadsValue(m, t)
    decreases |t|, 0
  {
    var k := 1 + DoubleEnd(t[1..]);
    if k == |t| {
      DoubleStaysOpen(m, t);
    } else {
      var tail, part := t[k + 1..], InDouble(t[1..k]);
      var next := m.(val := m.val + part);
      ValueIsRead(next, tail);
      var rest := ReadValue(tail);
      var v := After(part, k + 1, rest);
      assert ReadDouble(t) == v;
      DoubleCloses(m, t, v.length);
      var n := Run(m, t[..v.length]);
      assert HasRead(next, n, rest, rest.length < |tail|);
      PartThenRest(m, next, n, part, rest, v, v.length < |t|);
    }
  }

  lemma {:induction false} SingleThenRest(m: Machine, t: Text)
    requires m.st == PreValue && !m.refused && t != [] && t[0] == APOSTROPHE
    ensures ReadsValue(m, t)
    decreases |t|, 0
  {
    var k := 1 + SingleEnd(t[1..]);
    if k == |t| {
      SingleStaysOpen(m, t);
    } else {
      var tail, part := t[k + 1..], t[1..k];
      var next := m.(val := m.val + part);
      ValueIsRead(next, tail);
      var rest := ReadValue(tail);
      var v := After(part, k + 1, rest);
      assert ReadSingle(t) == v;
      SingleCloses(m, t, v.length);
      var n := Run(m, t[..v.length]);
      assert HasRead(next, n, rest, rest.length < |tail|);
      PartThenRest(m, next, n, part, rest, v, v.length < |t|);
    }
  }

  lemma {:induction false} BlankThenRest(m: Machine, t: Text)
    requires m.st == PreValue && !m.refused && t != [] && IsBlank(t[0])
    ensures ReadsValue(m, t)
    decreases |t|, 0
  {
    ValueIsRead(m, t[1..]);
    var k := ReadValue(t[1..]).length;
    assert t[..k + 1] == [t[0]] + t[1..][..k];
    RunAppend(m, [t[0]], t[1..][..k]);
    RunOne(m, t[0]);
  }

  lemma BarePart(m: Machine, t: Text)
    requires m.st == PreValue && !m.refused
    requires t != [] && !IsNewline(t[0]) && !IsBlank(t[0]) && t[0] != QUOTE && t[0] != APOSTROPHE
    ensures HasRead(m, Run(m, t[..BareEnd(t)]), Found(Bare(t[..BareEnd(t)]), BareEnd(t), false), BareEnd(t) < |t|)
  {
    var p := t[..BareEnd(t)];
    BarePrefix(t);
    var begun := m.(st := Value, valWs := None);
    SameFirstStep(m, begun, p);
    BareIsRead(begun, p);
  }

  lemma SameFirstStep(m: Machine, n: Machine, p: Text)
    requires p != [] && !m.refused && m.st == PreValue && n == m.(st := Value, valWs := None)
    requires !IsNewline(p[0]) && !IsBlank(p[0]) && p[0] != QUOTE && p[0] != APOSTROPHE
    ensures Run(m, p) == Run(n, p) && !AllBlank(p)
  {
    assert Step(m, p[0]) == Step(n, p[0]);
  }

  lemma DoubleStaysOpen(m: Machine, t: Text)
    requires m.st == PreValue && !m.refused && t != [] && t[0] == QUOTE && 1 + DoubleEnd(t[1..]) == |t|
    ensures HasRead(m, Run(m, t[..|t|]), Found(InDouble(t[1..]), |t|, true), false)
  {
    assert t[..|t|] == t && Run(m, t) == Run(Step(m, QUOTE), t[1..]);
    DoubleIsRead(Step(m, QUOTE), t[1..]);
  }

  lemma SingleStaysOpen(m: Machine, t: Text)
    requires m.st == PreValue && !m.refused && t != [] && t[0] == APOSTROPHE && 1 + SingleEnd(t[1..]) == |t|
    ensures HasRead(m, Run(m, t[..|t|]), Found(t[1..], |t|, true), false)
  {
    assert t[..|t|] == t && Run(m, t) == Run(Step(m, APOSTROPHE), t[1..]);
    SingleIsRead(Step(m, APOSTROPHE), t[1..]);
  }

  lemma DoubleCloses(m: Machine, t: Text, upto: nat)
    requires m.st == PreValue && !m.refused && t != [] && t[0] == QUOTE && 1 + DoubleEnd(t[1..]) < upto <= |t|
    ensures var k := 1 + DoubleEnd(t[1..]);
            Run(m, t[..upto]) == Run(m.(val := m.val + InDouble(t[1..k])), t[k + 1..][..upto - k - 1])
  {
    var k := 1 + DoubleEnd(t[1..]);
    DoublePrefix(t[1..]);
    assert t[1..][..k - 1] == t[1..k];
    DoubleIsRead(Step(m, QUOTE), t[1..k]);
    QuoteCloses(m, Step(m, QUOTE), m.(val := m.val + InDouble(t[1..k])), t, k, upto);
  }

  lemma SingleCloses(m: Machine, t: Text, upto: nat)
    requires m.st == PreValue && !m.refused && t != [] && t[0] == APOSTROPHE && 1 + SingleEnd(t[1..]) < upto <= |t|
    ensures var k := 1 + SingleEnd(t[1..]);
            Run(m, t[..upto]) == Run(m.(val := m.val + t[1..k]), t[k + 1..][..upto - k - 1])
  {
    var k := 1 + SingleEnd(t[1..]);
    SinglePrefix(t[1..]);
    assert t[1..][..k - 1] == t[1..k];
    SingleIsRead(Step(m, APOSTROPHE), t[1..k]);
    QuoteCloses(m, Step(m, APOSTROPHE), m.(val := m.val + t[1..k]), t, k, upto);
  }

  /** From the opening quote over the closing one at `k`, and on. */
  lemma QuoteCloses(m: Machine, inside: Machine, next: Machine, t: Text, k: nat, upto: nat)
    requires !m.refused && 1 <= k < upto <= |t| && inside == Step(m, t[0])
    requires !Run(inside, t[1..k]).refused && next == Step(Run(inside, t[1..k]), t[k])
    ensures Run(m, t[..upto]) == Run(next, t[k + 1..][..upto - k - 1])
  {
    var body, rest := t[1..k], t[k + 1..][..upto - k - 1];
    assert t[..upto] == [t[0]] + body + [t[k]] + rest;
    RunAppend(m, [t[0]] + body + [t[k]], rest);
    RunSnoc(m, [t[0]] + body, t[k]);
    RunAppend(m, [t[0]], body);
    RunOne(m, t[0]);
  }

  // ---- entries

  lemma {:induction false} KeyIsRead(m: Machine, t: Text, k: nat)
    requires m.st == PreKey && !m.refused && 1 <= k <= |t| && !IsBlank(t[0]) && !IsNewline(t[0]) && !IsComment(t[0])
    requires forall i :: 1 <= i < k ==> t[i] != EQUALS && !IsNewline(t[i])
    ensures var n := Run(m, t[..k]);
            n.st == Key && n.key == t[..k] && Marked(n.key, n.keyWs) && n.out == m.out && !n.refused
    decreases k
  {
    if k == 1 {
      assert t[..1] == [t[0]];
      RunOne(m, t[0]);
      MarkedOne(t[0]);
    } else {
      KeyIsRead(m, t, k - 1);
      assert t[..k - 1] + [t[k - 1]] == t[..k];
      RunSnoc(m, t[..k - 1], t[k - 1]);
      var n := Run(m, t[..k - 1]);
      MarkedSnoc(n.key, n.keyWs, t[k - 1]);
    }
  }

  lemma {:induction false} CommentIsRead(m: Machine, t: Text)
    requires m.st == InComment && !m.refused
    ensures Run(m, t[..LineEnd(t)]) == m
    decreases |t|
  {
    if t != [] && !IsNewline(t[0]) {
      CommentIsRead(m, t[1..]);
      assert t[..LineEnd(t)][1..] == t[1..][..LineEnd(t[1..])];
    }
  }

  /** A machine at the end of a line is as good as one before the next. */
  lemma {:induction false} OverTheNewline(m: Machine, t: Text)
    requires (m.st == Key || m.st == InComment) && !m.refused && (t != [] ==> IsNewline(t[0]))
    ensures Finish(Run(m, t)) == Finish(Run(m.(st := PreKey, key := if m.st == Key then [] else m.key), t))
  {
  }

  ghost predicate ReadsEntries(m: Machine, t: Text) {
    Finish(Run(m, t)) == ReadEntries(m.out, t)
  }

  lemma {:induction false} EntriesAreRead(m: Machine, t: Text)
    requires m.st == PreKey && !m.refused
    ensures ReadsEntries(m, t)
    decreases |t|, 1
  {
    if t == [] {
    } else if IsBlank(t[0]) || IsNewline(t[0]) {
      assert Step(m, t[0]) == m && Run(m, t) == Run(m, t[1..]);
      EntriesAreRead(m, t[1..]);
    } else if IsComment(t[0]) {
      CommentThenRest(m, t);
    } else {
      KeyThenRest(m, t);
    }
  }

  lemma {:induction false} CommentThenRest(m: Machine, t: Text)
    requires m.st == PreKey && !m.refused && t != [] && IsComment(t[0])
    ensures ReadsEntries(m, t)
    decreases |t|, 0
  {
    var begun, rest := Step(m, t[0]), t[1 + LineEnd(t[1..])..];
    CommentIsRead(begun, t[1..]);
    RunAppend(begun, t[1..][..LineEnd(t[1..])], rest);
    assert t[1..][..LineEnd(t[1..])] + rest == t[1..];
    OverTheNewline(begun, rest);
    EntriesAreRead(begun.(st := PreKey), rest);
  }

  lemma {:induction false} KeyThenRest(m: Machine, t: Text)
    requires m.st == PreKey && !m.refused && t != [] && !IsBlank(t[0]) && !IsNewline(t[0]) && !IsComment(t[0])
    ensures ReadsEntries(m, t)
    decreases |t|, 0
  {
    var k := KeyEnd(t);
    KeyIsRead(m, t, k);
    var n := Run(m, t[..k]);
    RunAppend(m, t[..k], t[k..]);
    assert t[..k] + t[k..] == t;
    if k == |t| || t[k] != EQUALS {
      OverTheNewline(n, t[k..]);
      EntriesAreRead(n.(st := PreKey, key := []), t[k..]);
    } else {
      assert t[k..][1..] == t[k + 1..] && Run(n, t[k..]) == Run(Step(n, EQUALS), t[k + 1..]);
      AssignmentIsRead(Step(n, EQUALS), t[..k], t[k + 1..]);
    }
  }

  /** An assignment from its '=' on, and what follows it. */
  lemma {:induction false} AssignmentIsRead(m: Machine, key: Text, t: Text)
    requires m.st == PreValue && !m.refused && m.val == [] && m.key == key && Marked(key, m.keyWs)
    ensures Finish(Run(m, t)) == ReadAssignment(m.out, TrimRight(key), t)
    decreases |t|, 1
  {
    var v := ReadValue(t);
    ValueIsRead(m, t);
    var n := Run(m, t[..v.length]);
    RunAppend(m, t[..v.length], t[v.length..]);
    assert t[..v.length] + t[v.length..] == t;
    assert m.val + v.text == v.text;
    if v.length < |t| {
      var rest := t[v.length..];
      NewlineFlushes(n, rest[0]);
      var next := Step(n, rest[0]);
      if next.refused {
        RefusedStays(next, rest[1..]);
      } else {
        EntriesAreRead(next, rest[1..]);
      }
    }
  }

  /** On every text, quotes, escapes, NUL and strays included, the parser takes the file as its grammar reads. */
  lemma ParserReadsTheGrammar(text: Text)
    ensures Parse(text) == ReadFile(text)
  {
    EntriesAreRead(START, text);
  }

  // ---- what that says of one assignment

  lemma {:induction false} NameEnds(k: Text, rest: Text)
    requires IsName(k) && rest != [] && rest[0] == EQUALS
    ensures KeyEnd(k + rest) == |k| && TrimRight(k) == k
    ensures !IsBlank(k[0]) && !IsNewline(k[0]) && !IsComment(k[0])
    decreases |k|
  {
    assert IsNameRune(k[|k| - 1]);
    var t := k + rest;
    forall i | 1 <= i < |k|
      ensures t[i] != EQUALS && !IsNewline(t[i])
    {
      assert t[i] == k[i] && IsNameRune(k[i]);
    }
    assert t[|k|] == EQUALS;
  }

  /** A name, '=', a value as the grammar reads it and a newline: that one assignment; refused with a NUL or a stray. */
  lemma OneAssignment(k: Text, raw: Text)
    requires IsName(k) && ReadValue(raw + [LF]).length == |raw|
    ensures Parse(k + ([EQUALS] + (raw + [LF])))
            == if 0 in raw || HasStray(ReadValue(raw + [LF]).text) then Refused
               else Parsed(map[k := ReadValue(raw + [LF]).text], false)
  {
    ParserReadsTheGrammar(k + ([EQUALS] + (raw + [LF])));
    OneLineFile(k, raw);
  }

  lemma OneLineFile(k: Text, raw: Text)
    requires IsName(k) && ReadValue(raw + [LF]).length == |raw|
    ensures ReadFile(k + ([EQUALS] + (raw + [LF])))
            == if 0 in raw || HasStray(ReadValue(raw + [LF]).text) then Refused
               else Parsed(map[k := ReadValue(raw + [LF]).text], false)
  {
    NulInLine(k, raw);
    if 0 !in raw {
      Pieces(raw, [LF]);
      OneEntryRead(k, raw + [LF], ReadValue(raw + [LF]));
    }
  }

  lemma NulInLine(k: Text, raw: Text)
    requires IsName(k)
    ensures 0 in k + ([EQUALS] + (raw + [LF])) <==> 0 in raw
  {
    NameIsClean(k);
    Pieces(k, [EQUALS] + (raw + [LF]));
    Pieces([EQUALS], raw + [LF]);
    Pieces(raw, [LF]);
  }

  lemma Pieces(a: Text, b: Text)
    ensures (a + b)[..|a|] == a && (a + b)[|a|..] == b && (0 in a + b <==> 0 in a || 0 in b)
  {
  }

  lemma OneEntryRead(k: Text, line: Text, v: Found)
    requires IsName(k) && v == ReadValue(line) && !v.open && line[v.length..] == [LF]
    ensures ReadEntries(map[], k + ([EQUALS] + line)) == if HasStray(v.text) then Refused else Parsed(map[k := v.text], false)
  {
    NameEnds(k, [EQUALS] + line);
    Pieces(k, [EQUALS] + line);
    Pieces([EQUALS], line);
    var t := k + ([EQUALS] + line);
    assert t[0] == k[0] && t[|k|] == EQUALS && t[|k| + 1..] == t[|k|..][1..] == line;
    assert ReadEntries(map[], t) == ReadAssignment(map[], k, line);
    NameIsClean(k);
    LastNewline(Assign(map[], k, v.text));
  }

  lemma LastNewline(out: map<Text, Text>)
    ensures ReadEntries(out, [LF]) == Parsed(out, false)
  {
    assert [LF][1..] == [];
  }

  lemma NameIsClean(k: Text)
    requires IsName(k)
    ensures !HasStray(k) && 0 !in k
  {
    forall i | 0 <= i < |k|
      ensures !IsStray(k[i]) && k[i] != 0
    {
      assert IsNameRune(k[i]);
    }
  }

  /** A body with no unescaped quote in it ends at the quote after it. */
  lemma {:induction false} BodyEnds(body: Text, rest: Text)
    requires DoubleEnd(body) == |body| && !Dangling(body) && rest != [] && rest[0] == QUOTE
    ensures DoubleEnd(body + rest) == |body|
    decreases |body|
  {
    if body == [] {
      assert body + rest == rest;
    } else if body[0] == BACKSLASH {
      assert (body + rest)[2..] == body[2..] + rest;
      BodyEnds(body[2..], rest);
    } else {
      assert (body + rest)[1..] == body[1..] + rest;
      BodyEnds(body[1..], rest);
    }
  }

  /** A double-quoted part in front of anything: its meaning, and then the meaning of what follows. */
  lemma QuotedPart(body: Text, rest: Text)
    requires DoubleEnd(body) == |body| && !Dangling(body)
    ensures ReadValue([QUOTE] + (body + ([QUOTE] + rest))) == After(InDouble(body), |body| + 2, ReadValue(rest))
  {
    var t := [QUOTE] + (body + ([QUOTE] + rest));
    BodyEnds(body, [QUOTE] + rest);
    QuotedSlices(body, rest);
    assert ReadValue(t) == ReadDouble(t);
  }

  lemma QuotedSlices(body: Text, rest: Text)
    ensures var t := [QUOTE] + (body + ([QUOTE] + rest));
            t[1..] == body + ([QUOTE] + rest) && t[1..|body| + 1] == body && t[|body| + 2..] == rest
  {
  }

  function QuotedBody(body: Text): Text {
    [QUOTE] + body + [QUOTE]
  }

  /** Two quoted parts beside each other are one value. */
  lemma AdjacentParts(k: Text, a: Text, b: Text)
    requires IsName(k) && 0 !in a && 0 !in b && !HasStray(InDouble(a) + InDouble(b))
    requires DoubleEnd(a) == |a| && !Dangling(a) && DoubleEnd(b) == |b| && !Dangling(b)
    ensures Parse(k + ([EQUALS] + (QuotedBody(a) + ([SPACE] + QuotedBody(b)) + [LF])))
            == Parsed(map[k := InDouble(a) + InDouble(b)], false)
  {
    var raw := QuotedBody(a) + ([SPACE] + QuotedBody(b));
    AdjacentValue(a, b);
    NulInBody(a);
    NulInBody(b);
    Pieces(QuotedBody(a), [SPACE] + QuotedBody(b));
    Pieces([SPACE], QuotedBody(b));
    OneAssignment(k, raw);
  }

  lemma AdjacentValue(a: Text, b: Text)
    requires DoubleEnd(a) == |a| && !Dangling(a) && DoubleEnd(b) == |b| && !Dangling(b)
    ensures ReadValue(QuotedBody(a) + ([SPACE] + QuotedBody(b)) + [LF]) == Found(InDouble(a) + InDouble(b), |a| + |b| + 5, false)
  {
    QuotedPart(b, [LF]);
    BlankFirst(QuotedBody(b) + [LF]);
    QuotedPart(a, [SPACE] + (QuotedBody(b) + [LF]));
    Spaced(a, b);
    assert InDouble(b) + [] == InDouble(b);
  }

  lemma Spaced(a: Text, b: Text)
    ensures QuotedBody(b) + [LF] == [QUOTE] + (b + ([QUOTE] + [LF]))
    ensures QuotedBody(a) + ([SPACE] + QuotedBody(b)) + [LF] == [QUOTE] + (a + ([QUOTE] + ([SPACE] + (QuotedBody(b) + [LF]))))
  {
  }

  lemma NulInBody(body: Text)
    ensures 0 in QuotedBody(body) <==> 0 in body
  {
  }

  lemma BlankFirst(t: Text)
    ensures var v := ReadValue(t); ReadValue([SPACE] + t) == Found(v.text, 1 + v.length, v.open)
  {
    assert ([SPACE] + t)[1..] == t;
  }
}
