/** Printing assignments and parsing them back. */
module EnvPrint {
  import opened Options
  import opened EnvFile

  /** How a value is quoted. */
  datatype Style = Double | Single

  datatype Item = Item(name: Text, value: Text, style: Style)

  /** A name, and a value without NUL or strays; single quotes carry no apostrophe. */
  predicate Printable(item: Item) {
    && IsName(item.name)
    && !HasStray(item.value) && 0 !in item.value
    && (item.style == Single ==> APOSTROPHE !in item.value)
  }

  function Escape(v: Text): Text {
    if v == [] then [] else (if IsEscapable(v[0]) then [BACKSLASH, v[0]] else [v[0]]) + Escape(v[1..])
  }

  function Quoted(item: Item): Text {
    match item.style
    case Double => [QUOTE] + Escape(item.value) + [QUOTE]
    case Single => [APOSTROPHE] + item.value + [APOSTROPHE]
  }

  function PrintItem(item: Item): Text {
    item.name + [EQUALS] + Quoted(item) + [LF]
  }

  function Print(items: seq<Item>): Text {
    if items == [] then [] else PrintItem(items[0]) + Print(items[1..])
  }

  /** The last assignment of a name wins. */
  function Bindings(out: map<Text, Text>, items: seq<Item>): map<Text, Text>
    decreases |items|
  {
    if items == [] then out else Bindings(out[items[0].name := items[0].value], items[1..])
  }

  lemma {:induction false} KeyIsRead(m: Machine, k: Text)
    requires m.st == PreKey && !m.refused && IsName(k)
    ensures Run(m, k) == m.(st := Key, key := k, keyWs := None)
    decreases |k|
  {
    if |k| == 1 {
      assert k == [k[0]];
      RunOne(m, k[0]);
    } else {
      var n := |k| - 1;
      assert k[..n] + [k[n]] == k;
      KeyIsRead(m, k[..n]);
      RunSnoc(m, k[..n], k[n]);
      assert IsNameRune(k[n]);
    }
  }

  lemma {:induction false} EscapedIsRead(m: Machine, v: Text)
    requires m.st == DoubleQuoted && !m.refused
    ensures Run(m, Escape(v)) == m.(val := m.val + v)
    decreases |v|
  {
    if v == [] {
      assert m.val + v == m.val;
    } else {
      var c := v[0];
      var first := if IsEscapable(c) then [BACKSLASH, c] else [c];
      RunAppend(m, first, Escape(v[1..]));
      var next := m.(val := m.val + [c]);
      if IsEscapable(c) {
        RunAppend(m, [BACKSLASH], [c]);
        assert [BACKSLASH] + [c] == first;
        RunOne(m, BACKSLASH);
        RunOne(Step(m, BACKSLASH), c);
      } else {
        RunOne(m, c);
      }
      assert Run(m, first) == next;
      EscapedIsRead(next, v[1..]);
      assert m.val + [c] + v[1..] == m.val + v;
    }
  }

  lemma {:induction false} LiteralIsRead(m: Machine, v: Text)
    requires m.st == SingleQuoted && !m.refused && APOSTROPHE !in v
    ensures Run(m, v) == m.(val := m.val + v)
    decreases |v|
  {
    if v == [] {
      assert m.val + v == m.val;
    } else {
      assert Step(m, v[0]) == m.(val := m.val + [v[0]]);
      LiteralIsRead(Step(m, v[0]), v[1..]);
      assert m.val + [v[0]] + v[1..] == m.val + v;
    }
  }

  /** Out of a key, a quoted value is read whole, edge blanks and newlines included. */
  lemma QuotedIsRead(m: Machine, item: Item)
    requires m.st == PreValue && m.val == [] && !m.refused && Printable(item)
    ensures Run(m, Quoted(item)) == m.(val := item.value)
  {
    var open := [Quoted(item)[0]];
    var body := if item.style == Double then Escape(item.value) else item.value;
    assert Quoted(item) == open + body + open;
    RunAppend(m, open + body, open);
    RunAppend(m, open, body);
    RunOne(m, open[0]);
    var inside := Step(m, open[0]);
    if item.style == Double {
      EscapedIsRead(inside, item.value);
    } else {
      LiteralIsRead(inside, item.value);
    }
    assert [] + item.value == item.value;
    RunOne(inside.(val := item.value), open[0]);
  }

  lemma ItemIsRead(m: Machine, item: Item)
    requires m.st == PreKey && !m.refused && Printable(item)
    ensures var r := Run(m, PrintItem(item));
            r.st == PreKey && !r.refused && r.out == m.out[item.name := item.value]
  {
    var q := Quoted(item);
    KeyIsRead(m, item.name);
    RunSnoc(m, item.name, EQUALS);
    var before := m.(st := PreValue, key := item.name, keyWs := None, val := [], valWs := None);
    assert Run(m, item.name + [EQUALS]) == before;
    RunAppend(m, item.name + [EQUALS], q);
    QuotedIsRead(before, item);
    RunSnoc(m, item.name + [EQUALS] + q, LF);
    NamesAreClean(item.name);
  }

  lemma NamesAreClean(k: Text)
    requires IsName(k)
    ensures !HasStray(k)
  {
    forall i | 0 <= i < |k|
      ensures !IsStray(k[i])
    {
      assert IsNameRune(k[i]);
    }
  }

  lemma {:induction false} ItemsAreRead(m: Machine, items: seq<Item>)
    requires m.st == PreKey && !m.refused && forall i :: 0 <= i < |items| ==> Printable(items[i])
    ensures Finish(Run(m, Print(items))) == Parsed(Bindings(m.out, items), false)
    decreases |items|
  {
    if items != [] {
      ItemIsRead(m, items[0]);
      RunAppend(m, PrintItem(items[0]), Print(items[1..]));
      ItemsAreRead(Run(m, PrintItem(items[0])), items[1..]);
    }
  }

  lemma {:induction false} NoNul(v: Text)
    requires 0 !in v
    ensures 0 !in Escape(v)
    decreases |v|
  {
    if v != [] {
      NoNul(v[1..]);
    }
  }

  lemma {:induction false} PrintHasNoNul(items: seq<Item>)
    requires forall i :: 0 <= i < |items| ==> Printable(items[i])
    ensures 0 !in Print(items)
    decreases |items|
  {
    if items != [] {
      PrintHasNoNul(items[1..]);
      NoNul(items[0].value);
      assert forall i :: 0 <= i < |items[0].name| ==> IsNameRune(items[0].name[i]);
    }
  }

  /** What is printed parses back, for every list of names and values: the last-wins map, never unterminated. */
  lemma PrintedParsesBack(items: seq<Item>)
    requires forall i :: 0 <= i < |items| ==> Printable(items[i])
    ensures Parse(Print(items)) == Parsed(Bindings(map[], items), false)
  {
    PrintHasNoNul(items);
    ItemsAreRead(START, items);
  }

  // ---- one file after another

  /** Two machines at the same point of the same text, one of which had `base` assigned before it. */
  predicate Overlays(base: map<Text, Text>, m: Machine, n: Machine) {
    && m.st == n.st && m.refused == n.refused
    && m.out == base + n.out
    && (m.st != PreKey && m.st != InComment ==> m.key == n.key && m.keyWs == n.keyWs)
    && (m.st != PreKey && m.st != InComment && m.st != Key ==> m.val == n.val && m.valWs == n.valWs)
  }

  lemma PushOverlays(base: map<Text, Text>, m: Machine, n: Machine)
    requires Overlays(base, m, n) && m.st != PreKey && m.st != InComment && m.st != Key
    ensures Push(m).refused == Push(n).refused && Push(m).out == base + Push(n).out
    ensures PushCut(m).refused == PushCut(n).refused && PushCut(m).out == base + PushCut(n).out
  {
    var k := Cut(n.key, n.keyWs);
    assert (base + n.out)[k := n.val] == base + n.out[k := n.val];
    var v := Cut(n.val, n.valWs);
    assert (base + n.out)[k := v] == base + n.out[k := v];
  }

  lemma KeyStepOverlays(base: map<Text, Text>, m: Machine, n: Machine, c: Rune)
    requires Overlays(base, m, n) && (m.st == PreKey || m.st == InComment || m.st == Key)
    ensures Overlays(base, Step(m, c), Step(n, c))
  {
  }

  lemma ValueEndOverlays(base: map<Text, Text>, m: Machine, n: Machine, c: Rune)
    requires Overlays(base, m, n) && (m.st == PreValue || m.st == Value) && IsNewline(c)
    ensures Overlays(base, Step(m, c), Step(n, c))
  {
    PushOverlays(base, m, n);
  }

  lemma ValueStepOverlays(base: map<Text, Text>, m: Machine, n: Machine, c: Rune)
    requires Overlays(base, m, n) && (m.st == PreValue || m.st == Value) && !IsNewline(c)
    ensures Overlays(base, Step(m, c), Step(n, c))
  {
  }

  lemma EscapeStepOverlays(base: map<Text, Text>, m: Machine, n: Machine, c: Rune)
    requires Overlays(base, m, n) && (m.st == ValueEscape || m.st == DoubleQuotedEscape)
    ensures Overlays(base, Step(m, c), Step(n, c))
  {
  }

  lemma QuoteStepOverlays(base: map<Text, Text>, m: Machine, n: Machine, c: Rune)
    requires Overlays(base, m, n) && (m.st == SingleQuoted || m.st == DoubleQuoted)
    ensures Overlays(base, Step(m, c), Step(n, c))
  {
  }

  lemma StepOverlays(base: map<Text, Text>, m: Machine, n: Machine, c: Rune)
    requires Overlays(base, m, n)
    ensures Overlays(base, Step(m, c), Step(n, c))
  {
    if m.st == PreKey || m.st == InComment || m.st == Key {
      KeyStepOverlays(base, m, n, c);
    } else if m.st == ValueEscape || m.st == DoubleQuotedEscape {
      EscapeStepOverlays(base, m, n, c);
    } else if InQuotes(m.st) {
      QuoteStepOverlays(base, m, n, c);
    } else if IsNewline(c) {
      ValueEndOverlays(base, m, n, c);
    } else {
      ValueStepOverlays(base, m, n, c);
    }
  }

  lemma {:induction false} RunOverlays(base: map<Text, Text>, m: Machine, n: Machine, t: Text)
    requires Overlays(base, m, n)
    ensures Overlays(base, Run(m, t), Run(n, t))
    decreases |t|
  {
    if t != [] && !m.refused {
      StepOverlays(base, m, n, t[0]);
      RunOverlays(base, Step(m, t[0]), Step(n, t[0]), t[1..]);
    }
  }

  /** Appending a file to one whose last line is ended overlays its assignments: nothing of either is
      lost or glued, and the pair is refused or unterminated exactly when the second is. */
  lemma AppendOverlays(a: Text, b: Text)
    requires 0 !in a && Run(START, a).st == PreKey && !Run(START, a).refused
    ensures Parse(a) == Parsed(Run(START, a).out, false)
    ensures Parse(a + b) == match Parse(b)
                            case Refused => Refused
                            case Parsed(env, open) => Parsed(Run(START, a).out + env, open)
  {
    var m := Run(START, a);
    RunAppend(START, a, b);
    assert 0 in a + b <==> 0 in b;
    assert Overlays(m.out, m, START);
    RunOverlays(m.out, m, START, b);
    var x, y := Run(m, b), Run(START, b);
    if x.st != PreKey && x.st != InComment && x.st != Key {
      PushOverlays(m.out, x, y);
    }
  }
}
