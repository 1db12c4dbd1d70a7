/** The ASGI body cap: a wrapper between a server and an application that counts the request's body bytes,
    hides what is past the cap, and answers a refused upload itself. */
module BodyCap {
  import opened Decimal

  type Bytes = seq<char>

  /** What a server hands over. */
  datatype In = Request(body: Bytes) | Disconnect

  /** What goes to the client; only a response start matters to the cap. */
  datatype Out = ResponseStart(status: int) | ResponseBody(body: Bytes) | Other(kind: int)

  /** An application as the wrapper sees it: receives and sends in some order, then an end. */
  datatype Action = Receive | Send(message: Out)

  datatype End = Returned | Raised | Cancelled

  datatype Header = Header(name: Bytes, value: Bytes)

  const REFUSAL: seq<Out> := [ResponseStart(413), ResponseBody("{\"detail\":\"upload exceeds the size bound (AUTHENTICODE_MAX_UPLOAD_MB)\"}")]

  /** Body bytes in a stretch of messages. */
  function Total(messages: seq<In>): nat
    decreases |messages|
  {
    if messages == [] then 0
    else
      var last := messages[|messages| - 1];
      Total(messages[..|messages| - 1]) + if last.Request? then |last.body| else 0
  }

  /** The server's i-th message; past its last one it reports the client gone. */
  function Offered(incoming: seq<In>, i: nat): In {
    if i < |incoming| then incoming[i] else Disconnect
  }

  /** The first n messages fit under the cap. */
  predicate Fits(incoming: seq<In>, cap: nat, n: nat) {
    Total(incoming[..Least(n, |incoming|)]) <= cap
  }

  function Least(a: nat, b: nat): nat {
    if a < b then a else b
  }

  /** What an application that receives n times is to see. */
  function Seen(incoming: seq<In>, cap: nat, n: nat): seq<In> {
    seq(n, i requires 0 <= i < n => if Fits(incoming, cap, i + 1) then Offered(incoming, i) else Disconnect)
  }

  function Sends(script: seq<Action>): seq<Out>
    decreases |script|
  {
    if script == [] then []
    else
      var last := script[|script| - 1];
      Sends(script[..|script| - 1]) + if last.Send? then [last.message] else []
  }

  function Receives(script: seq<Action>): nat
    decreases |script|
  {
    if script == [] then 0
    else Receives(script[..|script| - 1]) + if script[|script| - 1].Receive? then 1 else 0
  }

  predicate Starts(messages: seq<Out>) {
    exists i :: 0 <= i < |messages| && messages[i].ResponseStart?
  }

  /** The application has drawn more body than the cap allows. */
  predicate Over(incoming: seq<In>, cap: nat, script: seq<Action>) {
    !Fits(incoming, cap, Receives(script))
  }

  /** The script up to the crossing: its longest prefix that is not over. */
  function BeforeCrossing(incoming: seq<In>, cap: nat, script: seq<Action>): (r: seq<Action>)
    ensures r <= script && !Over(incoming, cap, r)
    decreases |script|
  {
    if script == [] || !Over(incoming, cap, script) then script
    else BeforeCrossing(incoming, cap, script[..|script| - 1])
  }

  /** The cap was crossed before the application had started a response. */
  predicate Refused(incoming: seq<In>, cap: nat, script: seq<Action>) {
    Over(incoming, cap, script) && !Starts(Sends(BeforeCrossing(incoming, cap, script)))
  }

  /** What the client is to get while the application runs. */
  function Answer(incoming: seq<In>, cap: nat, script: seq<Action>): seq<Out> {
    var before := Sends(BeforeCrossing(incoming, cap, script));
    if !Refused(incoming, cap, script) then Sends(script)
    else if Sends(script) == before then before
    else before + REFUSAL
  }

  /** A response start has gone out, the refusal's own aside. */
  predicate HasStarted(incoming: seq<In>, cap: nat, script: seq<Action>) {
    Starts(Sends(script)) && !Refused(incoming, cap, script)
  }

  /** The refusal has gone out: it took the place of the first send after the crossing. */
  predicate HasAnswered(incoming: seq<In>, cap: nat, script: seq<Action>) {
    Refused(incoming, cap, script) && Sends(script) != Sends(BeforeCrossing(incoming, cap, script))
  }

  // ---- one more action

  lemma {:induction false} TotalGrows(incoming: seq<In>, a: nat, b: nat)
    requires a <= b <= |incoming|
    ensures Total(incoming[..a]) <= Total(incoming[..b])
    decreases b
  {
    if a < b {
      TotalGrows(incoming, a, b - 1);
      assert incoming[..b][..b - 1] == incoming[..b - 1];
    }
  }

  /** What the application sent before the crossing it had sent first. */
  lemma {:induction false} SentBefore(incoming: seq<In>, cap: nat, script: seq<Action>)
    ensures Sends(BeforeCrossing(incoming, cap, script)) <= Sends(script)
    decreases |script|
  {
    if script != [] && Over(incoming, cap, script) {
      SentBefore(incoming, cap, script[..|script| - 1]);
    }
  }

  lemma StartsSnoc(messages: seq<Out>, m: Out)
    ensures Starts(messages + [m]) <==> Starts(messages) || m.ResponseStart?
  {
    var all := messages + [m];
    assert all[|messages|] == m && forall i :: 0 <= i < |messages| ==> all[i] == messages[i];
  }

  lemma OneMoreSend(incoming: seq<In>, cap: nat, script: seq<Action>, m: Out)
    ensures var next := script + [Send(m)];
            && Sends(next) == Sends(script) + [m] && Receives(next) == Receives(script)
            && BeforeCrossing(incoming, cap, next) ==
               (if Over(incoming, cap, script) then BeforeCrossing(incoming, cap, script) else next)
            && Refused(incoming, cap, next) == Refused(incoming, cap, script)
            && (Starts(Sends(next)) <==> Starts(Sends(script)) || m.ResponseStart?)
            && Sends(BeforeCrossing(incoming, cap, script)) <= Sends(script)
  {
    var next := script + [Send(m)];
    assert next[..|script|] == script;
    StartsSnoc(Sends(script), m);
    SentBefore(incoming, cap, script);
  }

  lemma OneMoreReceive(incoming: seq<In>, cap: nat, script: seq<Action>)
    ensures var next := script + [Receive];
            && Receives(next) == Receives(script) + 1 && (Over(incoming, cap, script) ==> Over(incoming, cap, next))
            && Seen(incoming, cap, Receives(next)) == Seen(incoming, cap, Receives(script))
               + [if Over(incoming, cap, next) then Disconnect else Offered(incoming, Receives(script))]
  {
    var next := script + [Receive];
    assert next[..|script|] == script;
    var n := Receives(script);
    TotalGrows(incoming, Least(n, |incoming|), Least(n + 1, |incoming|));
  }

  /** A receive changes nothing about what the client gets. */
  lemma ReceiveIsSilent(incoming: seq<In>, cap: nat, script: seq<Action>)
    ensures var next := script + [Receive];
            && HasStarted(incoming, cap, next) == HasStarted(incoming, cap, script)
            && HasAnswered(incoming, cap, next) == HasAnswered(incoming, cap, script)
            && Answer(incoming, cap, next) == Answer(incoming, cap, script)
  {
    var next := script + [Receive];
    assert next[..|script|] == script;
    assert Sends(next) == Sends(script) + [] == Sends(script);
    OneMoreReceive(incoming, cap, script);
    assert BeforeCrossing(incoming, cap, next) ==
           if !Over(incoming, cap, next) then next
           else if Over(incoming, cap, script) then BeforeCrossing(incoming, cap, script) else script;
  }

  /** What the next message does to the count. */
  lemma OneMoreMessage(incoming: seq<In>, taken: nat)
    requires taken < |incoming|
    ensures Total(incoming[..taken + 1])
            == Total(incoming[..taken]) + if incoming[taken].Request? then |incoming[taken].body| else 0
  {
    assert incoming[..taken + 1][..taken] == incoming[..taken];
  }

  /** `v.isdigit()` and `int(v) > cap` */
  predicate TooLong(v: Bytes, cap: nat) {
    v != [] && (forall i :: 0 <= i < |v| ==> IsDigit(v[i])) && ReadDigits(v).Or(0) > cap
  }

  /** A length as clients write it is refused exactly past the cap, zeros in front or not; what is no number never is. */
  lemma DeclaredLengths(n: nat, v: Bytes, cap: nat)
    ensures TooLong(ShowNat(n), cap) <==> n > cap
    ensures v != [] ==> (TooLong(['0'] + v, cap) <==> TooLong(v, cap))
    ensures v == [] || (exists i :: 0 <= i < |v| && !('0' <= v[i] <= '9')) ==> !TooLong(v, cap)
  {
    ShowNatReads(n);
    if v != [] {
      if forall i :: 0 <= i < |v| ==> IsDigit(v[i]) {
        LeadingZero(v);
      } else {
        var i :| 0 <= i < |v| && !IsDigit(v[i]);
        assert (['0'] + v)[i + 1] == v[i];
      }
    }
  }

  predicate DeclaredTooLong(headers: seq<Header>, cap: nat) {
    exists i :: 0 <= i < |headers| && headers[i].name == "content-length" && TooLong(headers[i].value, cap)
  }

  /** Of one header, its name and its length decide. */
  lemma OneHeader(name: string, n: nat, v: Bytes, cap: nat)
    ensures DeclaredTooLong([Header("content-length", ShowNat(n))], cap) <==> n > cap
    ensures name != "content-length" ==> !DeclaredTooLong([Header(name, v)], cap)
  {
    DeclaredLengths(n, v, cap);
    var headers := [Header("content-length", ShowNat(n))];
    assert headers[0].value == ShowNat(n);
  }

  /** One request through the wrapper, with the flags of its `state` and both message streams. */
  class Exchange {
    const cap: nat
    const incoming: seq<In>
    var taken: nat
    var seen: nat
    var over: bool
    var started: bool
    var answered: bool
    var delivered: seq<In>
    var sent: seq<Out>

    constructor (cap: nat, incoming: seq<In>)
      ensures this.cap == cap && this.incoming == incoming && sent == [] && delivered == [] && Follows([])
    {
      this.cap, this.incoming := cap, incoming;
      taken, seen, over, started, answered, delivered, sent := 0, 0, false, false, false, [], [];
    }

    /** The state after an application that did `script` so far. */
    ghost predicate Follows(script: seq<Action>)
      reads this
    {
      && taken <= |incoming|
      && seen == Total(incoming[..taken])
      && (!over ==> taken == Least(Receives(script), |incoming|))
      && over == Over(incoming, cap, script)
      && delivered == Seen(incoming, cap, Receives(script))
      && started == HasStarted(incoming, cap, script)
      && answered == HasAnswered(incoming, cap, script)
      && sent == Answer(incoming, cap, script)
    }

    /** `counting_receive` */
    method CountingReceive(ghost script: seq<Action>) returns (message: In)
      requires Follows(script)
      modifies this
      ensures Follows(script + [Receive]) && message == delivered[|delivered| - 1]
    {
      OneMoreReceive(incoming, cap, script);
      ReceiveIsSilent(incoming, cap, script);
      if over {
        message := Disconnect;
      } else {
        message := Draw(Receives(script));
      }
      delivered := delivered + [message];
    }

    /** The server's next message, counted. */
    method Draw(ghost n: nat) returns (message: In)
      requires !over && taken == Least(n, |incoming|) && seen == Total(incoming[..taken]) && seen <= cap
      modifies this`taken, this`seen, this`over
      ensures taken == Least(n + 1, |incoming|) && seen == Total(incoming[..taken]) && over == !Fits(incoming, cap, n + 1)
      ensures message == if over then Disconnect else Offered(incoming, n)
    {
      message := Offered(incoming, taken);
      if taken < |incoming| {
        OneMoreMessage(incoming, taken);
        taken := taken + 1;
      }
      if message.Request? {
        seen := seen + |message.body|;
        if seen > cap {
          over := true;
          message := Disconnect;
        }
      }
    }

    method Reject()
      modifies this`sent
      ensures sent == old(sent) + REFUSAL
    {
      sent := sent + [REFUSAL[0]];
      sent := sent + [REFUSAL[1]];
    }

    /** `guarded_send` */
    method GuardedSend(ghost script: seq<Action>, message: Out)
      requires Follows(script)
      modifies this
      ensures Follows(script + [Send(message)])
    {
      OneMoreSend(incoming, cap, script, message);
      if over && !started {
        if !answered {
          answered := true;
          Reject();
        }
        return;
      }
      if message.ResponseStart? {
        started := true;
      }
      sent := sent + [message];
    }

    /** `__call__`: anything but http is handed through; a declared length past the cap is refused unread; else the
        application runs, and a refusal that it left unsaid is sent.  The result is how the call itself ends. */
    method Call(http: bool, headers: seq<Header>, script: seq<Action>, end: End) returns (ends: End)
      requires Follows([]) && sent == [] && delivered == []
      modifies this
      ensures !http ==> sent == Sends(script) && delivered == Offers(incoming, Receives(script)) && ends == end
      ensures http && DeclaredTooLong(headers, cap) ==> sent == REFUSAL && delivered == [] && ends == Returned
      ensures http && !DeclaredTooLong(headers, cap) ==>
                && sent == Served(incoming, cap, script, end) && delivered == Seen(incoming, cap, Receives(script))
                && ends == if end == Raised && Refused(incoming, cap, script) then Returned else end
    {
      if !http {
        PassThrough(script);
        return end;
      }
      if DeclaredTooLong(headers, cap) {
        Reject();
        return Returned;
      }
      for i := 0 to |script|
        invariant Follows(script[..i])
      {
        assert script[..i + 1] == script[..i] + [script[i]];
        match script[i] {
          case Receive =>
            var _ := CountingReceive(script[..i]);
          case Send(message) =>
            GuardedSend(script[..i], message);
        }
      }
      assert script[..|script|] == script;
      SentBefore(incoming, cap, script);
      StartedOrRefused(incoming, cap, script);
      if end == Cancelled || (end == Raised && !(over && !started)) {
        return end;
      }
      if over && !started && !answered {
        answered := true;
        Reject();
      }
      return Returned;
    }

    /** A scope that is not http: the application has the server's own receive and send. */
    method PassThrough(script: seq<Action>)
      requires taken == 0 && sent == [] && delivered == []
      modifies this
      ensures sent == Sends(script) && delivered == Offers(incoming, Receives(script))
    {
      for i := 0 to |script|
        invariant taken == Least(Receives(script[..i]), |incoming|)
        invariant sent == Sends(script[..i]) && delivered == Offers(incoming, Receives(script[..i]))
      {
        assert script[..i + 1][..i] == script[..i];
        match script[i] {
          case Receive =>
            delivered := delivered + [Offered(incoming, Receives(script[..i]))];
            if taken < |incoming| {
              taken := taken + 1;
            }
          case Send(message) =>
            sent := sent + [message];
        }
      }
      assert script[..|script|] == script;
    }
  }

  /** The server's own stream to an application that receives n times. */
  function Offers(incoming: seq<In>, n: nat): seq<In> {
    seq(n, i requires 0 <= i < n => Offered(incoming, i))
  }

  /** What the client gets in all. */
  function Served(incoming: seq<In>, cap: nat, script: seq<Action>, end: End): seq<Out> {
    if Refused(incoming, cap, script) && end != Cancelled then Sends(BeforeCrossing(incoming, cap, script)) + REFUSAL
    else Answer(incoming, cap, script)
  }

  lemma StartedOrRefused(incoming: seq<In>, cap: nat, script: seq<Action>)
    ensures Over(incoming, cap, script) && !Refused(incoming, cap, script) ==> Starts(Sends(script))
  {
    SentBefore(incoming, cap, script);
    var before := Sends(BeforeCrossing(incoming, cap, script));
    if Starts(before) {
      var i :| 0 <= i < |before| && before[i].ResponseStart?;
      assert Sends(script)[i] == before[i];
    }
  }

  // ---- what the cap promises

  /** The application never gets more than `cap` body bytes. */
  lemma {:induction false} AtMostCapBytes(incoming: seq<In>, cap: nat, n: nat)
    ensures Total(Seen(incoming, cap, n)) <= cap
    ensures Fits(incoming, cap, n) ==> Total(Seen(incoming, cap, n)) == Total(incoming[..Least(n, |incoming|)])
    decreases n
  {
    if n > 0 {
      AtMostCapBytes(incoming, cap, n - 1);
      var all := Seen(incoming, cap, n);
      assert all[..n - 1] == Seen(incoming, cap, n - 1);
      TotalGrows(incoming, Least(n - 1, |incoming|), Least(n, |incoming|));
      assert n <= |incoming| ==> incoming[..n][..n - 1] == incoming[..n - 1];
    }
  }

  /** From the first message that does not fit, it gets disconnects only. */
  lemma OnlyDisconnectsAfter(incoming: seq<In>, cap: nat, n: nat, k: nat, j: nat)
    requires !Fits(incoming, cap, k) && 0 < k <= j + 1 <= n
    ensures Seen(incoming, cap, n)[j] == Disconnect
  {
    TotalGrows(incoming, Least(k, |incoming|), Least(j + 1, |incoming|));
  }

  /** An upload within the cap passes in both directions unchanged, and so does the way the application ends. */
  lemma WithinTheCap(incoming: seq<In>, cap: nat, script: seq<Action>, end: End)
    requires Total(incoming) <= cap
    ensures Seen(incoming, cap, Receives(script)) == Offers(incoming, Receives(script))
    ensures Served(incoming, cap, script, end) == Sends(script) && !Refused(incoming, cap, script)
  {
    assert incoming[..|incoming|] == incoming;
    forall n: nat
      ensures Fits(incoming, cap, n)
    {
      TotalGrows(incoming, Least(n, |incoming|), |incoming|);
    }
  }

  function StartCount(messages: seq<Out>): nat
    decreases |messages|
  {
    if messages == [] then 0
    else StartCount(messages[..|messages| - 1]) + if messages[|messages| - 1].ResponseStart? then 1 else 0
  }

  lemma {:induction false} NoStartNoCount(messages: seq<Out>)
    requires !Starts(messages)
    ensures StartCount(messages) == 0
    decreases |messages|
  {
    if messages != [] {
      var less := messages[..|messages| - 1];
      assert forall i :: 0 <= i < |less| ==> less[i] == messages[i];
      NoStartNoCount(less);
      assert !messages[|messages| - 1].ResponseStart?;
    }
  }

  /** An upload refused before a response started: the client gets one response start, the 413, and after the refusal
      nothing; it gets the refusal and nothing else if and only if the application had sent nothing before the crossing. */
  lemma RefusedOnce(incoming: seq<In>, cap: nat, script: seq<Action>, end: End)
    requires Refused(incoming, cap, script) && end != Cancelled
    ensures var got := Served(incoming, cap, script, end);
            && StartCount(got) == 1 && |got| >= 2 && got[|got| - 2..] == REFUSAL
            && got[|got| - 2] == ResponseStart(413) && got[|got| - 1].ResponseBody?
            && (got == REFUSAL <==> Sends(BeforeCrossing(incoming, cap, script)) == [])
  {
    var before := Sends(BeforeCrossing(incoming, cap, script));
    var got := before + REFUSAL;
    NoStartNoCount(before);
    assert got[..|got| - 1][..|got| - 2] == before && got[..|got| - 1][|got| - 2] == REFUSAL[0];
    assert got[|got| - 2..] == REFUSAL;
  }

  /** Which it cannot have, when it starts its response before it sends anything else. */
  lemma RefusalAlone(incoming: seq<In>, cap: nat, script: seq<Action>, end: End)
    requires Refused(incoming, cap, script)
    requires Sends(script) != [] ==> Sends(script)[0].ResponseStart?
    ensures end != Cancelled ==> Served(incoming, cap, script, end) == REFUSAL
    ensures Served(incoming, cap, script, end) == REFUSAL || Served(incoming, cap, script, end) == []
  {
    SentBefore(incoming, cap, script);
    StartsFirst(Sends(BeforeCrossing(incoming, cap, script)), Sends(script));
  }

  lemma StartsFirst(some: seq<Out>, all: seq<Out>)
    requires some <= all && (all != [] ==> all[0].ResponseStart?)
    ensures some != [] ==> Starts(some)
  {
    if some != [] {
      assert some[0] == all[0];
    }
  }
}
