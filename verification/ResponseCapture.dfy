/** The response writer of the request logger: it forwards everything and keeps the beginning of the
    body.  A character stands for a byte. */
module ResponseCapture {
  import opened Base

  const MAX_BODY := 4096
  const MARK := "...<truncated>"

  /** At most the first 4096 bytes. */
  function Bounded(s: string): string {
    s[..Min(MAX_BODY, |s|)]
  }

  /** `sent` is what reached the client. */
  datatype State = State(statusCode: int, headerWritten: bool, body: string, panicked: bool, sent: string)

  const FRESH := State(200, false, "", false, "")

  /** A call of the handler; the underlying writer may accept fewer bytes than it was given. */
  datatype Call =
    | WriteHeader(code: int)
    | Write(p: string, accepted: nat)
    | ReadFrom(p: string)
    | Panic

  function After(s: State, c: Call): State {
    match c
    case WriteHeader(code) => s.(statusCode := code, headerWritten := true)
    case Write(p, accepted) =>
      s.(statusCode := if s.statusCode == 0 then 200 else s.statusCode,
         headerWritten := true,
         body := if |s.body| < MAX_BODY then s.body + p[..Min(|p|, MAX_BODY - |s.body|)] else s.body,
         sent := s.sent + p[..Min(accepted, |p|)])
    case ReadFrom(p) => s.(sent := s.sent + p)
    case Panic => s.(panicked := true)
  }

  function Run(h: History<Call>): State {
    match h
    case Start => FRESH
    case Then(before, c) => After(Run(before), c)
  }

  /** The status that is logged: a panic counts as a server error. */
  function Logged(s: State): int {
    if s.panicked && s.statusCode < 500 then 500 else s.statusCode
  }

  class ResponseWriter {
    var statusCode: int
    var headerWritten: bool
    var body: string
    var panicked: bool
    var sent: string

    ghost function View(): State
      reads this
    {
      State(statusCode, headerWritten, body, panicked, sent)
    }

    constructor ()
      ensures View() == FRESH
    {
      statusCode, headerWritten, body, panicked, sent := 200, false, "", false, "";
    }

    method WriteHeader(code: int)
      modifies this
      ensures View() == After(old(View()), Call.WriteHeader(code))
    {
      statusCode := code;
      headerWritten := true;
    }

    method Write(p: string, accepted: nat) returns (n: nat)
      modifies this
      ensures View() == After(old(View()), Call.Write(p, accepted))
      ensures n == Min(accepted, |p|)
    {
      if statusCode == 0 { statusCode := 200; }
      headerWritten := true;
      if |body| < MAX_BODY {
        var remaining := MAX_BODY - |body|;
        if |p| > remaining {
          body := body + p[..remaining];
        } else {
          body := body + p;
        }
      }
      n := Min(accepted, |p|);
      sent := sent + p[..n];
    }

    /** Copies straight to the client. */
    method ReadFrom(p: string)
      modifies this
      ensures View() == After(old(View()), Call.ReadFrom(p))
    {
      sent := sent + p;
    }

    method SetPanicDetails()
      modifies this
      ensures View() == After(old(View()), Panic)
    {
      panicked := true;
    }

    method BodyPreview() returns (r: string)
      ensures r == Preview(body)
    {
      if |body| == 0 { return ""; }
      if |body| >= MAX_BODY { return body + MARK; }
      return body;
    }
  }

  function Preview(body: string): string {
    if |body| >= MAX_BODY then body + MARK else body
  }

  // ---------------------------------------------------------------------------------------------
  // Runs

  /** Everything passed to Write, one call after the other. */
  function Written(h: History<Call>): string {
    match h
    case Start => ""
    case Then(before, c) => if c.Write? then Written(before) + c.p else Written(before)
  }

  lemma BoundedAppend(s: string, p: string)
    ensures Bounded(s + p) == if |Bounded(s)| < MAX_BODY then Bounded(s) + p[..Min(|p|, MAX_BODY - |Bounded(s)|)]
      else Bounded(s)
  {
  }

  /** After any run the kept body is the first 4096 bytes of everything written, and the preview ends in
      the marker exactly when at least 4096 bytes were written. */
  lemma {:induction false} CaptureIsBounded(h: History<Call>)
    ensures Run(h).body == Bounded(Written(h))
    ensures Preview(Run(h).body) == if |Written(h)| >= 4096 then Written(h)[..4096] + "...<truncated>" else Written(h)
  {
    if h.Then? {
      CaptureIsBounded(h.before);
      if h.last.Write? { BoundedAppend(Written(h.before), h.last.p); }
    }
  }

  // ---------------------------------------------------------------------------------------------
  // When the capture is the beginning of what the client received

  /** The bytes that went around Write through ReadFrom. */
  function Copied(h: History<Call>): nat {
    match h
    case Start => 0
    case Then(before, c) => Copied(before) + if c.ReadFrom? then |c.p| else 0
  }

  /** Those of them that were sent before 4096 bytes had been written. */
  function CopiedEarly(h: History<Call>): nat {
    match h
    case Start => 0
    case Then(before, c) =>
      CopiedEarly(before) + if c.ReadFrom? && |Written(before)| < MAX_BODY then |c.p| else 0
  }

  /** The bytes passed to Write that the underlying writer did not accept. */
  function Refused(h: History<Call>): nat {
    match h
    case Start => 0
    case Then(before, c) => Refused(before) + if c.Write? then |c.p| - Min(c.accepted, |c.p|) else 0
  }

  /** How many of `n` more written bytes are among the first 4096. */
  function Early(h: History<Call>, n: nat): nat {
    if |Written(h)| < MAX_BODY then Min(n, MAX_BODY - |Written(h)|) else 0
  }

  /** The refused bytes among the first 4096 written. */
  function RefusedEarly(h: History<Call>): nat {
    match h
    case Start => 0
    case Then(before, c) =>
      RefusedEarly(before) + if c.Write? then Early(before, |c.p|) - Min(c.accepted, Early(before, |c.p|)) else 0
  }

  lemma {:induction false} SentLength(h: History<Call>)
    ensures |Run(h).sent| == |Written(h)| - Refused(h) + Copied(h)
    ensures CopiedEarly(h) <= Copied(h) && RefusedEarly(h) <= Refused(h)
    ensures |Written(h)| < MAX_BODY ==> CopiedEarly(h) == Copied(h) && RefusedEarly(h) == Refused(h)
  {
    if h.Then? { SentLength(h.before); }
  }

  /** The first 4096 of the bytes so far settle what a longer text begins with. */
  lemma BoundedSettled(s: string, p: string)
    requires |s| >= MAX_BODY
    ensures Bounded(s + p) == Bounded(s)
  {
  }

  /** As long as nothing was copied or refused early, what was sent starts with what was written. */
  lemma {:induction false} WrittenIsSent(h: History<Call>)
    requires CopiedEarly(h) == 0 && RefusedEarly(h) == 0
    ensures |Written(h)| < MAX_BODY ==> Run(h).sent == Written(h)
    ensures Bounded(Run(h).sent) == Bounded(Written(h))
  {
    if h.Then? {
      WrittenIsSent(h.before);
      WrittenIsSentOn(h);
    }
  }

  lemma WrittenIsSentOn(h: History<Call>)
    requires h.Then? && CopiedEarly(h) == 0 && RefusedEarly(h) == 0
    requires |Written(h.before)| < MAX_BODY ==> Run(h.before).sent == Written(h.before)
    requires Bounded(Run(h.before).sent) == Bounded(Written(h.before))
    ensures |Written(h)| < MAX_BODY ==> Run(h).sent == Written(h)
    ensures Bounded(Run(h).sent) == Bounded(Written(h))
  {
    var written, sent, c := Written(h.before), Run(h.before).sent, h.last;
    if |written| >= MAX_BODY {
      assert |sent| >= MAX_BODY by { assert |Bounded(sent)| == MAX_BODY; }
      if c.Write? {
        BoundedSettled(written, c.p);
        BoundedSettled(sent, c.p[..Min(c.accepted, |c.p|)]);
      } else if c.ReadFrom? {
        BoundedSettled(sent, c.p);
      }
    } else if c.Write? {
      var early := Min(|c.p|, MAX_BODY - |written|);
      assert Bounded(written + c.p) == written + c.p[..early];
      assert Bounded(written + c.p[..Min(c.accepted, |c.p|)]) == written + c.p[..early];
      if early == |c.p| { assert c.p[..|c.p|] == c.p; }
    } else if c.ReadFrom? {
      assert c.p == "";
    }
  }

  /** If no byte was copied before 4096 bytes were written, and none of the first 4096 was refused, the
      capture is the beginning of what the client received. */
  lemma CaptureIsWhatWasSent(h: History<Call>)
    requires CopiedEarly(h) == 0 && RefusedEarly(h) == 0
    ensures Run(h).body == Bounded(Run(h).sent)
  {
    CaptureIsBounded(h);
    WrittenIsSent(h);
  }

  // ---------------------------------------------------------------------------------------------
  // Exactly when, whatever the bytes are

  /** The same calls with the same lengths and accepted counts; the bytes may differ. */
  predicate SameShape(h: History<Call>, k: History<Call>) {
    match h
    case Start => k.Start?
    case Then(before, c) => k.Then? && SameShape(before, k.before) && SameCall(c, k.last)
  }

  predicate SameCall(c: Call, d: Call) {
    match c
    case WriteHeader(code) => d == c
    case Write(p, accepted) => d.Write? && |d.p| == |p| && d.accepted == accepted
    case ReadFrom(p) => d.ReadFrom? && |d.p| == |p|
    case Panic => d == c
  }

  lemma {:induction false} ShapeDecidesCounts(h: History<Call>, k: History<Call>)
    requires SameShape(h, k)
    ensures |Written(k)| == |Written(h)| && CopiedEarly(k) == CopiedEarly(h) && RefusedEarly(k) == RefusedEarly(h)
  {
    if h.Then? { ShapeDecidesCounts(h.before, k.before); }
  }

  function Fill(c: char, n: nat): (s: string)
    ensures |s| == n && forall i :: 0 <= i < n ==> s[i] == c
  {
    seq(n, _ => c)
  }

  /** One byte for everything accepted, one for everything refused, one for everything copied. */
  function Paint(h: History<Call>, accepted: char, refused: char, copied: char): (k: History<Call>)
    ensures SameShape(h, k)
  {
    match h
    case Start => Start
    case Then(before, c) =>
      Then(Paint(before, accepted, refused, copied),
           match c
           case Write(p, n) => Write(Fill(accepted, Min(n, |p|)) + Fill(refused, |p| - Min(n, |p|)), n)
           case ReadFrom(p) => ReadFrom(Fill(copied, |p|))
           case _ => c)
  }

  predicate Lacks(s: string, c: char) {
    forall i :: 0 <= i < |s| ==> s[i] != c
  }

  /** With refused bytes painted in a color of their own, none of it is sent. */
  lemma {:induction false} RefusedIsNotSent(h: History<Call>)
    ensures Lacks(Run(Paint(h, 'a', 'r', 'a')).sent, 'r')
  {
    if h.Then? { RefusedIsNotSent(h.before); }
  }

  /** An early refused byte is in the capture. */
  lemma {:induction false} RefusedIsWritten(h: History<Call>) returns (i: nat)
    requires RefusedEarly(h) > 0
    ensures i < MAX_BODY && i < |Written(Paint(h, 'a', 'r', 'a'))| && Written(Paint(h, 'a', 'r', 'a'))[i] == 'r'
  {
    if RefusedEarly(h.before) > 0 {
      i := RefusedIsWritten(h.before);
    } else {
      var k := Paint(h.before, 'a', 'r', 'a');
      ShapeDecidesCounts(h.before, k);
      i := |Written(k)| + h.last.accepted;
    }
  }

  /** With copied bytes painted in a color of their own, none of it is captured. */
  lemma {:induction false} CopiedIsNotWritten(h: History<Call>)
    ensures Lacks(Written(Paint(h, 'a', 'a', 'c')), 'c')
  {
    if h.Then? { CopiedIsNotWritten(h.before); }
  }

  /** An early copied byte is among the first that were sent. */
  lemma {:induction false} CopiedIsSent(h: History<Call>) returns (i: nat)
    requires CopiedEarly(h) > 0 && RefusedEarly(h) == 0
    ensures
      var sent := Run(Paint(h, 'a', 'a', 'c')).sent;
      i < MAX_BODY && i < |sent| && sent[i] == 'c'
  {
    if CopiedEarly(h.before) > 0 {
      i := CopiedIsSent(h.before);
    } else {
      var k := Paint(h.before, 'a', 'a', 'c');
      ShapeDecidesCounts(h.before, k);
      WrittenIsSent(k);
      i := |Run(k).sent|;
    }
  }

  /** Some bytes show every early copy and every early refusal. */
  lemma SomeBytesShow(h: History<Call>) returns (k: History<Call>)
    requires CopiedEarly(h) > 0 || RefusedEarly(h) > 0
    ensures SameShape(h, k) && Run(k).body != Bounded(Run(k).sent)
  {
    if RefusedEarly(h) > 0 {
      k := Paint(h, 'a', 'r', 'a');
      RefusedIsNotSent(h);
      var i := RefusedIsWritten(h);
      CaptureIsBounded(k);
      assert Run(k).body[i] == 'r';
    } else {
      k := Paint(h, 'a', 'a', 'c');
      CopiedIsNotWritten(h);
      var i := CopiedIsSent(h);
      CaptureIsBounded(k);
      assert Bounded(Run(k).sent)[i] == 'c';
    }
  }

  /** For every history of calls: the capture is the beginning of what was sent, whatever the bytes
      are, if and only if nothing was copied before 4096 bytes were written and none of the first 4096
      was refused. */
  lemma CaptureIsSentIff(h: History<Call>)
    ensures (forall k :: SameShape(h, k) ==> Run(k).body == Bounded(Run(k).sent))
      <==> CopiedEarly(h) == 0 && RefusedEarly(h) == 0
  {
    if CopiedEarly(h) == 0 && RefusedEarly(h) == 0 {
      forall k | SameShape(h, k) ensures Run(k).body == Bounded(Run(k).sent) {
        ShapeDecidesCounts(h, k);
        CaptureIsWhatWasSent(k);
      }
    } else {
      var k := SomeBytesShow(h);
    }
  }

  /** For the bytes at hand one cause may hide the other: one byte refused, and one like it copied. */
  lemma CopyCanHideARefusal()
    ensures
      var h := Then(Then(Start, Write("ab", 1)), ReadFrom("b"));
      CopiedEarly(h) == 1 && RefusedEarly(h) == 1 && Run(h).body == Bounded(Run(h).sent)
  {
    var h := Then(Then(Start, Write("ab", 1)), ReadFrom("b"));
    assert Run(h.before).sent == "" + "ab"[..1];
    assert Run(h).sent == "ab" == "" + "ab"[..2];
  }

  /** With full writes below 4096 bytes it cannot: the capture is what was sent if and only if nothing
      was copied. */
  lemma CaptureIsSentIffNothingCopied(h: History<Call>)
    requires Refused(h) == 0 && |Written(h)| < MAX_BODY
    ensures Run(h).body == Bounded(Run(h).sent) <==> Copied(h) == 0
  {
    CaptureIsBounded(h);
    SentLength(h);
    if Copied(h) == 0 { WrittenIsSent(h); }
  }

  /** Nor without copies below 4096 bytes: if and only if nothing was refused. */
  lemma CaptureIsSentIffNothingRefused(h: History<Call>)
    requires Copied(h) == 0 && |Written(h)| < MAX_BODY
    ensures Run(h).body == Bounded(Run(h).sent) <==> Refused(h) == 0
  {
    CaptureIsBounded(h);
    SentLength(h);
    if Refused(h) == 0 { WrittenIsSent(h); }
  }

  /** The last status given to WriteHeader, or 200. */
  function LastStatus(h: History<Call>): int {
    match h
    case Start => 200
    case Then(before, c) => if c.WriteHeader? then c.code else LastStatus(before)
  }

  predicate Panics(h: History<Call>) {
    h.Then? && (h.last.Panic? || Panics(h.before))
  }

  /** Real status codes are not zero; with such codes the log shows the last one, raised to 500 by a
      panic. */
  lemma {:induction false} LoggedStatus(h: History<Call>)
    requires NonzeroCodes(h)
    ensures Run(h).statusCode == LastStatus(h) != 0 && Run(h).panicked == Panics(h)
    ensures Logged(Run(h)) == if Panics(h) && LastStatus(h) < 500 then 500 else LastStatus(h)
  {
    if h.Then? { LoggedStatus(h.before); }
  }

  /** A write under no status yet sets 200, and otherwise none does. */
  lemma WriteSetsStatus(h: History<Call>, p: string, accepted: nat)
    ensures Run(Then(h, Write(p, accepted))).statusCode == if Run(h).statusCode == 0 then 200 else Run(h).statusCode
    ensures Run(Then(h, ReadFrom(p))).statusCode == Run(h).statusCode
  {
  }

  /** The header counts as written after the first write or status. */
  lemma {:induction false} HeaderWrittenIff(h: History<Call>)
    ensures Run(h).headerWritten <==> Answered(h)
  {
    if h.Then? { HeaderWrittenIff(h.before); }
  }

  predicate Answered(h: History<Call>) {
    h.Then? && (h.last.Write? || h.last.WriteHeader? || Answered(h.before))
  }

  predicate NonzeroCodes(h: History<Call>) {
    h.Then? ==> NonzeroCodes(h.before) && (h.last.WriteHeader? ==> h.last.code != 0)
  }
}
