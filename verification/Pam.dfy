/** One PAM authentication, from the request on the socket to the verdict
    (pam/pam_chowdy.c). */
module Pam {
  import opened JsonText
  import opened JsonScan
  import opened Frames
  import opened JsonRead
  import Decimal
  import opened Wrappers

  /** Options of the PAM line that decide anything here. */
  datatype Opts = Opts(requireEnter: bool, allowNoConv: bool, timeoutMs: nat)

  datatype Verdict = PamSuccess | PamAuthErr | PamAuthinfoUnavail | PamUserUnknown

  /** How the conversation for the Enter prompt went. */
  datatype Conversation = NoConv | Acknowledged | ConvErr | ConvAgain | ConvFailed

  function PromptEnter(c: Conversation): int {
    match c
    case NoConv => 0
    case Acknowledged => 1
    case ConvErr => 0
    case ConvAgain => 0
    case ConvFailed => -1
  }

  /** A buffer read as a C string. */
  function CString(buf: string): string {
    if buf == [] || buf[0] == '\0' then "" else [buf[0]] + CString(buf[1..])
  }

  lemma {:induction false} CStringWhole(buf: string)
    requires '\0' !in buf
    ensures CString(buf) == buf
    decreases |buf|
  {
    if buf == [] {
    } else {
      CStringWhole(buf[1..]);
    }
  }

  const SUCCESS: string := "success"

  /** What the module makes of the bytes the daemon sends: 1, 0, or -1 for
      "cannot tell". */
  function Reply(bytes: string): int {
    match Parse(bytes, RECV_BUF_SIZE)
    case Frame(payload, _) => ScanBool(CString(payload), SUCCESS)
    case _ => -1
  }

  /** The request the module writes. */
  function Payload(uid: nat, timeoutMs: nat, reqId: string): string {
    "{\"type\":\"auth\",\"uid\":" + Decimal.Print(uid) + ",\"timeout_ms\":" + Decimal.Print(timeoutMs)
    + ",\"request_id\":\"" + reqId + "\"}"
  }

  /** It always fits the 256-byte buffer. */
  lemma PayloadFits(uid: nat, timeoutMs: nat, reqId: string)
    requires uid < 0x1_0000_0000 && timeoutMs <= 60000 && |reqId| <= 16
    ensures 0 < |Payload(uid, timeoutMs, reqId)| < 256
  {
    assert Decimal.Pow10(2) == 100 && Decimal.Pow10(4) == 10000 && Decimal.Pow10(6) == 1000000;
    assert Decimal.Pow10(8) == 100000000 && Decimal.Pow10(10) == 10000000000;
    Decimal.Length(uid, 10);
    assert Decimal.Pow10(5) == 100000;
    Decimal.Length(timeoutMs, 5);
  }

  /** make_request_id: two hex digits for each of the eight random bytes, or, when
      there are none, a 64-bit number in hex. */
  function RequestId(random: Option<seq<nat>>, fallback: nat): string
    requires random.Some? ==> |random.value| == 8 && forall i :: 0 <= i < 8 ==> random.value[i] < 256
    requires fallback < 0x1_0000_0000_0000_0000
  {
    if random.Some? then HexBytes(random.value) else HexNumber(fallback)
  }

  function HexBytes(bytes: seq<nat>): (s: string)
    requires forall i :: 0 <= i < |bytes| ==> bytes[i] < 256
    ensures |s| == 2 * |bytes| && Hex(s)
  {
    if bytes == [] then "" else [HexDigit(bytes[0] / 16), HexDigit(bytes[0] % 16)] + HexBytes(bytes[1..])
  }

  function HexNumber(n: nat): (s: string)
    ensures Hex(s)
  {
    if n < 16 then [HexDigit(n)] else HexNumber(n / 16) + [HexDigit(n % 16)]
  }

  predicate Hex(s: string) { forall i :: 0 <= i < |s| ==> IsHex(s[i]) }

  function Pow16(k: nat): nat { if k == 0 then 1 else 16 * Pow16(k - 1) }

  lemma {:induction false} HexLength(n: nat, k: nat)
    requires k >= 1 && n < Pow16(k)
    ensures |HexNumber(n)| <= k
    decreases k
  {
    if n >= 16 {
      HexLength(n / 16, k - 1);
    }
  }

  /** A request id always fits its buffer, and needs no escape in JSON. */
  lemma RequestIdPlain(random: Option<seq<nat>>, fallback: nat)
    requires random.Some? ==> |random.value| == 8 && forall i :: 0 <= i < 8 ==> random.value[i] < 256
    requires fallback < 0x1_0000_0000_0000_0000
    ensures |RequestId(random, fallback)| <= 16 && Hex(RequestId(random, fallback))
  {
    assert Pow16(4) == 0x1_0000 && Pow16(8) == 0x1_0000_0000 && Pow16(12) == 0x1_0000_0000_0000;
    assert Pow16(16) == 0x1_0000_0000_0000_0000;
    HexLength(fallback, 16);
  }

  /** Read as JSON, the text asks to authenticate this user within this time, under
      this request id. */
  ghost predicate Asks(text: string, uid: nat, timeoutMs: nat, reqId: string) {
    exists u: string, t: string ::
      && Has(text, "type", Str("auth"))
      && Has(text, "uid", Num(u)) && u != "" && Decimal.Digits(u) && Decimal.Value(u) == uid
      && Has(text, "timeout_ms", Num(t)) && t != "" && Decimal.Digits(t) && Decimal.Value(t) == timeoutMs
      && Has(text, "request_id", Str(reqId))
  }

  function RequestMembers(uid: nat, timeoutMs: nat, reqId: string): seq<Member> {
    [Member("type", Str("auth")), Member("uid", Num(Decimal.Print(uid))),
     Member("timeout_ms", Num(Decimal.Print(timeoutMs))), Member("request_id", Str(reqId))]
  }

  /** What went out since is one frame, whose request asks about this user. */
  ghost predicate Asked(before: string, after: string, uid: nat, timeoutMs: nat, reqId: string) {
    exists request: string ::
      0 < |request| < 256 && Asks(request, uid, timeoutMs, reqId) && after == before + FrameOf(request)
  }

  predicate Plain(s: string) { forall i :: 0 <= i < |s| ==> s[i] != '\"' && s[i] != '\\' && !Control(s[i]) }

  lemma {:induction false} PlainText(s: string)
    requires Plain(s)
    ensures EscAll(s) == s
    decreases |s|
  {
    if s != "" {
      PlainText(s[1..]);
    }
  }

  /** A key and the colon after it. */
  function Key(k: string): string { "\"" + k + "\":" }

  lemma NumText(k: string, n: string)
    requires Plain(k)
    ensures PrintMember(Member(k, Num(n))) == Key(k) + n
  {
    PlainText(k);
    assert Quote(k) + ":" == Key(k);
  }

  lemma StrText(k: string, v: string)
    requires Plain(k) && Plain(v)
    ensures PrintMember(Member(k, Str(v))) == Key(k) + "\"" + v + "\""
  {
    PlainText(k);
    PlainText(v);
    assert Quote(k) + ":" == Key(k);
  }

  lemma FourMembers(a: Member, b: Member, c: Member, d: Member)
    ensures Dump([a, b, c, d])
         == "{" + (PrintMember(a) + "," + (PrintMember(b) + "," + (PrintMember(c) + "," + PrintMember(d)))) + "}"
  {
    assert [a, b, c, d][1..] == [b, c, d] && [b, c, d][1..] == [c, d] && [c, d][1..] == [d];
    assert PrintMembers([c, d]) == PrintMember(c) + "," + PrintMember(d);
    assert PrintMembers([b, c, d]) == PrintMember(b) + "," + PrintMembers([c, d]);
  }

  lemma OpeningText()
    ensures "{\"type\":\"auth\",\"uid\":" == "{" + Key("type") + "\"" + "auth" + "\"" + "," + Key("uid")
  {
  }

  lemma TimeoutText()
    ensures ",\"timeout_ms\":" == "," + Key("timeout_ms")
  {
  }

  lemma RequestIdText()
    ensures ",\"request_id\":\"" == "," + Key("request_id") + "\""
  {
  }

  lemma Regroup(k: string, v: string, k1: string, u: string, k2: string, t: string, k3: string, r: string)
    ensures ("{" + k + "\"" + v + "\"" + "," + k1) + u + ("," + k2) + t + ("," + k3 + "\"") + r + "\"}"
         == "{" + ((k + "\"" + v + "\"") + "," + ((k1 + u) + "," + ((k2 + t) + "," + (k3 + "\"" + r + "\"")))) + "}"
  {
  }

  lemma ObjectText(k: string, v: string, k1: string, u: string, k2: string, t: string, k3: string, r: string)
    requires Plain(k) && Plain(v) && Plain(k1) && Plain(k2) && Plain(k3) && Plain(r)
    ensures Dump([Member(k, Str(v)), Member(k1, Num(u)), Member(k2, Num(t)), Member(k3, Str(r))])
         == ("{" + Key(k) + "\"" + v + "\"" + "," + Key(k1)) + u + ("," + Key(k2)) + t + ("," + Key(k3) + "\"") + r + "\"}"
  {
    FourMembers(Member(k, Str(v)), Member(k1, Num(u)), Member(k2, Num(t)), Member(k3, Str(r)));
    StrText(k, v);
    NumText(k1, u);
    NumText(k2, t);
    StrText(k3, r);
    Regroup(Key(k), v, Key(k1), u, Key(k2), t, Key(k3), r);
  }

  lemma PlainWords()
    ensures Plain("type") && Plain("auth") && Plain("uid") && Plain("timeout_ms") && Plain("request_id")
  {
  }

  lemma PayloadIsDump(uid: nat, timeoutMs: nat, reqId: string)
    requires Hex(reqId)
    ensures Payload(uid, timeoutMs, reqId) == Dump(RequestMembers(uid, timeoutMs, reqId))
  {
    PlainWords();
    OpeningText();
    TimeoutText();
    RequestIdText();
    ObjectText("type", "auth", "uid", Decimal.Print(uid), "timeout_ms", Decimal.Print(timeoutMs), "request_id", reqId);
  }

  lemma RequestKeysApart(ms: seq<Member>, uid: nat, timeoutMs: nat, reqId: string)
    requires ms == RequestMembers(uid, timeoutMs, reqId)
    ensures AllApart(ms)
  {
    var firsts, lengths := "tutr", [4, 3, 10, 10];
    assert forall i :: 0 <= i < |ms| ==> |ms[i].key| == lengths[i] && ms[i].key[0] == firsts[i];
  }

  lemma RequestTokens(ms: seq<Member>, uid: nat, timeoutMs: nat, reqId: string)
    requires ms == RequestMembers(uid, timeoutMs, reqId)
    ensures Numbers(ms)
  {
  }

  lemma RequestHas(text: string, uid: nat, timeoutMs: nat, reqId: string, m: Member)
    requires Hex(reqId) && text == Payload(uid, timeoutMs, reqId) && m in RequestMembers(uid, timeoutMs, reqId)
    ensures Has(text, m.key, m.value)
  {
    var ms := RequestMembers(uid, timeoutMs, reqId);
    PayloadIsDump(uid, timeoutMs, reqId);
    RequestKeysApart(ms, uid, timeoutMs, reqId);
    RequestTokens(ms, uid, timeoutMs, reqId);
    DumpHas(text, ms, m);
  }

  lemma RequestNumbers(text: string, uid: nat, timeoutMs: nat, reqId: string)
    requires Hex(reqId) && text == Payload(uid, timeoutMs, reqId)
    ensures Has(text, "uid", Num(Decimal.Print(uid))) && Has(text, "timeout_ms", Num(Decimal.Print(timeoutMs)))
  {
    RequestHas(text, uid, timeoutMs, reqId, RequestMembers(uid, timeoutMs, reqId)[1]);
    RequestHas(text, uid, timeoutMs, reqId, RequestMembers(uid, timeoutMs, reqId)[2]);
  }

  lemma RequestStrings(text: string, uid: nat, timeoutMs: nat, reqId: string)
    requires Hex(reqId) && text == Payload(uid, timeoutMs, reqId)
    ensures Has(text, "type", Str("auth")) && Has(text, "request_id", Str(reqId))
  {
    RequestHas(text, uid, timeoutMs, reqId, RequestMembers(uid, timeoutMs, reqId)[0]);
    RequestHas(text, uid, timeoutMs, reqId, RequestMembers(uid, timeoutMs, reqId)[3]);
  }

  /** The request asks about exactly the user it was made for. */
  lemma RequestReads(uid: nat, timeoutMs: nat, reqId: string)
    requires Hex(reqId)
    ensures Asks(Payload(uid, timeoutMs, reqId), uid, timeoutMs, reqId)
  {
    var text := Payload(uid, timeoutMs, reqId);
    RequestNumbers(text, uid, timeoutMs, reqId);
    RequestStrings(text, uid, timeoutMs, reqId);
    Decimal.ValueOfPrint(uid);
    Decimal.ValueOfPrint(timeoutMs);
  }

  /** And a text that asks about one user asks about no other. */
  lemma AsksOne(text: string, uid: nat, timeoutMs: nat, reqId: string, uid': nat, timeoutMs': nat, reqId': string)
    requires Asks(text, uid, timeoutMs, reqId) && Asks(text, uid', timeoutMs', reqId')
    ensures uid == uid' && timeoutMs == timeoutMs' && reqId == reqId'
  {
  }

  /** The request goes out as one frame. */
  method SendRequest(s: Socket, payload: string) returns (rc: int)
    requires 0 < |payload| < 256
    modifies s`script, s`outgoing
    ensures rc == 0 || rc == -1
    ensures rc == 0 ==> s.outgoing == old(s.outgoing) + FrameOf(payload)
    ensures Quiet(old(s.script)) ==> Quiet(s.script) && rc == 0
  {
    rc := WriteAll(s, BE32(|payload|));
    if rc < 0 {
      return;
    }
    rc := WriteAll(s, payload);
    assert old(s.outgoing) + BE32(|payload|) + payload == old(s.outgoing) + FrameOf(payload);
  }

  /** The length-prefixed response: rc = 0, and the bytes of its payload. */
  method ReceiveResponse(s: Socket) returns (rc: int, data: string)
    requires s.Valid()
    modifies s`script, s`pos
    ensures s.Valid()
    ensures rc == 0 || rc == -1
    ensures rc == 0 ==> Parse(s.incoming[old(s.pos)..], RECV_BUF_SIZE) == Frame(data, s.incoming[s.pos..])
    ensures Quiet(old(s.script)) ==> (rc == 0 <==> Parse(s.incoming[old(s.pos)..], RECV_BUF_SIZE).Frame?)
  {
    ghost var bytes := s.incoming[s.pos..];
    var head;
    rc, head := ReadAll(s, 4);
    data := "";
    if rc < 0 {
      return;
    }
    assert bytes[..4] == head;
    var rlen := FromBE32(head);
    if rlen == 0 || rlen > RECV_BUF_SIZE {
      return -1, "";
    }
    rc, data := ReadAll(s, rlen);
    if rc == 0 {
      assert bytes[4..4 + rlen] == data;
      assert bytes[4 + rlen..] == s.incoming[s.pos..];
    }
  }

  /** do_auth after connect_socket (connected: it gave a descriptor). */
  method DoAuth(connected: bool, s: Socket, uid: nat, opts: Opts, reqId: string, reasonOut: array<char>)
    returns (success: int)
    requires s.Valid() && uid < 0x1_0000_0000 && opts.timeoutMs <= 60000 && |reqId| <= 16 && Hex(reqId)
    modifies s`script, s`pos, s`outgoing, reasonOut
    ensures s.Valid()
    ensures success != -1 ==> connected && success == Reply(s.incoming[old(s.pos)..])
    ensures success != -1 ==> Asked(old(s.outgoing), s.outgoing, uid, opts.timeoutMs, reqId)
    ensures connected && Quiet(old(s.script)) ==> success == Reply(s.incoming[old(s.pos)..])
  {
    success := -1;
    if !connected {
      return;
    }
    var payload := Payload(uid, opts.timeoutMs, reqId);
    PayloadFits(uid, opts.timeoutMs, reqId);
    RequestReads(uid, opts.timeoutMs, reqId);
    if |payload| == 0 || |payload| >= 256 {
      return;
    }
    var rc := SendRequest(s, payload);
    if rc < 0 {
      return;
    }
    var data;
    rc, data := ReceiveResponse(s);
    if rc < 0 {
      return;
    }
    var resp := CString(data);
    JsonString(resp, "reason", reasonOut);
    success := JsonBool(resp, SUCCESS);
  }

  /** pam_sm_authenticate's verdict. */
  function Decide(userKnown: bool, success: int, opts: Opts, conv: Conversation): Verdict {
    if !userKnown then PamUserUnknown
    else if success == 1 then
      if opts.requireEnter && PromptEnter(conv) == 0 && !opts.allowNoConv then PamAuthinfoUnavail
      else if opts.requireEnter && PromptEnter(conv) < 0 then PamAuthinfoUnavail
      else PamSuccess
    else if success == 0 then PamAuthErr
    else PamAuthinfoUnavail
  }

  method Authenticate(userKnown: bool, connected: bool, s: Socket, uid: nat, opts: Opts, reqId: string, conv: Conversation)
    returns (v: Verdict)
    requires s.Valid() && uid < 0x1_0000_0000 && opts.timeoutMs <= 60000 && |reqId| <= 16 && Hex(reqId)
    modifies s`script, s`pos, s`outgoing
    ensures !userKnown ==> v == PamUserUnknown && s.outgoing == old(s.outgoing)
    ensures v == PamSuccess || v == PamAuthErr ==> v == Decide(userKnown, Reply(s.incoming[old(s.pos)..]), opts, conv)
    ensures v == PamSuccess || v == PamAuthErr ==> Asked(old(s.outgoing), s.outgoing, uid, opts.timeoutMs, reqId)
    ensures userKnown && !connected ==> v == PamAuthinfoUnavail
    ensures connected && Quiet(old(s.script)) ==> v == Decide(userKnown, Reply(s.incoming[old(s.pos)..]), opts, conv)
  {
    if !userKnown {
      return PamUserUnknown;
    }
    var reason := new char[64](_ => '\0');
    var success := DoAuth(connected, s, uid, opts, reqId, reason);
    if success == 1 {
      if opts.requireEnter {
        var ack := PromptEnter(conv);
        if ack == 0 {
          if !opts.allowNoConv {
            return PamAuthinfoUnavail;
          }
        } else if ack < 0 {
          return PamAuthinfoUnavail;
        }
      }
      return PamSuccess;
    }
    if success == 0 {
      return PamAuthErr;
    }
    return PamAuthinfoUnavail;
  }

  /** The presence gate lets a match through. */
  predicate Confirmed(opts: Opts, conv: Conversation) {
    !opts.requireEnter || conv.Acknowledged? || (opts.allowNoConv && !conv.ConvFailed?)
  }

  lemma ReplyWhole(text: string, tail: string)
    requires 1 <= |text| <= RECV_BUF_SIZE && '\0' !in text
    ensures Reply(FrameOf(text) + tail) == ScanBool(text, SUCCESS)
  {
    ParseFrame(text, tail, RECV_BUF_SIZE);
    CStringWhole(text);
  }

  lemma ReplyCut(text: string, cut: nat)
    requires 1 <= |text| < 0x1_0000_0000 && cut < |FrameOf(text)|
    ensures Reply(FrameOf(text)[..cut]) == -1
  {
    if |text| <= RECV_BUF_SIZE {
      CutFrame(text, cut, RECV_BUF_SIZE);
    } else if cut >= 4 {
      BE32RoundTrip(|text|);
      assert FrameOf(text)[..cut][..4] == BE32(|text|);
    }
  }

  lemma SerializeShape(r: Response)
    requires Printable(r)
    ensures |Serialize(r)| >= 1 && '\0' !in Serialize(r)
  {
    var ms := TokensOf(r);
    DumpShape(ms);
  }

  lemma TokensOf(r: Response) returns (ms: seq<Member>)
    requires Printable(r)
    ensures Tokens(ms) && Serialize(r) == Dump(ms)
  {
    ms := Members(r);
    assert Tokens(ms);
  }

  /** What the module makes of the text of response r, whatever follows it. */
  lemma ReplyTo(r: Response, text: string, tail: string)
    requires Printable(r) && |text| < 0x1_0000_0000
    ensures text == Serialize(r) ==>
              Reply(FrameOf(text) + tail) ==
              if |text| > RECV_BUF_SIZE || r.ErrorResponse? || Clashes(r, SUCCESS) then -1 else if r.success then 1 else 0
  {
    if text == Serialize(r) {
      SerializeShape(r);
      if |text| > RECV_BUF_SIZE {
        OversizedFrame(text, tail, RECV_BUF_SIZE);
      } else {
        ReplyWhole(text, tail);
        SuccessScan(r);
      }
    }
  }

  /** End to end: when the daemon sends the text of response r (and whatever after
      it), PAM grants exactly if r is an auth response that reports success, fits
      the buffer, no string printed before that field hides it, and the presence
      gate is passed; PAM denies exactly if the response reports failure and
      nothing hides that. */
  lemma GrantIff(r: Response, text: string, tail: string, opts: Opts, conv: Conversation)
    requires Printable(r) && |text| < 0x1_0000_0000
    ensures var v := Decide(true, Reply(FrameOf(text) + tail), opts, conv);
            var heard := r.AuthResponse? && |text| <= 8192 && !Clashes(r, SUCCESS);
            text == Serialize(r) ==>
              && (v == PamSuccess <==> heard && r.success && Confirmed(opts, conv))
              && (v == PamAuthErr <==> heard && !r.success)
  {
    ReplyTo(r, text, tail);
    DecideIs(Reply(FrameOf(text) + tail), opts, conv);
  }

  lemma DecideIs(success: int, opts: Opts, conv: Conversation)
    ensures Decide(true, success, opts, conv) == PamSuccess <==> success == 1 && Confirmed(opts, conv)
    ensures Decide(true, success, opts, conv) == PamAuthErr <==> success == 0
  {
  }

  /** A response cut short anywhere never grants or denies. */
  lemma NoPartialGrant(text: string, cut: nat, opts: Opts, conv: Conversation)
    requires 1 <= |text| < 0x1_0000_0000 && cut < |FrameOf(text)|
    ensures Decide(true, Reply(FrameOf(text)[..cut]), opts, conv) == PamAuthinfoUnavail
  {
    ReplyCut(text, cut);
  }
}
