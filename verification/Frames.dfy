/** Length-prefixed frames over a stream socket (common/ipc.cpp and the wire
    helpers of pam/pam_chowdy.c). A character stands for one byte. */
module Frames {

  const MAX_WRITE: nat := 0x4000_0000     // write_message's limit
  const RECV_BUF_SIZE: nat := 8192        // the PAM module's limit

  /** What the kernel does with one read or write: moves some bytes (at least
      one, unless the peer has closed), or fails. */
  datatype Event = Chunk(k: nat) | Interrupted | WouldBlock | Broken

  /** No timeout and no error ahead, only chunks and interrupted calls. */
  predicate Quiet(script: seq<Event>) {
    forall i :: 0 <= i < |script| ==> script[i].Chunk? || script[i].Interrupted?
  }

  datatype Call = Moved(bytes: string) | Wrote(n: nat) | Closed | EIntr | EAgain | EOther

  function Min(a: nat, b: nat): nat { if a < b then a else b }

  /** How many bytes a chunk event moves, n being asked for. */
  function Amount(e: Event, n: nat): nat {
    if e.Chunk? then Min(if e.k == 0 then 1 else e.k, n) else n
  }

  /** One end of a connected socket. incoming is everything the peer will send
      before it closes; an exhausted script moves as much as it can. */
  class Socket {
    var incoming: string
    var pos: nat
    var outgoing: string
    var script: seq<Event>

    ghost predicate Valid()
      reads this
    {
      pos <= |incoming|
    }

    constructor (incoming: string, script: seq<Event>)
      ensures Valid() && pos == 0 && outgoing == "" && this.incoming == incoming && this.script == script
    {
      this.incoming, pos, outgoing, this.script := incoming, 0, "", script;
    }

    method Next() returns (e: Event)
      modifies this`script
      ensures old(script) == [] ==> e == Chunk(0x7FFF_FFFF) && script == []
      ensures old(script) != [] ==> e == old(script)[0] && script == old(script)[1..]
    {
      e := Chunk(0x7FFF_FFFF);
      if script != [] {
        e := script[0];
        script := script[1..];
      }
    }

    /** read(2) and recv(2) */
    method Read(n: nat) returns (c: Call)
      requires Valid() && 0 < n <= 0x7FFF_FFFF
      modifies this`script, this`pos
      ensures Valid()
      ensures c.Moved? ==> 0 < |c.bytes| <= n && pos == old(pos) + |c.bytes| && c.bytes == incoming[old(pos)..pos]
      ensures !c.Moved? ==> pos == old(pos) && !c.Wrote?
      ensures c.Closed? ==> pos == |incoming|
      ensures c.EIntr? ==> |script| < |old(script)|
      ensures script == if old(script) == [] then [] else old(script)[1..]
      ensures Quiet(old(script)) ==> (c.Moved? || c.Closed? || c.EIntr?) && Quiet(script)
    {
      var e := Next();
      match e
      case Interrupted => c := EIntr;
      case WouldBlock => c := EAgain;
      case Broken => c := EOther;
      case Chunk(_) =>
        if pos == |incoming| {
          c := Closed;
        } else {
          var k := Min(Amount(e, n), |incoming| - pos);
          c := Moved(incoming[pos..pos + k]);
          pos := pos + k;
        }
    }

    /** write(2) and send(2) */
    method Write(bytes: string) returns (c: Call)
      requires 0 < |bytes| <= 0x7FFF_FFFF
      modifies this`script, this`outgoing
      ensures c.Wrote? ==> 0 < c.n <= |bytes| && outgoing == old(outgoing) + bytes[..c.n]
      ensures !c.Wrote? ==> outgoing == old(outgoing) && !c.Moved? && !c.Closed?
      ensures c.EIntr? ==> |script| < |old(script)|
      ensures script == if old(script) == [] then [] else old(script)[1..]
      ensures Quiet(old(script)) ==> (c.Wrote? || c.EIntr?) && Quiet(script)
    {
      var e := Next();
      match e
      case Interrupted => c := EIntr;
      case WouldBlock => c := EAgain;
      case Broken => c := EOther;
      case Chunk(_) =>
        var k := Amount(e, |bytes|);
        outgoing := outgoing + bytes[..k];
        c := Wrote(k);
    }
  }

  datatype IpcError = PeerClosed | Timeout | SysError | EmptyFrame | TooLarge

  datatype Result<+T> = Ok(value: T) | Err(error: IpcError)

  /** read_exact: n bytes of the stream, whatever the fragmentation; with nothing
      but chunks and interruptions ahead it fails exactly if the peer closes
      early. */
  method ReadExact(s: Socket, n: nat) returns (r: Result<string>)
    requires s.Valid() && n <= 0x7FFF_FFFF
    modifies s`script, s`pos
    ensures s.Valid()
    ensures r.Ok? ==> s.pos == old(s.pos) + n && r.value == s.incoming[old(s.pos)..s.pos]
    ensures r.Err? ==> old(s.pos) <= s.pos && s.pos - old(s.pos) < n && r.error in {PeerClosed, Timeout, SysError}
    ensures r == Err(PeerClosed) ==> s.pos == |s.incoming|
    ensures Quiet(old(s.script)) ==>
              Quiet(s.script) && (if old(s.pos) + n <= |s.incoming| then r.Ok? else r == Err(PeerClosed))
  {
    var buf := "";
    while |buf| < n
      invariant s.Valid() && |buf| <= n && s.pos == old(s.pos) + |buf|
      invariant buf == s.incoming[old(s.pos)..s.pos]
      invariant Quiet(old(s.script)) ==> Quiet(s.script)
      decreases n - |buf|, |s.script|
    {
      var c := s.Read(n - |buf|);
      match c
      case Moved(b) => buf := buf + b;
      case Closed => return Err(PeerClosed);
      case EIntr => // again
      case EAgain => return Err(Timeout);
      case _ => return Err(SysError);
    }
    return Ok(buf);
  }

  /** write_exact: all of the bytes, or an error after a proper prefix of them. */
  method WriteExact(s: Socket, bytes: string) returns (r: Result<()>)
    requires |bytes| <= 0x7FFF_FFFF
    modifies s`script, s`outgoing
    ensures r.Ok? ==> s.outgoing == old(s.outgoing) + bytes
    ensures r.Err? ==> exists k :: 0 <= k < |bytes| && s.outgoing == old(s.outgoing) + bytes[..k]
    ensures Quiet(old(s.script)) ==> Quiet(s.script) && r.Ok?
  {
    var sent := 0;
    assert bytes[..0] == "";
    while sent < |bytes|
      invariant 0 <= sent <= |bytes| && s.outgoing == old(s.outgoing) + bytes[..sent]
      invariant Quiet(old(s.script)) ==> Quiet(s.script)
      decreases |bytes| - sent, |s.script|
    {
      var c := s.Write(bytes[sent..]);
      match c
      case Wrote(k) =>
        assert bytes[..sent] + bytes[sent..][..k] == bytes[..sent + k];
        sent := sent + k;
      case EIntr => // again
      case EAgain => return Err(Timeout);
      case _ => return Err(SysError);
    }
    assert bytes[..sent] == bytes;
    return Ok(());
  }

  // ---------------------------------------------------------------- frames

  /** htonl, as four bytes. */
  function BE32(x: nat): (s: string)
    requires x < 0x1_0000_0000
    ensures |s| == 4
  {
    [(x / 0x100_0000) as char, (x / 0x1_0000 % 0x100) as char, (x / 0x100 % 0x100) as char, (x % 0x100) as char]
  }

  function FromBE32(s: string): nat
    requires |s| == 4
  {
    s[0] as nat * 0x100_0000 + s[1] as nat * 0x1_0000 + s[2] as nat * 0x100 + s[3] as nat
  }

  lemma BE32RoundTrip(x: nat)
    requires x < 0x1_0000_0000
    ensures FromBE32(BE32(x)) == x
  {
    assert x / 0x100 == (x / 0x1_0000) * 0x100 + x / 0x100 % 0x100;
    assert x / 0x1_0000 == (x / 0x100_0000) * 0x100 + x / 0x1_0000 % 0x100;
  }

  /** Network order: of two lengths the smaller comes first, byte by byte. */
  lemma BE32Order(x: nat, y: nat)
    requires x < y < 0x1_0000_0000
    ensures exists k :: 0 <= k < 4 && BE32(x)[..k] == BE32(y)[..k] && BE32(x)[k] < BE32(y)[k]
  {
    var a, b := BE32(x), BE32(y);
    BE32RoundTrip(x);
    BE32RoundTrip(y);
    var k := if a[0] != b[0] then 0 else if a[1] != b[1] then 1 else if a[2] != b[2] then 2 else 3;
    assert a[..k] == b[..k] && a[k] < b[k];
  }

  function FrameOf(payload: string): string
    requires |payload| < 0x1_0000_0000
  {
    BE32(|payload|) + payload
  }

  /** One frame off the front of a byte stream. Truncated: the stream ends first. */
  datatype Parsed = Frame(payload: string, rest: string) | Truncated | Empty | Oversized

  function Parse(bytes: string, max: nat): Parsed {
    if |bytes| < 4 then Truncated
    else
      var n := FromBE32(bytes[..4]);
      if n == 0 then Empty
      else if n > max then Oversized
      else if |bytes| - 4 < n then Truncated
      else Frame(bytes[4..4 + n], bytes[4 + n..])
  }

  /** A frame of no bytes is an error, not a message. */
  lemma ZeroFrame(tail: string, max: nat)
    ensures Parse(FrameOf("") + tail, max) == Empty
  {
    BE32RoundTrip(0);
    assert (FrameOf("") + tail)[..4] == BE32(0);
  }

  function Outcome(p: Parsed): Result<string> {
    match p
    case Frame(payload, _) => Ok(payload)
    case Truncated => Err(PeerClosed)
    case Empty => Err(EmptyFrame)
    case Oversized => Err(TooLarge)
  }

  /** read_message, up to the JSON parser (maxPayload is 2^20 unless the caller
      says otherwise): what it returns is the parse of what
      is left of the stream, and a frame it returns is consumed exactly. */
  method ReadMessage(s: Socket, maxPayload: nat) returns (r: Result<string>)
    requires s.Valid() && maxPayload <= 0x7FFF_FFFF
    modifies s`script, s`pos
    ensures s.Valid() && s.pos >= old(s.pos)
    ensures r.Ok? ==> Parse(s.incoming[old(s.pos)..], maxPayload) == Frame(r.value, s.incoming[s.pos..])
    ensures r.Err? && r.error !in {Timeout, SysError} ==> r == Outcome(Parse(s.incoming[old(s.pos)..], maxPayload))
    ensures Quiet(old(s.script)) ==> Quiet(s.script) && r == Outcome(Parse(s.incoming[old(s.pos)..], maxPayload))
  {
    ghost var bytes := s.incoming[s.pos..];
    ghost var p0 := s.pos;
    var head := ReadExact(s, 4);
    if head.Err? {
      return Err(head.error);
    }
    assert bytes[..4] == head.value;
    var len := FromBE32(head.value);
    if len == 0 {
      return Err(EmptyFrame);
    }
    if len > maxPayload {
      return Err(TooLarge);
    }
    r := ReadExact(s, len);
    if r.Ok? {
      Slices(s.incoming, p0, p0 + 4, s.pos);
    }
  }

  /** Parts of a suffix. */
  lemma Slices(s: string, a: nat, b: nat, c: nat)
    requires a <= b <= c <= |s|
    ensures s[a..][b - a..c - a] == s[b..c] && s[a..][c - a..] == s[c..]
  {
  }

  /** write_message, after dump(). */
  method WriteMessage(s: Socket, text: string) returns (r: Result<()>)
    modifies s`script, s`outgoing
    ensures |text| > MAX_WRITE ==> r == Err(TooLarge) && s.outgoing == old(s.outgoing)
    ensures r.Ok? ==> |text| <= MAX_WRITE && s.outgoing == old(s.outgoing) + FrameOf(text)
    ensures |text| <= MAX_WRITE && Quiet(old(s.script)) ==> r.Ok? && Quiet(s.script)
  {
    if |text| > MAX_WRITE {
      return Err(TooLarge);
    }
    r := WriteExact(s, BE32(|text|));
    if r.Err? {
      return;
    }
    r := WriteExact(s, text);
    assert old(s.outgoing) + BE32(|text|) + text == old(s.outgoing) + FrameOf(text);
  }

  // ------------------------------------------- what sender and receiver agree on

  predicate Sendable(payloads: seq<string>, max: nat) {
    forall i :: 0 <= i < |payloads| ==> 1 <= |payloads[i]| <= max
  }

  /** The bytes several messages leave on the wire. */
  function Wire(payloads: seq<string>, max: nat): string
    requires Sendable(payloads, max) && max < 0x1_0000_0000
  {
    if payloads == [] then "" else FrameOf(payloads[0]) + Wire(payloads[1..], max)
  }

  /** k frames, one after the other, and what is left. */
  function ParseMany(bytes: string, k: nat, max: nat): (seq<string>, string)
    decreases k, bytes
  {
    if k == 0 then ([], bytes)
    else
      match Parse(bytes, max)
      case Frame(p, rest) =>
        var (ps, left) := ParseMany(rest, k - 1, max);
        ([p] + ps, left)
      case _ => ([], bytes)
  }

  lemma ParseFrame(payload: string, tail: string, max: nat)
    requires 1 <= |payload| <= max < 0x1_0000_0000
    ensures Parse(FrameOf(payload) + tail, max) == Frame(payload, tail)
  {
    var b := FrameOf(payload) + tail;
    BE32RoundTrip(|payload|);
    assert b[..4] == BE32(|payload|);
    assert b[4..4 + |payload|] == payload;
    assert b[4 + |payload|..] == tail;
  }

  /** The receiver gets back exactly the messages sent, in order, and stops at
      the last frame's end. */
  lemma {:induction false} FramesRoundTrip(payloads: seq<string>, tail: string, max: nat)
    requires Sendable(payloads, max) && max < 0x1_0000_0000
    ensures ParseMany(Wire(payloads, max) + tail, |payloads|, max) == (payloads, tail)
    decreases |payloads|
  {
    if payloads == [] {
      assert Wire(payloads, max) + tail == tail;
    } else {
      var rest := Wire(payloads[1..], max) + tail;
      assert Wire(payloads, max) + tail == FrameOf(payloads[0]) + rest;
      ParseFrame(payloads[0], rest, max);
      FramesRoundTrip(payloads[1..], tail, max);
      assert [payloads[0]] + payloads[1..] == payloads;
    }
  }

  lemma {:induction false} WireSnoc(payloads: seq<string>, p: string, max: nat)
    requires Sendable(payloads + [p], max) && max < 0x1_0000_0000
    ensures Sendable(payloads, max) && 1 <= |p| <= max
    ensures Wire(payloads + [p], max) == Wire(payloads, max) + FrameOf(p)
    decreases |payloads|
  {
    var all := payloads + [p];
    assert all[|payloads|] == p;
    assert forall i :: 0 <= i < |payloads| ==> payloads[i] == all[i];
    if payloads == [] {
      assert all[1..] == [];
    } else {
      assert all[1..] == payloads[1..] + [p];
      WireSnoc(payloads[1..], p, max);
    }
  }

  /** write_message for each of several messages. */
  method SendMessages(s: Socket, payloads: seq<string>, max: nat) returns (r: Result<()>)
    requires Sendable(payloads, max) && max <= MAX_WRITE
    modifies s`script, s`outgoing
    ensures r.Ok? ==> s.outgoing == old(s.outgoing) + Wire(payloads, max)
    ensures Quiet(old(s.script)) ==> r.Ok? && Quiet(s.script)
  {
    var i := 0;
    while i < |payloads|
      invariant 0 <= i <= |payloads|
      invariant Sendable(payloads[..i], max) && s.outgoing == old(s.outgoing) + Wire(payloads[..i], max)
      invariant Quiet(old(s.script)) ==> Quiet(s.script)
    {
      r := WriteMessage(s, payloads[i]);
      if r.Err? {
        return;
      }
      assert payloads[..i + 1] == payloads[..i] + [payloads[i]];
      WireSnoc(payloads[..i], payloads[i], max);
      assert (old(s.outgoing) + Wire(payloads[..i], max)) + FrameOf(payloads[i])
          == old(s.outgoing) + Wire(payloads[..i + 1], max);
      i := i + 1;
    }
    assert payloads[..i] == payloads;
    r := Ok(());
  }

  /** read_message, n times. sent and tail: what the peer put on the wire. */
  method ReceiveMessages(s: Socket, n: nat, max: nat, ghost sent: seq<string>, ghost tail: string)
    returns (got: seq<string>, r: Result<()>)
    requires s.Valid() && Sendable(sent, max) && max <= 0x7FFF_FFFF && n == |sent|
    requires s.incoming[s.pos..] == Wire(sent, max) + tail
    modifies s`script, s`pos
    ensures s.Valid()
    ensures r.Ok? ==> got == sent && s.incoming[s.pos..] == tail
    ensures r.Err? ==> got <= sent
    ensures Quiet(old(s.script)) ==> r.Ok? && Quiet(s.script)
  {
    got := [];
    assert sent[0..] == sent;
    while |got| < n
      invariant s.Valid() && |got| <= n && got == sent[..|got|]
      invariant Sendable(sent[|got|..], max) && s.incoming[s.pos..] == Wire(sent[|got|..], max) + tail
      invariant Quiet(old(s.script)) ==> Quiet(s.script)
    {
      ghost var rest := sent[|got|..];
      NextFrame(rest, tail, max);
      var m := ReadMessage(s, max);
      if m.Err? {
        return got, Err(m.error);
      }
      assert sent[..|got| + 1] == sent[..|got|] + [sent[|got|]];
      assert rest[1..] == sent[|got| + 1..];
      got := got + [m.value];
    }
    assert Wire([], max) + tail == tail;
    r := Ok(());
  }

  lemma NextFrame(rest: seq<string>, tail: string, max: nat)
    requires rest != [] && Sendable(rest, max) && max < 0x1_0000_0000
    ensures Parse(Wire(rest, max) + tail, max) == Frame(rest[0], Wire(rest[1..], max) + tail)
  {
    assert Wire(rest, max) + tail == FrameOf(rest[0]) + (Wire(rest[1..], max) + tail);
    ParseFrame(rest[0], Wire(rest[1..], max) + tail, max);
  }

  /** Both ends together: however the kernel fragments the reads and the writes and
      interrupts them, the receiver gets exactly the messages that were sent, and
      stops at the end of the last. */
  method Transport(from: Socket, to: Socket, payloads: seq<string>, max: nat, ghost before: string, ghost tail: string)
    returns (got: seq<string>)
    requires to.Valid() && from != to && Sendable(payloads, max) && max <= MAX_WRITE
    requires Quiet(from.script) && Quiet(to.script) && from.outgoing == before
    requires to.incoming[to.pos..] == Wire(payloads, max) + tail
    modifies from`script, from`outgoing, to`script, to`pos
    ensures from.outgoing == before + Wire(payloads, max)
    ensures got == payloads && to.Valid() && to.incoming[to.pos..] == tail
  {
    var sent := SendMessages(from, payloads, max);
    var r;
    got, r := ReceiveMessages(to, |payloads|, max, payloads, tail);
  }

  /** A stream that ends anywhere inside a frame is an error, never a message. */
  lemma CutFrame(payload: string, cut: nat, max: nat)
    requires 1 <= |payload| <= max < 0x1_0000_0000 && cut < |FrameOf(payload)|
    ensures Parse(FrameOf(payload)[..cut], max) == Truncated
  {
    BE32RoundTrip(|payload|);
    if cut >= 4 {
      assert FrameOf(payload)[..cut][..4] == BE32(|payload|);
    }
  }

  /** A message the sender may send but the receiver will not take is refused by
      its length alone. */
  lemma OversizedFrame(payload: string, tail: string, max: nat)
    requires max < |payload| < 0x1_0000_0000
    ensures Parse(FrameOf(payload) + tail, max) == Oversized
  {
    BE32RoundTrip(|payload|);
    assert (FrameOf(payload) + tail)[..4] == BE32(|payload|);
  }

  // ------------------------------------------------- the PAM module's loops

  /** read_all of pam_chowdy.c: 0 or -1, advancing a pointer. */
  method ReadAll(s: Socket, n: nat) returns (rc: int, data: string)
    requires s.Valid() && n <= 0x7FFF_FFFF
    modifies s`script, s`pos
    ensures s.Valid() && s.pos >= old(s.pos) && (rc == 0 || rc == -1)
    ensures rc == 0 ==> s.pos == old(s.pos) + n && data == s.incoming[old(s.pos)..s.pos]
    ensures Quiet(old(s.script)) ==> Quiet(s.script) && (rc == 0 <==> old(s.pos) + n <= |s.incoming|)
  {
    data := "";
    var left := n;
    while left > 0
      invariant s.Valid() && 0 <= left <= n && s.pos == old(s.pos) + (n - left)
      invariant data == s.incoming[old(s.pos)..s.pos]
      invariant Quiet(old(s.script)) ==> Quiet(s.script)
      decreases left, |s.script|
    {
      var c := s.Read(left);
      if c.Closed? {
        return -1, data;
      }
      if !c.Moved? {
        if c.EIntr? {
          continue;
        }
        return -1, data;
      }
      data := data + c.bytes;
      left := left - |c.bytes|;
    }
    rc := 0;
  }

  /** write_all of pam_chowdy.c. */
  method WriteAll(s: Socket, data: string) returns (rc: int)
    requires |data| <= 0x7FFF_FFFF
    modifies s`script, s`outgoing
    ensures rc == 0 || rc == -1
    ensures rc == 0 ==> s.outgoing == old(s.outgoing) + data
    ensures Quiet(old(s.script)) ==> Quiet(s.script) && rc == 0
  {
    var p := data;
    ghost var sent := 0;
    assert data[..0] == "";
    while p != ""
      invariant 0 <= sent <= |data| && p == data[sent..]
      invariant s.outgoing == old(s.outgoing) + data[..sent]
      invariant Quiet(old(s.script)) ==> Quiet(s.script)
      decreases |p|, |s.script|
    {
      var c := s.Write(p);
      if !c.Wrote? {
        if c.EIntr? {
          continue;
        }
        return -1;
      }
      assert data[..sent] + p[..c.n] == data[..sent + c.n];
      p := p[c.n..];
      sent := sent + c.n;
    }
    assert data[..sent] == data;
    rc := 0;
  }
}
