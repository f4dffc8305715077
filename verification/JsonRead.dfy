/** A reader for the flat JSON objects that go over the sockets, following the
    grammar of RFC 8259 (sections 4, 6 and 7) for the compact form: what a JSON
    parser makes of what the programs print. A character is one byte. */
module JsonRead {
  import opened JsonText
  import opened Wrappers

  /** A value read off the front of a text, and the rest. */
  datatype Read<T> = Got(value: T, rest: string) | Bad

  // ---------------------------------------------------------------- strings

  predicate IsHex(c: char) { '0' <= c <= '9' || 'a' <= c <= 'f' || 'A' <= c <= 'F' }

  function HexValue(c: char): (n: nat)
    requires IsHex(c)
    ensures n < 16
  {
    if '0' <= c <= '9' then c as int - '0' as int
    else if 'a' <= c <= 'f' then c as int - 'a' as int + 10
    else c as int - 'A' as int + 10
  }

  /** The characters after a backslash that stand for one character. */
  function Named(c: char): Option<char> {
    if c == '\"' || c == '\\' || c == '/' then Some(c)
    else if c == 'b' then Some(8 as char)
    else if c == 'f' then Some(12 as char)
    else if c == 'n' then Some(10 as char)
    else if c == 'r' then Some(13 as char)
    else if c == 't' then Some(9 as char)
    else None
  }

  /** One character of a string, plain or escaped; of the numbered escapes only
      those below 0x80, which are one byte. */
  function ReadChar(t: string): (r: Read<char>)
    ensures r.Got? ==> |r.rest| < |t|
  {
    if t == "" || t[0] == '\"' || Control(t[0]) then Bad
    else if t[0] != '\\' then Got(t[0], t[1..])
    else if |t| < 2 then Bad
    else if Named(t[1]).Some? then Got(Named(t[1]).value, t[2..])
    else if t[1] == 'u' && |t| >= 6 && t[2] == '0' && t[3] == '0' && IsHex(t[4]) && IsHex(t[5]) && HexValue(t[4]) < 8 then
      Got((16 * HexValue(t[4]) + HexValue(t[5])) as char, t[6..])
    else Bad
  }

  /** The characters up to the closing quote. */
  function ReadChars(t: string): (r: Read<string>)
    ensures r.Got? ==> |r.rest| < |t|
    decreases |t|
  {
    if t != "" && t[0] == '\"' then Got("", t[1..])
    else
      var c := ReadChar(t);
      if c.Bad? then Bad
      else
        var more := ReadChars(c.rest);
        if more.Bad? then Bad else Got([c.value] + more.value, more.rest)
  }

  // ----------------------------------------------------------------- values

  predicate NumChar(c: char) { '0' <= c <= '9' || c == '-' || c == '+' || c == '.' || c == 'e' || c == 'E' }

  function NumLength(t: string): (n: nat)
    ensures n <= |t|
  {
    if t != "" && NumChar(t[0]) then 1 + NumLength(t[1..]) else 0
  }

  function ReadValue(t: string): (r: Read<Value>)
    ensures r.Got? ==> |r.rest| < |t|
  {
    if t != "" && t[0] == '\"' then
      var s := ReadChars(t[1..]);
      if s.Bad? then Bad else Got(Str(s.value), s.rest)
    else if NumLength(t) > 0 then Got(Num(t[..NumLength(t)]), t[NumLength(t)..])
    else if "true" <= t then Got(Bool(true), t[4..])
    else if "false" <= t then Got(Bool(false), t[5..])
    else Bad
  }

  // ---------------------------------------------------------------- objects

  function ReadMember(t: string): (r: Read<Member>)
    ensures r.Got? ==> |r.rest| < |t|
  {
    if t == "" || t[0] != '\"' then Bad
    else
      var k := ReadChars(t[1..]);
      if k.Bad? || k.rest == "" || k.rest[0] != ':' then Bad
      else
        var v := ReadValue(k.rest[1..]);
        if v.Bad? then Bad else Got(Member(k.value, v.value), v.rest)
  }

  function ReadMembers(t: string): Read<seq<Member>>
    decreases |t|
  {
    var m := ReadMember(t);
    if m.Bad? || m.rest == "" then Bad
    else if m.rest[0] == '}' then Got([m.value], m.rest[1..])
    else if m.rest[0] != ',' then Bad
    else
      var more := ReadMembers(m.rest[1..]);
      if more.Bad? then Bad else Got([m.value] + more.value, more.rest)
  }

  function ReadObject(t: string): Read<seq<Member>> {
    if t == "" || t[0] != '{' then Bad
    else if |t| > 1 && t[1] == '}' then Got([], t[2..])
    else ReadMembers(t[1..])
  }

  /** The value of the first member with this key. */
  function Find(ms: seq<Member>, key: string): Option<Value> {
    if ms == [] then None else if ms[0].key == key then Some(ms[0].value) else Find(ms[1..], key)
  }

  // ------------------------------------------------- reading what was printed

  lemma ReadsEscape(c: char, rest: string)
    ensures ReadChar(Esc(c) + rest) == Got(c, rest)
  {
    var e := Esc(c);
    var t := e + rest;
    assert forall i :: 0 <= i < |e| ==> t[i] == e[i];
    assert t[|e|..] == rest;
  }

  /** One character more in front. */
  lemma ReadsOneMore(c: char, u: string)
    ensures var more := ReadChars(u);
            ReadChars(Esc(c) + u) == if more.Bad? then Bad else Got([c] + more.value, more.rest)
  {
    ReadsEscape(c, u);
    assert (Esc(c) + u)[0] == Esc(c)[0];
  }

  lemma Regroup(a: string, b: string, c: string)
    ensures (a + b) + c == a + (b + c)
  {
  }

  lemma {:induction false} ReadsUpTo(v: string, end: string)
    requires end != "" && end[0] == '\"'
    ensures ReadChars(EscAll(v) + end) == Got(v, end[1..])
    decreases |v|
  {
    if v == "" {
      assert EscAll(v) + end == end;
    } else {
      Regroup(Esc(v[0]), EscAll(v[1..]), end);
      ReadsOneMore(v[0], EscAll(v[1..]) + end);
      ReadsUpTo(v[1..], end);
      assert [v[0]] + v[1..] == v;
    }
  }

  lemma ReadsString(v: string, rest: string)
    ensures ReadChars(EscAll(v) + ['\"'] + rest) == Got(v, rest)
  {
    Regroup(EscAll(v), ['\"'], rest);
    ReadsUpTo(v, ['\"'] + rest);
    assert (['\"'] + rest)[1..] == rest;
  }

  predicate IsNumber(t: string) { t != "" && forall i :: 0 <= i < |t| ==> NumChar(t[i]) }

  lemma {:induction false} ReadsNumber(t: string, rest: string)
    requires (forall i :: 0 <= i < |t| ==> NumChar(t[i])) && rest != "" && !NumChar(rest[0])
    ensures NumLength(t + rest) == |t|
    decreases |t|
  {
    if t == "" {
      assert t + rest == rest;
    } else {
      assert (t + rest)[1..] == t[1..] + rest;
      ReadsNumber(t[1..], rest);
    }
  }

  lemma ReadsStr(v: string, rest: string)
    ensures ReadValue(Quote(v) + rest) == Got(Str(v), rest)
  {
    assert (Quote(v) + rest)[1..] == EscAll(v) + ['\"'] + rest;
    ReadsString(v, rest);
  }

  lemma ReadsNum(n: string, rest: string)
    requires IsNumber(n) && rest != "" && !NumChar(rest[0])
    ensures ReadValue(n + rest) == Got(Num(n), rest)
  {
    ReadsNumber(n, rest);
    assert (n + rest)[0] == n[0] && (n + rest)[..|n|] == n && (n + rest)[|n|..] == rest;
  }

  lemma ReadsBool(b: bool, rest: string)
    ensures ReadValue(PrintValue(Bool(b)) + rest) == Got(Bool(b), rest)
  {
    var p := PrintValue(Bool(b));
    assert (p + rest)[0] == p[0] && (p + rest)[..|p|] == p && (p + rest)[|p|..] == rest;
    assert "false"[0] == 'f' && "true"[0] == 't';
  }

  lemma ReadsValue(v: Value, rest: string)
    requires (v.Num? ==> IsNumber(v.token)) && rest != "" && (rest[0] == ',' || rest[0] == '}')
    ensures ReadValue(PrintValue(v) + rest) == Got(v, rest)
  {
    match v
    case Str(s) => ReadsStr(s, rest);
    case Num(n) => ReadsNum(n, rest);
    case Bool(b) => ReadsBool(b, rest);
  }

  lemma KeyThenValue(k: string, v: string, rest: string)
    ensures (Quote(k) + ":" + v + rest)[1..] == EscAll(k) + ['\"'] + ([':'] + (v + rest))
    ensures (Quote(k) + ":" + v + rest)[0] == '\"'
    ensures ([':'] + (v + rest))[1..] == v + rest
  {
  }

  lemma ReadsMember(m: Member, rest: string)
    requires (m.value.Num? ==> IsNumber(m.value.token)) && rest != "" && (rest[0] == ',' || rest[0] == '}')
    ensures ReadMember(PrintMember(m) + rest) == Got(m, rest)
  {
    var v := PrintValue(m.value);
    KeyThenValue(m.key, v, rest);
    ReadsString(m.key, [':'] + (v + rest));
    ReadsValue(m.value, rest);
  }

  predicate Numbers(ms: seq<Member>) {
    forall i :: 0 <= i < |ms| ==> (ms[i].value.Num? ==> IsNumber(ms[i].value.token))
  }

  lemma LastMember(m: Member, rest: string)
    requires m.value.Num? ==> IsNumber(m.value.token)
    ensures ReadMembers(PrintMember(m) + (['}'] + rest)) == Got([m], rest)
  {
    ReadsMember(m, ['}'] + rest);
    assert (['}'] + rest)[1..] == rest;
  }

  lemma MoreMembers(m: Member, u: string)
    requires m.value.Num? ==> IsNumber(m.value.token)
    ensures var more := ReadMembers(u);
            ReadMembers(PrintMember(m) + ([','] + u)) == if more.Bad? then Bad else Got([m] + more.value, more.rest)
  {
    ReadsMember(m, [','] + u);
    assert ([','] + u)[1..] == u;
  }

  lemma {:induction false} ReadsMembers(ms: seq<Member>, rest: string)
    requires ms != [] && Numbers(ms)
    ensures ReadMembers(PrintMembers(ms) + (['}'] + rest)) == Got(ms, rest)
    decreases |ms|
  {
    var end := ['}'] + rest;
    if |ms| == 1 {
      LastMember(ms[0], rest);
      assert [ms[0]] == ms;
    } else {
      var a, b := PrintMember(ms[0]), PrintMembers(ms[1..]);
      assert PrintMembers(ms) + end == a + ([','] + (b + end)) by { Joined(a, b, end); }
      MoreMembers(ms[0], b + end);
      ReadsMembers(ms[1..], rest);
      assert [ms[0]] + ms[1..] == ms;
    }
  }

  lemma Joined(a: string, b: string, c: string)
    ensures (a + "," + b) + c == a + ([','] + (b + c))
  {
  }

  /** Whatever flat object is printed, a reader gets back its members, and stops at
      its end. */
  lemma ReadsDump(ms: seq<Member>, rest: string)
    requires Numbers(ms)
    ensures ReadObject(Dump(ms) + rest) == Got(ms, rest)
  {
    var t, end := Dump(ms) + rest, ['}'] + rest;
    if ms == [] {
      assert t[2..] == rest;
    } else {
      assert t[1] == PrintMember(ms[0])[0] == '\"';
      Unbrace(PrintMembers(ms), rest);
      ReadsMembers(ms, rest);
    }
  }

  lemma Unbrace(a: string, rest: string)
    ensures ("{" + a + "}" + rest)[1..] == a + (['}'] + rest)
  {
  }

  predicate AllApart(ms: seq<Member>) {
    forall i, j :: 0 <= i < j < |ms| ==> Apart(ms[i].key, ms[j].key)
  }

  /** Texts that differ in length or in their first character. */
  predicate Apart(a: string, b: string) { |a| != |b| || (a != "" && a[0] != b[0]) }

  lemma {:induction false} FindAt(ms: seq<Member>, i: nat)
    requires i < |ms| && forall j :: 0 <= j < i ==> Apart(ms[j].key, ms[i].key)
    ensures Find(ms, ms[i].key) == Some(ms[i].value)
  {
    if i > 0 {
      FindAt(ms[1..], i - 1);
    }
  }

  /** The text is one object, and under this key a reader finds this value. */
  predicate Has(t: string, key: string, v: Value) {
    var r := ReadObject(t);
    r.Got? && r.rest == "" && Find(r.value, key) == Some(v)
  }

  /** With all keys apart, a reader finds every printed value under its own key. */
  lemma DumpHas(t: string, ms: seq<Member>, m: Member)
    requires t == Dump(ms) && Numbers(ms) && m in ms && AllApart(ms)
    ensures Has(t, m.key, m.value)
  {
    assert t + "" == t;
    ReadsDump(ms, "");
    var i :| 0 <= i < |ms| && ms[i] == m;
    FindAt(ms, i);
  }

  /** An auth response is printed under keys all apart, each field under its own. */
  lemma AuthFields(r: Response, ms: seq<Member>)
    requires r.AuthResponse? && ms == Members(r)
    ensures AllApart(ms) && (IsNumber(r.confidence) && IsNumber(r.elapsed) ==> Numbers(ms))
    ensures Member("type", Str("auth_result")) in ms && Member("request_id", Str(r.requestId)) in ms
    ensures Member("success", Bool(r.success)) in ms && Member("reason", Str(r.reason)) in ms
    ensures Member("matched_label", Str(r.matchedLabel)) in ms
    ensures Member("confidence", Num(r.confidence)) in ms && Member("elapsed_ms", Num(r.elapsed)) in ms
  {
    AuthKeysApart(r, ms);
    assert ms[0] in ms && ms[1] in ms && ms[2] in ms && ms[3] in ms && ms[4] in ms && ms[5] in ms && ms[6] in ms;
  }

  lemma AuthKeysApart(r: Response, ms: seq<Member>)
    requires r.AuthResponse? && ms == Members(r)
    ensures AllApart(ms)
  {
    var firsts, lengths := "cemrrst", [10, 10, 13, 6, 10, 7, 4];
    assert forall i :: 0 <= i < |ms| ==> |ms[i].key| == lengths[i] && ms[i].key[0] == firsts[i];
  }

  /** So is an error response. */
  lemma ErrorFields(r: Response, ms: seq<Member>)
    requires r.ErrorResponse? && ms == Members(r)
    ensures AllApart(ms) && Numbers(ms)
    ensures Member("type", Str("error")) in ms && Member("request_id", Str(r.errorId)) in ms
    ensures Member("reason", Str(r.errorReason)) in ms && Member("detail", Str(r.detail)) in ms
  {
    var firsts, lengths := "drrt", [6, 6, 10, 4];
    assert forall i :: 0 <= i < |ms| ==> |ms[i].key| == lengths[i] && ms[i].key[0] == firsts[i];
    assert ms[0] in ms && ms[1] in ms && ms[2] in ms && ms[3] in ms;
  }
}
