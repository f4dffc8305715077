/** How the daemon prints its responses: compact JSON, object members in key
    order, strings escaped as section 7 of RFC 8259 asks (proto/messages.hpp).
    A character is one byte of UTF-8. */
module JsonText {

  datatype Value = Str(s: string) | Num(token: string) | Bool(b: bool)

  datatype Member = Member(key: string, value: Value)

  predicate Control(c: char) { c < ' ' }

  /** Escapes of one character. */
  function Esc(c: char): (e: string)
    ensures e != []
    ensures c == '\"' || c == '\\' || Control(c) ==> |e| >= 2 && e[0] == '\\'
    ensures !(c == '\"' || c == '\\' || Control(c)) ==> e == [c]
    ensures forall i :: 0 <= i < |e| && e[i] == '\"' ==> i == 1 && c == '\"'
    ensures '\0' !in e
  {
    if c == '\"' then ['\\', '\"']
    else if c == '\\' then ['\\', '\\']
    else if c == 8 as char then ['\\', 'b']
    else if c == 9 as char then ['\\', 't']
    else if c == 10 as char then ['\\', 'n']
    else if c == 12 as char then ['\\', 'f']
    else if c == 13 as char then ['\\', 'r']
    else if Control(c) then
      ['\\', 'u', '0', '0', if c as int >= 16 then '1' else '0', HexDigit(c as int % 16)]
    else [c]
  }

  function HexDigit(n: int): (c: char)
    requires 0 <= n < 16
    ensures c != '\"' && c != '\0'
  {
    if n < 10 then (n + '0' as int) as char else (n - 10 + 'a' as int) as char
  }

  function EscAll(v: string): string {
    if v == [] then [] else Esc(v[0]) + EscAll(v[1..])
  }

  function Quote(v: string): string { ['\"'] + EscAll(v) + ['\"'] }

  function PrintValue(v: Value): string {
    match v
    case Str(s) => Quote(s)
    case Num(t) => t
    case Bool(b) => if b then "true" else "false"
  }

  function PrintMember(m: Member): string { Quote(m.key) + ":" + PrintValue(m.value) }

  function PrintMembers(ms: seq<Member>): string {
    if ms == [] then ""
    else if |ms| == 1 then PrintMember(ms[0])
    else PrintMember(ms[0]) + "," + PrintMembers(ms[1..])
  }

  /** json::dump() of a flat object. */
  function Dump(ms: seq<Member>): string { "{" + PrintMembers(ms) + "}" }

  /** The two responses the auth socket gives. confidence and elapsed are number
      tokens. */
  datatype Response =
    | AuthResponse(requestId: string, success: bool, reason: string, matchedLabel: string,
                   confidence: string, elapsed: string)
    | ErrorResponse(errorId: string, errorReason: string, detail: string)

  /** to_json: the object holds its members sorted by key. */
  function Members(r: Response): seq<Member> {
    match r
    case AuthResponse(id, success, reason, matched, conf, elapsed) =>
      [Member("confidence", Num(conf)), Member("elapsed_ms", Num(elapsed)),
       Member("matched_label", Str(matched)), Member("reason", Str(reason)),
       Member("request_id", Str(id)), Member("success", Bool(success)),
       Member("type", Str("auth_result"))]
    case ErrorResponse(id, reason, detail) =>
      [Member("detail", Str(detail)), Member("reason", Str(reason)),
       Member("request_id", Str(id)), Member("type", Str("error"))]
  }

  function Serialize(r: Response): string { Dump(Members(r)) }

  /** A number token holds no quote (and, being text, no NUL). */
  predicate NumToken(t: string) { '\"' !in t && '\0' !in t }

  predicate Printable(r: Response) {
    r.AuthResponse? ==> NumToken(r.confidence) && NumToken(r.elapsed)
  }

  // ------------------------------------------------------------- escaping

  lemma {:induction false} EscAllNoNul(v: string)
    ensures '\0' !in EscAll(v)
    decreases |v|
  {
    if v == [] {
    } else {
      EscAllNoNul(v[1..]);
    }
  }

  /** Every number token in the object is one. */
  predicate Tokens(ms: seq<Member>) {
    forall i :: 0 <= i < |ms| ==> (ms[i].value.Num? ==> NumToken(ms[i].value.token))
  }

  /** A printed object holds no NUL, so as a C string it ends where it ends. */
  lemma {:induction false} MembersNoNul(ms: seq<Member>)
    requires Tokens(ms)
    ensures '\0' !in PrintMembers(ms)
    decreases |ms|
  {
    if ms == [] {
    } else {
      EscAllNoNul(ms[0].key);
      if ms[0].value.Str? {
        EscAllNoNul(ms[0].value.s);
      }
      assert '\0' !in PrintMember(ms[0]);
      MembersNoNul(ms[1..]);
    }
  }

  lemma DumpShape(ms: seq<Member>)
    requires Tokens(ms)
    ensures Dump(ms) != "" && '\0' !in Dump(ms)
  {
    MembersNoNul(ms);
  }
}
