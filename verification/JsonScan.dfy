/** The PAM module's way of reading a response (pam/pam_chowdy.c): strstr for the
    quoted key, skip a few characters, compare. Text is a C string without its
    terminating NUL. */
module JsonScan {
  import opened JsonText
  import opened Wrappers

  // ------------------------------------------------------ what is computed

  predicate StartsWith(text: string, p: string) { p <= text }

  /** What follows the first occurrence of needle (strstr, then p += strlen). */
  function After(text: string, needle: string): Option<string> {
    if StartsWith(text, needle) then Some(text[|needle|..])
    else if text == [] then None
    else After(text[1..], needle)
  }

  function Needle(key: string): string { ['\"'] + key + ['\"'] }

  predicate Skippable(c: char) { c == ' ' || c == ':' || c == '\t' }

  function Skip(text: string): string {
    if text != [] && Skippable(text[0]) then Skip(text[1..]) else text
  }

  /** strncmp against the two literals. */
  function Truth(text: string): int {
    if StartsWith(text, "true") then 1
    else if StartsWith(text, "false") then 0
    else -1
  }

  function ScanBool(json: string, key: string): int {
    match After(json, Needle(key))
    case None => -1
    case Some(rest) => Truth(Skip(rest))
  }

  /** The copying loop of json_string: room counts the terminating NUL. */
  function Unescape(text: string, room: nat): string {
    if text == [] || text[0] == '\"' || room <= 1 then ""
    else if text[0] == '\\' && |text| > 1 then [text[1]] + Unescape(text[2..], room - 1)
    else [text[0]] + Unescape(text[1..], room - 1)
  }

  function ScanString(json: string, key: string, room: nat): string {
    match After(json, Needle(key))
    case None => ""
    case Some(rest) => QuotedAt(Skip(rest), room)
  }

  /** The string literal a text starts with. */
  function QuotedAt(t: string, room: nat): string {
    if t == [] || t[0] != '\"' then "" else Unescape(t[1..], room)
  }

  /** Whatever stands between a key and its value of blanks, tabs and colons, and
      nothing else, is skipped. */
  lemma {:induction false} SkipIs(gap: string, rest: string)
    requires forall i :: 0 <= i < |gap| ==> gap[i] == ' ' || gap[i] == ':' || gap[i] == '\t'
    requires rest == "" || (rest[0] != ' ' && rest[0] != ':' && rest[0] != '\t')
    ensures Skip(gap + rest) == rest
    decreases |gap|
  {
    if gap == "" {
      assert gap + rest == rest;
    } else {
      assert (gap + rest)[1..] == gap[1..] + rest;
      SkipIs(gap[1..], rest);
    }
  }

  // -------------------------------------------------------- the loops in C

  predicate OccursAt(text: string, needle: string, i: int) {
    0 <= i && i + |needle| <= |text| && text[i..i + |needle|] == needle
  }

  lemma OccursStarts(text: string, needle: string, i: nat)
    requires i <= |text|
    ensures OccursAt(text, needle, i) <==> StartsWith(text[i..], needle)
    ensures OccursAt(text, needle, i) ==> text[i..][|needle|..] == text[i + |needle|..]
  {
    if i + |needle| <= |text| {
      assert text[i..][..|needle|] == text[i..i + |needle|];
    }
  }

  /** strstr, by position: the first occurrence, -1 if there is none. */
  method StrStr(text: string, needle: string) returns (at: int)
    ensures at == -1 <==> After(text, needle).None?
    ensures at != -1 ==> OccursAt(text, needle, at) && After(text, needle) == Some(text[at + |needle|..])
    ensures forall i :: OccursAt(text, needle, i) ==> at != -1 && at <= i
  {
    at := 0;
    assert text[0..] == text;
    while true
      invariant 0 <= at <= |text|
      invariant After(text, needle) == After(text[at..], needle)
      invariant forall i :: OccursAt(text, needle, i) ==> at <= i
      decreases |text| - at
    {
      OccursStarts(text, needle, at);
      if |text| - at >= |needle| && text[at..at + |needle|] == needle {
        return;
      }
      if at == |text| {
        return -1;
      }
      assert text[at..][1..] == text[at + 1..];
      at := at + 1;
    }
  }

  /** strncmp(p, lit, strlen(lit)) == 0 */
  method Agrees(text: string, p: nat, lit: string) returns (b: bool)
    requires p <= |text|
    ensures b <==> StartsWith(text[p..], lit)
  {
    OccursStarts(text, lit, p);
    b := |text| - p >= |lit| && text[p..p + |lit|] == lit;
  }

  method SkipFrom(text: string, from: nat) returns (p: nat)
    requires from <= |text|
    ensures from <= p <= |text| && text[p..] == Skip(text[from..])
  {
    p := from;
    while p < |text| && Skippable(text[p])
      invariant from <= p <= |text|
      invariant Skip(text[from..]) == Skip(text[p..])
    {
      assert text[p..][1..] == text[p + 1..];
      p := p + 1;
    }
  }

  method JsonBool(json: string, key: string) returns (r: int)
    ensures r == ScanBool(json, key)
  {
    var needle := Needle(key);
    var at := StrStr(json, needle);
    if at == -1 {
      return -1;
    }
    var p := SkipFrom(json, at + |needle|);
    var yes := Agrees(json, p, "true");
    if yes {
      return 1;
    }
    var no := Agrees(json, p, "false");
    if no {
      return 0;
    }
    return -1;
  }

  lemma UnescapeStep(json: string, p: nat, room: nat)
    requires p < |json| && json[p] != '\"' && room > 1
    ensures var q := if json[p] == '\\' && p + 1 < |json| then p + 1 else p;
            Unescape(json[p..], room) == [json[q]] + Unescape(json[q + 1..], room - 1)
  {
    assert json[p..][0] == json[p];
    assert json[p..][1..] == json[p + 1..];
    if json[p] == '\\' && p + 1 < |json| {
      assert json[p..][1] == json[p + 1] && json[p..][2..] == json[p + 2..];
    }
  }

  /** The buffer holds the NUL-terminated string s. */
  predicate CStringIn(out: array<char>, s: string)
    reads out
  {
    |s| < out.Length && out[..|s|] == s && out[|s|] == '\0'
  }

  /** What is scanned once the key is found and the gap behind it skipped. */
  lemma ScanStringAt(json: string, key: string, p: nat, room: nat)
    requires p <= |json|
    requires After(json, Needle(key)).Some? && json[p..] == Skip(After(json, Needle(key)).value)
    ensures ScanString(json, key, room) ==
            if p == |json| || json[p] != '\"' then "" else Unescape(json[p + 1..], room)
  {
    if p < |json| {
      assert json[p..][1..] == json[p + 1..];
    }
  }

  /** out: the caller's buffer; a zero-length one is left alone. */
  method JsonString(json: string, key: string, out: array<char>)
    modifies out
    ensures out.Length > 0 ==> CStringIn(out, ScanString(json, key, out.Length))
  {
    if out.Length == 0 {
      return;
    }
    out[0] := '\0';
    assert CStringIn(out, "");
    var needle := Needle(key);
    var at := StrStr(json, needle);
    if at == -1 {
      return;
    }
    var p := SkipFrom(json, at + |needle|);
    ScanStringAt(json, key, p, out.Length);
    if p == |json| || json[p] != '\"' {
      return;
    }
    CopyOut(json, p + 1, out);
  }

  /** The copying loop of json_string and the NUL after it. */
  method CopyOut(json: string, from: nat, out: array<char>)
    requires from <= |json| && out.Length > 0
    modifies out
    ensures CStringIn(out, Unescape(json[from..], out.Length))
  {
    ghost var all := Unescape(json[from..], out.Length);
    ghost var done := "";
    var p, i := from, 0;
    while p < |json| && json[p] != '\"' && i + 1 < out.Length
      invariant from <= p <= |json| && 0 <= i < out.Length
      invariant out[..i] == done
      invariant all == done + Unescape(json[p..], out.Length - i)
      decreases |json| - p
    {
      UnescapeStep(json, p, out.Length - i);
      if json[p] == '\\' && p + 1 < |json| {
        p := p + 1;
      }
      Reassociate(done, json[p], Unescape(json[p + 1..], out.Length - i - 1));
      out[i] := json[p];
      assert out[..i] == done;
      done := done + [json[p]];
      i, p := i + 1, p + 1;
    }
    assert Unescape(json[p..], out.Length - i) == "";
    out[i] := '\0';
    assert out[..i] == done;
    assert all == done;
  }

  lemma Reassociate(a: string, c: char, b: string)
    ensures a + ([c] + b) == (a + [c]) + b
  {
  }

  // ---------------------------------------------- which strings are found

  /** A key the scanner can be asked for: nothing in it would be escaped, and it
      does not start like the text after a closing quote. */
  predicate PlainKey(key: string) {
    && key != "" && key[0] != ':' && key[0] != ',' && key[0] != '}'
    && forall i :: 0 <= i < |key| ==> key[i] != '\"' && key[i] != '\\' && !Control(key[i])
  }

  /** A printed string v gives the scanner an occurrence of the quoted key. */
  predicate Matches(v: string, key: string) {
    v == key || EndsQuoted(v, key)
  }

  /** v ends in a quote followed by the key. */
  predicate EndsQuoted(v: string, key: string) {
    |v| > |key| && v[|v| - |key| - 1..] == ['\"'] + key
  }

  predicate HitsAtOpening(v: string, key: string, rest: string) {
    StartsWith(EscAll(v) + ['\"'] + rest, key + ['\"'])
  }

  lemma {:induction false} OpeningHit(v: string, key: string, rest: string)
    requires forall i :: 0 <= i < |key| ==> key[i] != '\"' && key[i] != '\\' && !Control(key[i])
    ensures HitsAtOpening(v, key, rest) <==> v == key
    decreases |v|
  {
    var t := EscAll(v) + ['\"'] + rest;
    var n := key + ['\"'];
    if v == [] {
      assert t[0] == '\"';
      if key != [] {
        assert n[0] == key[0];
      }
    } else {
      var u := EscAll(v[1..]) + ['\"'] + rest;
      assert t == Esc(v[0]) + u;
      assert t[0] == Esc(v[0])[0];
      if key == [] {
        assert n[0] == '\"';
      } else {
        assert n[0] == key[0];
        if Esc(v[0]) == [v[0]] {
          OpeningHit(v[1..], key[1..], rest);
          var n1 := key[1..] + ['\"'];
          assert n == [key[0]] + n1 && t == [v[0]] + u;
          assert StartsWith(t, n) <==> key[0] == v[0] && StartsWith(u, n1) by {
            PrefixCons(v[0], u, key[0], n1);
          }
          if v[1..] == key[1..] && v[0] == key[0] {
            assert v == [v[0]] + v[1..] && key == [key[0]] + key[1..];
          }
        }
      }
    }
  }

  lemma PrefixCons(c: char, t: string, d: char, n: string)
    ensures StartsWith([c] + t, [d] + n) <==> c == d && StartsWith(t, n)
  {
    if StartsWith([c] + t, [d] + n) {
      assert ([c] + t)[0] == ([d] + n)[0];
      assert t == ([c] + t)[1..] && n == ([d] + n)[1..];
      assert forall i :: 0 <= i < |n| ==> n[i] == ([d] + n)[i + 1] == ([c] + t)[i + 1] == t[i];
    }
    if c == d && StartsWith(t, n) {
      assert forall i :: 0 <= i < |n| ==> ([d] + n)[i + 1] == n[i] == t[i] == ([c] + t)[i + 1];
    }
  }

  /** A character that is not a quote starts no occurrence. */
  lemma SkipChar(c: char, text: string, key: string)
    requires c != '\"'
    ensures After([c] + text, Needle(key)) == After(text, Needle(key))
  {
    assert Needle(key)[0] == '\"';
    assert ([c] + text)[1..] == text;
  }

  lemma {:induction false} SkipText(gap: string, text: string, key: string)
    requires '\"' !in gap
    ensures After(gap + text, Needle(key)) == After(text, Needle(key))
    decreases |gap|
  {
    if gap == [] {
      assert gap + text == text;
    } else {
      assert gap + text == [gap[0]] + (gap[1..] + text);
      SkipChar(gap[0], gap[1..] + text, key);
      SkipText(gap[1..], text, key);
    }
  }

  /** At a quote followed by the rest of a printed string. */
  lemma AtQuote(v: string, key: string, rest: string)
    requires PlainKey(key)
    ensures var t := EscAll(v) + ['\"'] + rest;
            After(['\"'] + t, Needle(key)) == if v == key then Some(rest) else After(t, Needle(key))
  {
    var t := EscAll(v) + ['\"'] + rest;
    OpeningHit(v, key, rest);
    assert Needle(key) == ['\"'] + (key + ['\"']);
    PrefixCons('\"', t, '\"', key + ['\"']);
    assert (['\"'] + t)[1..] == t;
    if v == key {
      PlainEsc(key);
      assert ['\"'] + t == Needle(key) + rest;
    }
  }

  lemma {:induction false} PlainEsc(v: string)
    requires forall i :: 0 <= i < |v| ==> v[i] != '\"' && v[i] != '\\' && !Control(v[i])
    ensures EscAll(v) == v
    decreases |v|
  {
    if v == [] {
    } else {
      PlainEsc(v[1..]);
    }
  }

  /** The closing quote of a printed string starts no occurrence. */
  lemma ClosingQuote(key: string, rest: string)
    requires PlainKey(key) && rest != [] && rest[0] != key[0]
    ensures After(['\"'] + rest, Needle(key)) == After(rest, Needle(key))
  {
    var t := ['\"'] + rest;
    assert !StartsWith(t, Needle(key)) by {
      assert Needle(key)[1] == key[0] && t[1] == rest[0];
    }
    assert t[1..] == rest;
  }

  /** The inside and the closing quote of a printed string. */
  lemma {:induction false} InsideString(v: string, key: string, rest: string)
    requires PlainKey(key) && rest != [] && rest[0] != key[0]
    ensures After(EscAll(v) + ['\"'] + rest, Needle(key)) ==
            if EndsQuoted(v, key) then Some(rest) else After(rest, Needle(key))
    decreases |v|
  {
    if v == [] {
      ClosingQuote(key, rest);
      assert EscAll(v) + ['\"'] + rest == ['\"'] + rest;
    } else {
      var w := v[1..];
      InsideString(w, key, rest);
      EndsQuotedCons(v, key);
      FirstChar(v, key, rest);
      if v[0] == '\"' && w == key {
        assert !EndsQuoted(w, key);
      }
    }
  }

  /** The scan over the escape of one character. */
  lemma FirstChar(v: string, key: string, rest: string)
    requires PlainKey(key) && v != []
    ensures After(EscAll(v) + ['\"'] + rest, Needle(key)) ==
            if v[0] == '\"' && v[1..] == key then Some(rest)
            else After(EscAll(v[1..]) + ['\"'] + rest, Needle(key))
  {
    var u := EscAll(v[1..]) + ['\"'] + rest;
    assert EscAll(v) + ['\"'] + rest == Esc(v[0]) + u;
    if v[0] == '\"' {
      assert Esc(v[0]) + u == ['\\'] + (['\"'] + u);
      SkipChar('\\', ['\"'] + u, key);
      AtQuote(v[1..], key, rest);
    } else {
      SkipText(Esc(v[0]), u, key);
    }
  }

  lemma EndsQuotedCons(v: string, key: string)
    requires v != []
    ensures EndsQuoted(v, key) <==> (v[0] == '\"' && v[1..] == key) || EndsQuoted(v[1..], key)
  {
    var w := v[1..];
    if |v| == |key| + 1 {
      assert v == [v[0]] + w;
      assert v[|v| - |key| - 1..] == v;
      if v[0] == '\"' && w == key {
        assert v == ['\"'] + key;
      }
      if v == ['\"'] + key {
        assert w == (['\"'] + key)[1..] == key;
      }
    } else if |v| > |key| + 1 {
      assert v[|v| - |key| - 1..] == w[|w| - |key| - 1..];
    }
  }

  /** A whole printed string: found exactly if it Matches, and then the scan goes
      on right behind its closing quote. */
  lemma QuotedString(v: string, key: string, rest: string)
    requires PlainKey(key) && rest != [] && rest[0] != key[0]
    ensures After(Quote(v) + rest, Needle(key)) ==
            if Matches(v, key) then Some(rest) else After(rest, Needle(key))
  {
    assert Quote(v) + rest == ['\"'] + (EscAll(v) + ['\"'] + rest);
    AtQuote(v, key, rest);
    InsideString(v, key, rest);
  }

  // -------------------------------------------------- scanning an object

  /** What the first matching string of an object, in print order, is. */
  datatype Hit = Miss | KeyHit(value: Value) | ValueHit

  function FirstHit(ms: seq<Member>, key: string): Hit {
    if ms == [] then Miss
    else if Matches(ms[0].key, key) then KeyHit(ms[0].value)
    else if ms[0].value.Str? && Matches(ms[0].value.s, key) then ValueHit
    else FirstHit(ms[1..], key)
  }

  /** The printed members from the first on, with the closing brace. */
  function TailText(ms: seq<Member>): string { PrintMembers(ms) + "}" }

  /** What stands behind the value of the first member. */
  function Behind(ms: seq<Member>): string
    requires ms != []
  {
    if |ms| == 1 then "}" else "," + TailText(ms[1..])
  }

  lemma TailOf(ms: seq<Member>)
    requires ms != []
    ensures TailText(ms) == Quote(ms[0].key) + (":" + (PrintValue(ms[0].value) + Behind(ms)))
  {
    if |ms| > 1 {
      assert PrintMember(ms[0]) + "," + PrintMembers(ms[1..]) + "}"
          == Quote(ms[0].key) + (":" + (PrintValue(ms[0].value) + ("," + (PrintMembers(ms[1..]) + "}"))));
    } else {
      assert PrintMember(ms[0]) + "}" == Quote(ms[0].key) + (":" + (PrintValue(ms[0].value) + "}"));
    }
  }

  /** The scan of a value and the colon before it. */
  lemma ScanValue(v: Value, key: string, rest: string)
    requires PlainKey(key) && (v.Num? ==> NumToken(v.token)) && rest != [] && rest[0] != key[0]
    ensures After(":" + (PrintValue(v) + rest), Needle(key)) ==
            if v.Str? && Matches(v.s, key) then Some(rest) else After(rest, Needle(key))
  {
    SkipText(":", PrintValue(v) + rest, key);
    if v.Str? {
      QuotedString(v.s, key, rest);
    } else {
      SkipText(PrintValue(v), rest, key);
    }
  }

  /** The scan of the first member. */
  lemma ScanFirst(ms: seq<Member>, key: string)
    requires PlainKey(key) && Tokens(ms) && ms != []
    ensures var v, rest := ms[0].value, Behind(ms);
            After(TailText(ms), Needle(key)) ==
              if Matches(ms[0].key, key) then Some(":" + (PrintValue(v) + rest))
              else if v.Str? && Matches(v.s, key) then Some(rest)
              else After(rest, Needle(key))
  {
    var v, rest := ms[0].value, Behind(ms);
    assert rest[0] == if |ms| == 1 then '}' else ',';
    var text := ":" + (PrintValue(v) + rest);
    assert TailText(ms) == Quote(ms[0].key) + text by { TailOf(ms); }
    assert text[0] == ':';
    QuotedString(ms[0].key, key, text);
    ScanValue(v, key, rest);
  }

  /** The scan over what separates it from the next. */
  lemma ScanBehind(ms: seq<Member>, key: string)
    requires PlainKey(key) && ms != []
    ensures After(Behind(ms), Needle(key)) == if |ms| == 1 then None else After(TailText(ms[1..]), Needle(key))
  {
    if |ms| == 1 {
      assert Behind(ms) == "}" + "";
      SkipText("}", "", key);
    } else {
      SkipText(",", TailText(ms[1..]), key);
    }
  }

  /** Where the scan of an object stops. */
  lemma {:induction false} ScanMembers(ms: seq<Member>, key: string) returns (rest: string)
    requires PlainKey(key) && Tokens(ms)
    ensures match FirstHit(ms, key)
            case Miss => After(TailText(ms), Needle(key)) == None
            case KeyHit(v) =>
              && After(TailText(ms), Needle(key)) == Some(":" + (PrintValue(v) + rest))
              && rest != [] && (rest[0] == ',' || rest[0] == '}')
            case ValueHit =>
              && After(TailText(ms), Needle(key)) == Some(rest)
              && rest != [] && (rest[0] == ',' || rest[0] == '}')
    decreases |ms|
  {
    rest := "}";
    if ms == [] {
      assert TailText(ms) == "}" + "";
      SkipText("}", "", key);
    } else {
      rest := Behind(ms);
      assert rest[0] == if |ms| == 1 then '}' else ',';
      ScanFirst(ms, key);
      ScanBehind(ms, key);
      var v := ms[0].value;
      if Matches(ms[0].key, key) {
        assert FirstHit(ms, key) == KeyHit(v);
      } else if v.Str? && Matches(v.s, key) {
        assert FirstHit(ms, key) == ValueHit;
      } else {
        assert FirstHit(ms, key) == FirstHit(ms[1..], key);
        if |ms| == 1 {
          assert FirstHit(ms[1..], key) == Miss;
        } else {
          rest := ScanMembers(ms[1..], key);
        }
      }
    }
  }

  lemma DumpScan(ms: seq<Member>, key: string)
    requires PlainKey(key)
    ensures After(Dump(ms), Needle(key)) == After(TailText(ms), Needle(key))
  {
    assert Dump(ms) == "{" + TailText(ms);
    SkipText("{", TailText(ms), key);
  }

  // ------------------------------------------------------------- json_bool

  lemma SkipColon(text: string)
    requires text != [] && !Skippable(text[0])
    ensures Skip(":" + text) == text
  {
  }

  lemma TruthOf(b: bool, rest: string)
    ensures Truth(PrintValue(Bool(b)) + rest) == if b then 1 else 0
  {
    if !b {
      assert ("false" + rest)[0] == 'f' && "true"[0] == 't';
    }
  }

  /** json_bool on any printed object: the value of the boolean member if the
      first matching string is its key, "not found" if it is a string value, or
      if there is none. */
  lemma BoolOfObject(ms: seq<Member>, key: string)
    requires PlainKey(key) && Tokens(ms)
    requires FirstHit(ms, key).KeyHit? ==> !FirstHit(ms, key).value.Num?
    ensures ScanBool(Dump(ms), key) ==
            match FirstHit(ms, key)
            case Miss => -1
            case ValueHit => -1
            case KeyHit(v) => if v == Bool(true) then 1 else if v == Bool(false) then 0 else -1
  {
    DumpScan(ms, key);
    var rest := ScanMembers(ms, key);
    match FirstHit(ms, key)
    case Miss =>
    case ValueHit =>
      assert Skip(rest) == rest;
      assert "true"[0] == 't' && "false"[0] == 'f';
    case KeyHit(v) =>
      if v.Bool? {
        TruthOf(v.b, rest);
        assert (PrintValue(v) + rest)[0] == PrintValue(v)[0];
        SkipColon(PrintValue(v) + rest);
      } else {
        SkipColon(PrintValue(v) + rest);
        assert "true"[0] == 't' && "false"[0] == 'f';
      }
  }

  // ----------------------------------------------------------- json_string

  /** What is left of an escaped character when only the backslash is dropped. */
  function PlainChar(c: char): (p: string)
    ensures p != []
  {
    if |Esc(c)| > 1 then Esc(c)[1..] else Esc(c)
  }

  function Plain(v: string): string {
    if v == [] then "" else PlainChar(v[0]) + Plain(v[1..])
  }

  function Take(s: string, n: nat): string { if |s| <= n then s else s[..n] }

  lemma TakeAppend(p: string, t: string, n: nat)
    ensures Take(p + t, n) == if |p| >= n then p[..n] else p + Take(t, n - |p|)
  {
  }

  /** Strings without control characters survive unharmed. */
  lemma {:induction false} PlainIsIdentity(v: string)
    requires forall i :: 0 <= i < |v| ==> !Control(v[i])
    ensures Plain(v) == v
    decreases |v|
  {
    if v == [] {
    } else {
      PlainIsIdentity(v[1..]);
      assert v == [v[0]] + v[1..];
    }
  }

  lemma {:induction false} CopyText(t: string, text: string, room: nat)
    requires room >= 1 && forall i :: 0 <= i < |t| ==> t[i] != '\"' && t[i] != '\\'
    ensures Unescape(t + text, room) == if |t| >= room - 1 then t[..room - 1] else t + Unescape(text, room - |t|)
    decreases |t|
  {
    if t == [] {
      assert t + text == text;
      if room == 1 {
        assert Unescape(text, 1) == "";
      }
    } else if room > 1 {
      assert (t + text)[1..] == t[1..] + text;
      CopyText(t[1..], text, room - 1);
      if |t| >= room - 1 {
        assert [t[0]] + t[1..][..room - 2] == t[..room - 1];
      } else {
        assert [t[0]] + (t[1..] + Unescape(text, room - |t|)) == t + Unescape(text, room - |t|);
      }
    }
  }

  lemma EscShape(c: char)
    ensures var e := Esc(c);
            if |e| == 1 then e[0] != '\"' && e[0] != '\\'
            else e[0] == '\\' && forall i :: 2 <= i < |e| ==> e[i] != '\"' && e[i] != '\\'
  {
  }

  lemma BackslashStep(s: string, room: nat)
    requires room > 1 && |s| > 1 && s[0] == '\\'
    ensures Unescape(s, room) == [s[1]] + Unescape(s[2..], room - 1)
  {
  }

  /** The copying loop over a backslash and what it escapes. */
  lemma CopyEscaped(e: string, text: string, room: nat)
    requires room >= 1 && |e| >= 2 && e[0] == '\\'
    requires forall i :: 2 <= i < |e| ==> e[i] != '\"' && e[i] != '\\'
    ensures Unescape(e + text, room) ==
            if |e| - 1 >= room - 1 then e[1..][..room - 1] else e[1..] + Unescape(text, room - (|e| - 1))
  {
    if room > 1 {
      var rest := e[2..];
      BackslashStep(e + text, room);
      assert (e + text)[1] == e[1] && (e + text)[2..] == rest + text;
      CopyText(rest, text, room - 1);
      assert e[1..] == [e[1]] + rest;
      if |rest| >= room - 2 {
        assert [e[1]] + rest[..room - 2] == e[1..][..room - 1];
      } else {
        Reassociate([], e[1], rest + Unescape(text, room - 1 - |rest|));
      }
    } else {
      assert Unescape(e + text, 1) == "";
    }
  }

  /** The copying loop over the escape of one character. */
  lemma CopyEscape(c: char, text: string, room: nat)
    requires room >= 1
    ensures var p := PlainChar(c);
            Unescape(Esc(c) + text, room) == if |p| >= room - 1 then p[..room - 1] else p + Unescape(text, room - |p|)
  {
    EscShape(c);
    var e := Esc(c);
    if |e| == 1 {
      CopyText(e, text, room);
    } else {
      CopyEscaped(e, text, room);
    }
  }

  lemma UnescapeCons(c: char, text: string, plain: string, room: nat)
    requires room >= 1
    requires |PlainChar(c)| < room - 1 ==> Unescape(text, room - |PlainChar(c)|) == Take(plain, room - |PlainChar(c)| - 1)
    ensures Unescape(Esc(c) + text, room) == Take(PlainChar(c) + plain, room - 1)
  {
    CopyEscape(c, text, room);
    TakeAppend(PlainChar(c), plain, room - 1);
  }

  lemma EscSplit(v: string, rest: string)
    ensures v == [] ==> EscAll(v) + ['\"'] + rest == ['\"'] + rest
    ensures v != [] ==> EscAll(v) + ['\"'] + rest == Esc(v[0]) + (EscAll(v[1..]) + ['\"'] + rest)
  {
  }

  lemma {:induction false} UnescapeString(v: string, rest: string, room: nat)
    requires room >= 1
    ensures Unescape(EscAll(v) + ['\"'] + rest, room) == Take(Plain(v), room - 1)
    decreases |v|
  {
    EscSplit(v, rest);
    if v == [] {
      assert (['\"'] + rest)[0] == '\"';
    } else {
      var u := EscAll(v[1..]) + ['\"'] + rest;
      if |PlainChar(v[0])| < room - 1 {
        UnescapeString(v[1..], rest, room - |PlainChar(v[0])|);
      }
      UnescapeCons(v[0], u, Plain(v[1..]), room);
    }
  }

  lemma QuotedValue(v: string, rest: string, room: nat)
    requires room >= 1
    ensures QuotedAt(Skip(":" + (Quote(v) + rest)), room) == Take(Plain(v), room - 1)
  {
    var text := Quote(v) + rest;
    SkipColon(text);
    assert text[1..] == EscAll(v) + ['\"'] + rest;
    UnescapeString(v, rest, room);
  }

  lemma StringOfObject(ms: seq<Member>, key: string, room: nat)
    requires PlainKey(key) && Tokens(ms) && room >= 1
    requires FirstHit(ms, key).KeyHit? ==> FirstHit(ms, key).value.Str?
    ensures ScanString(Dump(ms), key, room) ==
            match FirstHit(ms, key)
            case KeyHit(v) => Take(Plain(v.s), room - 1)
            case _ => ""
  {
    DumpScan(ms, key);
    var rest := ScanMembers(ms, key);
    match FirstHit(ms, key)
    case Miss =>
    case ValueHit =>
      assert Skip(rest) == rest;
    case KeyHit(v) =>
      QuotedValue(v.s, rest, room);
  }

  // -------------------------------------------- the responses PAM can read

  /** A string printed before the success member that the scan stops at. */
  predicate Clashes(r: Response, key: string) {
    match r
    case AuthResponse(id, _, reason, matched, _, _) =>
      Matches(matched, key) || (key == "success" && (Matches(reason, key) || Matches(id, key)))
    case ErrorResponse(_, _, detail) => Matches(detail, key)
  }

  lemma NameMatches(v: string, key: string)
    requires '\"' !in v
    ensures Matches(v, key) <==> v == key
  {
    assert |v| > |key| ==> v[|v| - |key| - 1..][0] == v[|v| - |key| - 1];
  }

  lemma FirstHitCons(m: Member, rest: seq<Member>, key: string)
    ensures FirstHit([m] + rest, key) ==
            if Matches(m.key, key) then KeyHit(m.value)
            else if m.value.Str? && Matches(m.value.s, key) then ValueHit
            else FirstHit(rest, key)
  {
    assert ([m] + rest)[1..] == rest;
  }

  /** The strings the daemon itself puts in: keys and type tags. */
  predicate OwnName(v: string) {
    v in ["confidence", "elapsed_ms", "matched_label", "reason", "request_id", "success", "type", "detail",
          "auth_result", "error"]
  }

  lemma MemberNames(key: string)
    ensures forall v :: OwnName(v) ==> (Matches(v, key) <==> v == key)
  {
    forall v | OwnName(v) ensures Matches(v, key) <==> v == key {
      NameMatches(v, key);
    }
  }

  /** The members of an auth response from "reason" on. */
  function LaterMembers(r: Response): seq<Member>
    requires r.AuthResponse?
  {
    [Member("reason", Str(r.reason)), Member("request_id", Str(r.requestId)), Member("success", Bool(r.success)),
     Member("type", Str("auth_result"))]
  }

  lemma LaterHits(r: Response, key: string)
    requires r.AuthResponse? && key in {"success", "reason"}
    ensures FirstHit(LaterMembers(r), key) ==
            if key == "reason" then KeyHit(Str(r.reason))
            else if Matches(r.reason, key) || Matches(r.requestId, key) then ValueHit
            else KeyHit(Bool(r.success))
  {
    MemberNames(key);
    var m3, m4 := Member("reason", Str(r.reason)), Member("request_id", Str(r.requestId));
    var m5, l6 := Member("success", Bool(r.success)), [Member("type", Str("auth_result"))];
    var l5 := [m5] + l6;
    var l4 := [m4] + l5;
    FirstHitCons(m5, l6, key);
    FirstHitCons(m4, l5, key);
    FirstHitCons(m3, l4, key);
    assert LaterMembers(r) == [m3] + l4;
  }

  /** The members of an auth response up to matched_label. */
  lemma AuthMembers(r: Response, key: string)
    requires r.AuthResponse?
    requires !Matches("confidence", key) && !Matches("elapsed_ms", key) && !Matches("matched_label", key)
    ensures FirstHit(Members(r), key) ==
            if Matches(r.matchedLabel, key) then ValueHit else FirstHit(LaterMembers(r), key)
  {
    var m0, m1 := Member("confidence", Num(r.confidence)), Member("elapsed_ms", Num(r.elapsed));
    var m2, l3 := Member("matched_label", Str(r.matchedLabel)), LaterMembers(r);
    var l2 := [m2] + l3;
    var l1 := [m1] + l2;
    FirstHitCons(m2, l3, key);
    FirstHitCons(m1, l2, key);
    FirstHitCons(m0, l1, key);
    assert Members(r) == [m0] + l1;
  }

  lemma ForeignName(name: string, key: string)
    requires '\"' !in name && |name| > |key|
    ensures !Matches(name, key)
  {
    NameMatches(name, key);
  }

  lemma AuthHits(r: Response, key: string)
    requires r.AuthResponse? && key in {"success", "reason"}
    ensures FirstHit(Members(r), key) ==
            if Matches(r.matchedLabel, key) then ValueHit else FirstHit(LaterMembers(r), key)
  {
    assert |key| <= 7;
    ForeignName("confidence", key);
    ForeignName("elapsed_ms", key);
    ForeignName("matched_label", key);
    AuthMembers(r, key);
  }

  lemma ErrorHits(r: Response, key: string)
    requires r.ErrorResponse? && key in {"success", "reason"}
    ensures key == "success" ==> FirstHit(Members(r), key) in {Miss, ValueHit}
    ensures key == "reason" ==>
              FirstHit(Members(r), key) == if Matches(r.detail, key) then ValueHit else KeyHit(Str(r.errorReason))
  {
    MemberNames(key);
    var m0, m1 := Member("detail", Str(r.detail)), Member("reason", Str(r.errorReason));
    var m2, m3 := Member("request_id", Str(r.errorId)), Member("type", Str("error"));
    var l3 := [m3];
    var l2 := [m2] + l3;
    var l1 := [m1] + l2;
    assert l3 == [m3] + [];
    FirstHitCons(m3, [], key);
    FirstHitCons(m2, l3, key);
    FirstHitCons(m1, l2, key);
    FirstHitCons(m0, l1, key);
    assert Members(r) == [m0] + l1;
  }

  lemma KeysArePlain()
    ensures PlainKey("success") && PlainKey("reason")
  {
  }

  lemma SuccessHit(r: Response)
    ensures var hit := FirstHit(Members(r), "success");
            if r.ErrorResponse? || Clashes(r, "success") then hit in {Miss, ValueHit} else hit == KeyHit(Bool(r.success))
  {
    if r.AuthResponse? {
      AuthHits(r, "success");
      LaterHits(r, "success");
    } else {
      ErrorHits(r, "success");
    }
  }

  /** json_bool(resp, "success") on what the daemon sends: the field's value,
      unless the label, the reason or the request id equals `success` or ends in
      `"success`; then, and for every error response, "not found". It is never
      the opposite of the field. */
  lemma SuccessScan(r: Response)
    requires Printable(r)
    ensures ScanBool(Serialize(r), "success") ==
            if r.ErrorResponse? || Clashes(r, "success") then -1 else if r.success then 1 else 0
  {
    KeysArePlain();
    SuccessHit(r);
    BoolOfObject(Members(r), "success");
  }

  /** json_string(resp, "reason") gives the reason, cut to the buffer and with
      control characters spelled out, unless a string printed before it clashes;
      then it is empty. */
  lemma ReasonScan(r: Response, room: nat)
    requires Printable(r) && room >= 1
    ensures ScanString(Serialize(r), "reason", room) ==
            if Clashes(r, "reason") then ""
            else Take(Plain(if r.AuthResponse? then r.reason else r.errorReason), room - 1)
  {
    KeysArePlain();
    if r.AuthResponse? {
      AuthHits(r, "reason");
      LaterHits(r, "reason");
    } else {
      ErrorHits(r, "reason");
    }
    StringOfObject(Members(r), "reason", room);
  }
}
