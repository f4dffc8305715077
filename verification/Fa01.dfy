/** The FA01 enrollment file (common/encoding.cpp, common/encoding.hpp): what
    save_enrollment writes and what load_enrollment makes of any byte string.
    Floats are stored and compared as their 32-bit patterns. */
module Fa01 {
  import opened Wrappers

  type byte = b: int | 0 <= b < 0x100
  type u16 = x: int | 0 <= x < 0x1_0000
  type u32 = x: int | 0 <= x < 0x1_0000_0000
  type u64 = x: int | 0 <= x < 0x1_0000_0000_0000_0000

  const EMB_DIM: nat := 512
  const FILE_MAGIC: u32 := 0x31304146
  const FILE_VERSION: u16 := 1
  const MAX_EMBEDDINGS: nat := 1000
  const HEADER: nat := 26

  /** EnrollmentFile. threshold and the embedding entries are float bit patterns. */
  datatype Enrollment = Enrollment(embedderId: u32, created: u64, threshold: u32, embeddings: seq<seq<u32>>)

  // -------------------------------------------------- little-endian integers

  function Pow256(k: nat): (p: nat)
    ensures p >= 1
  {
    if k == 0 then 1 else 256 * Pow256(k - 1)
  }

  function LE(x: nat, k: nat): (s: seq<byte>)
    ensures |s| == k
    decreases k, x
  {
    if k == 0 then [] else [x % 256] + LE(x / 256, k - 1)
  }

  function FromLE(s: seq<byte>): nat
  {
    if s == [] then 0 else s[0] + 256 * FromLE(s[1..])
  }

  lemma {:induction false} LERoundTrip(x: nat, k: nat)
    requires x < Pow256(k)
    ensures FromLE(LE(x, k)) == x
    decreases k
  {
    if k == 0 {
    } else {
      assert LE(x, k)[1..] == LE(x / 256, k - 1);
      LERoundTrip(x / 256, k - 1);
    }
  }

  /** The low bytes come first. */
  lemma {:induction false} LowBytesFirst(x: nat, k: nat, j: nat)
    requires j <= k
    ensures FromLE(LE(x, k)[..j]) == x % Pow256(j)
    decreases j
  {
    if j > 0 {
      assert LE(x, k)[..j][1..] == LE(x / 256, k - 1)[..j - 1];
      LowBytesFirst(x / 256, k - 1, j - 1);
      ModSteps(x, Pow256(j - 1));
    }
  }

  lemma ModSteps(x: nat, p: nat)
    requires p >= 1
    ensures x % (256 * p) == x % 256 + 256 * (x / 256 % p)
  {
    var q, r := x / 256, x % 256;
    var a, b := q / p, q % p;
    assert q == p * a + b;
    assert x == (256 * p) * a + (256 * b + r) by {
      assert 256 * (p * a) == (256 * p) * a;
    }
    assert 0 <= 256 * b + r < 256 * p;
    Remainder(256 * p, a, 256 * b + r);
  }

  lemma Remainder(d: nat, q: nat, r: nat)
    requires r < d
    ensures (d * q + r) % d == r
  {
    var n := d * q + r;
    var k, m := n / d, n % d;
    assert d * (q - k) == m - r;
    Multiple(d, q - k);
  }

  lemma Multiple(d: nat, e: int)
    ensures e >= 1 ==> d * e >= d
    ensures e <= -1 ==> d * e + d <= 0
  {
  }

  lemma {:induction false} FromLEBound(s: seq<byte>)
    ensures FromLE(s) < Pow256(|s|)
    decreases |s|
  {
    if s == [] {
    } else {
      FromLEBound(s[1..]);
    }
  }

  lemma Widths()
    ensures Pow256(2) == 0x1_0000 && Pow256(4) == 0x1_0000_0000 && Pow256(8) == 0x1_0000_0000_0000_0000
  {
  }

  // -------------------------------------------------------- the file's bytes

  function Floats(v: seq<u32>): (s: seq<byte>)
    ensures |s| == 4 * |v|
  {
    if v == [] then [] else LE(v[0], 4) + Floats(v[1..])
  }

  function AllFloats(vs: seq<seq<u32>>): seq<byte> {
    if vs == [] then [] else Floats(vs[0]) + AllFloats(vs[1..])
  }

  function Created(e: Enrollment, now: u64): u64 { if e.created != 0 then e.created else now }

  /** The 32-bit count that is stored. */
  function Count(e: Enrollment): u32 { |e.embeddings| % 0x1_0000_0000 }

  /** The six fields of a header, whatever their values. */
  function Fields(magic: u32, ver: u16, created: u64, id: u32, thr: u32, n: u32): (s: seq<byte>)
    ensures |s| == HEADER
  {
    LE(magic, 4) + LE(ver, 2) + LE(created, 8) + LE(id, 4) + LE(thr, 4) + LE(n, 4)
  }

  function Header(e: Enrollment, now: u64): (s: seq<byte>)
    ensures |s| == HEADER
  {
    Fields(FILE_MAGIC, FILE_VERSION, Created(e, now), e.embedderId, e.threshold, Count(e))
  }

  predicate RightDims(e: Enrollment) {
    forall i :: 0 <= i < |e.embeddings| ==> |e.embeddings[i]| == EMB_DIM
  }

  /** The whole file. now stands in for a zero creation time. */
  function Encode(e: Enrollment, now: u64): seq<byte> {
    Header(e, now) + AllFloats(e.embeddings)
  }

  // ------------------------------------------------------------- reading back

  function ReadFloats(s: seq<byte>): (v: seq<u32>)
    requires |s| % 4 == 0
    ensures |s| == 4 * |v|
  {
    if s == [] then []
    else
      FromLEBound(s[..4]); Widths();
      [FromLE(s[..4])] + ReadFloats(s[4..])
  }

  const VECTOR: nat := 4 * EMB_DIM

  /** n vectors off the front of s. */
  function ReadVectors(s: seq<byte>, n: nat): Option<seq<seq<u32>>>
    decreases n, s
  {
    if n == 0 then Some([])
    else if |s| < VECTOR then None
    else
      match ReadVectors(s[VECTOR..], n - 1)
      case None => None
      case Some(vs) => Some([ReadFloats(s[..VECTOR])] + vs)
  }

  function Field(s: seq<byte>, from: nat, width: nat): (x: nat)
    requires from + width <= |s|
    ensures x < Pow256(width)
  {
    FromLEBound(s[from..from + width]);
    FromLE(s[from..from + width])
  }

  /** load_enrollment, on the bytes of the file. */
  function Decode(s: seq<byte>): Option<Enrollment> {
    if |s| < HEADER then None
    else
      Widths();
      var n := Field(s, 22, 4);
      if Field(s, 0, 4) != FILE_MAGIC || Field(s, 4, 2) != FILE_VERSION || n == 0 || n > MAX_EMBEDDINGS then None
      else
        match ReadVectors(s[HEADER..], n)
        case None => None
        case Some(vs) => Some(Enrollment(Field(s, 14, 4), Field(s, 6, 8), Field(s, 18, 4), vs))
  }

  // ---------------------------------------------------------------- lemmas

  lemma {:induction false} FloatsRoundTrip(v: seq<u32>)
    ensures ReadFloats(Floats(v)) == v
    decreases |v|
  {
    if v == [] {
    } else {
      var s := Floats(v);
      assert s[..4] == LE(v[0], 4) && s[4..] == Floats(v[1..]);
      Widths();
      LERoundTrip(v[0], 4);
      FloatsRoundTrip(v[1..]);
    }
  }

  lemma {:induction false} AllFloatsLength(vs: seq<seq<u32>>)
    requires forall i :: 0 <= i < |vs| ==> |vs[i]| == EMB_DIM
    ensures |AllFloats(vs)| == VECTOR * |vs|
    decreases |vs|
  {
    if vs == [] {
    } else {
      AllFloatsLength(vs[1..]);
    }
  }

  /** Vectors come back from a byte string that starts with them, whatever
      follows; and not from anything shorter. */
  lemma {:induction false} VectorsRoundTrip(vs: seq<seq<u32>>, tail: seq<byte>)
    requires forall i :: 0 <= i < |vs| ==> |vs[i]| == EMB_DIM
    ensures ReadVectors(AllFloats(vs) + tail, |vs|) == Some(vs)
    decreases |vs|
  {
    if vs == [] {
    } else {
      var s := AllFloats(vs) + tail;
      assert s[..VECTOR] == Floats(vs[0]);
      assert s[VECTOR..] == AllFloats(vs[1..]) + tail;
      FloatsRoundTrip(vs[0]);
      VectorsRoundTrip(vs[1..], tail);
      assert vs == [vs[0]] + vs[1..];
    }
  }

  lemma {:induction false} VectorsNeedLength(s: seq<byte>, n: nat)
    ensures ReadVectors(s, n).Some? <==> |s| >= VECTOR * n
    decreases n
  {
    if n == 0 {
    } else if |s| < VECTOR {
    } else {
      VectorsNeedLength(s[VECTOR..], n - 1);
    }
  }

  lemma FieldAt(s: seq<byte>, from: nat, width: nat, x: nat)
    requires from + width <= |s| && x < Pow256(width)
    requires s[from..from + width] == LE(x, width)
    ensures Field(s, from, width) == x
  {
    LERoundTrip(x, width);
  }

  lemma FieldsRead(magic: u32, ver: u16, created: u64, id: u32, thr: u32, n: u32, tail: seq<byte>)
    ensures var s := Fields(magic, ver, created, id, thr, n) + tail;
            && Field(s, 0, 4) == magic && Field(s, 4, 2) == ver && Field(s, 6, 8) == created
            && Field(s, 14, 4) == id && Field(s, 18, 4) == thr && Field(s, 22, 4) == n
            && s[HEADER..] == tail
  {
    Widths();
    var s := Fields(magic, ver, created, id, thr, n) + tail;
    assert s[0..4] == LE(magic, 4);
    assert s[4..6] == LE(ver, 2);
    assert s[6..14] == LE(created, 8);
    assert s[14..18] == LE(id, 4);
    assert s[18..22] == LE(thr, 4);
    assert s[22..26] == LE(n, 4);
    FieldAt(s, 0, 4, magic);
    FieldAt(s, 4, 2, ver);
    FieldAt(s, 6, 8, created);
    FieldAt(s, 14, 4, id);
    FieldAt(s, 18, 4, thr);
    FieldAt(s, 22, 4, n);
  }

  lemma HeaderFields(e: Enrollment, now: u64, tail: seq<byte>)
    ensures var s := Header(e, now) + tail;
            && Field(s, 0, 4) == FILE_MAGIC && Field(s, 4, 2) == FILE_VERSION
            && Field(s, 6, 8) == Created(e, now)
            && Field(s, 14, 4) == e.embedderId && Field(s, 18, 4) == e.threshold
            && Field(s, 22, 4) == Count(e)
            && s[HEADER..] == tail
  {
    FieldsRead(FILE_MAGIC, FILE_VERSION, Created(e, now), e.embedderId, e.threshold, Count(e), tail);
  }

  /** A saved file is 26 + 2048 n bytes long. It loads exactly when it holds
      between 1 and 1000 embeddings, and then gives back what was saved (with the
      clock in place of a zero creation time); trailing bytes change nothing. */
  lemma RoundTrip(e: Enrollment, now: u64, tail: seq<byte>)
    requires RightDims(e) && |e.embeddings| < 0x1_0000_0000
    ensures |Encode(e, now)| == HEADER + VECTOR * |e.embeddings|
    ensures Decode(Encode(e, now) + tail) ==
            if 1 <= |e.embeddings| <= MAX_EMBEDDINGS
            then Some(if e.created != 0 then e else e.(created := now)) else None
  {
    AllFloatsLength(e.embeddings);
    var head, floats := Header(e, now), AllFloats(e.embeddings);
    assert (head + floats) + tail == head + (floats + tail);
    var s := head + (floats + tail);
    assert Count(e) == |e.embeddings|;
    assert ReadVectors(s[HEADER..], |e.embeddings|) == Some(e.embeddings) by {
      VectorsRoundTrip(e.embeddings, tail);
      assert s[HEADER..] == floats + tail;
    }
    HeaderFields(e, now, floats + tail);
    DecodeParts(s, Created(e, now), e.embedderId, e.threshold, |e.embeddings|, e.embeddings);
  }

  lemma DecodeParts(s: seq<byte>, created: u64, id: u32, thr: u32, n: nat, vs: seq<seq<u32>>)
    requires |s| >= HEADER && Field(s, 0, 4) == FILE_MAGIC && Field(s, 4, 2) == FILE_VERSION
    requires Field(s, 6, 8) == created && Field(s, 14, 4) == id && Field(s, 18, 4) == thr && Field(s, 22, 4) == n
    requires ReadVectors(s[HEADER..], n) == Some(vs)
    ensures Decode(s) == if 1 <= n <= MAX_EMBEDDINGS then Some(Enrollment(id, created, thr, vs)) else None
  {
  }

  lemma DecodeNeeds(s: seq<byte>)
    requires |s| >= HEADER && Decode(s).Some?
    ensures |s| >= HEADER + VECTOR * Field(s, 22, 4)
  {
    VectorsNeedLength(s[HEADER..], Field(s, 22, 4));
  }

  lemma PrefixCount(e: Enrollment, now: u64, cut: nat)
    requires HEADER <= cut <= |Encode(e, now)|
    ensures Field(Encode(e, now)[..cut], 22, 4) == Count(e)
  {
    var data := AllFloats(e.embeddings)[..cut - HEADER];
    assert Encode(e, now)[..cut] == Header(e, now) + data;
    HeaderFields(e, now, data);
  }

  /** A file cut anywhere short of its end is rejected. */
  lemma ProperPrefixRejected(e: Enrollment, now: u64, cut: nat)
    requires RightDims(e) && |e.embeddings| < 0x1_0000_0000
    requires cut < |Encode(e, now)|
    ensures Decode(Encode(e, now)[..cut]).None?
  {
    var s := Encode(e, now)[..cut];
    AllFloatsLength(e.embeddings);
    if cut >= HEADER && Decode(s).Some? {
      PrefixCount(e, now, cut);
      DecodeNeeds(s);
    }
  }

  lemma {:induction false} VectorsWellFormed(s: seq<byte>, n: nat)
    requires ReadVectors(s, n).Some?
    ensures var vs := ReadVectors(s, n).value;
            |vs| == n && forall i :: 0 <= i < n ==> |vs[i]| == EMB_DIM
    decreases n
  {
    if n > 0 {
      VectorsWellFormed(s[VECTOR..], n - 1);
    }
  }

  /** Whatever loads, from whatever bytes, is well formed; and saving it again
      gives a file that loads to the same enrollment. */
  lemma LoadedResaves(s: seq<byte>, now: u64)
    requires Decode(s).Some?
    ensures var e := Decode(s).value;
            && RightDims(e) && 1 <= |e.embeddings| <= MAX_EMBEDDINGS
            && |s| >= HEADER + VECTOR * |e.embeddings|
            && (e.created != 0 ==> Decode(Encode(e, now)) == Some(e))
  {
    Widths();
    var n := Field(s, 22, 4);
    VectorsWellFormed(s[HEADER..], n);
    VectorsNeedLength(s[HEADER..], n);
    var e := Decode(s).value;
    RoundTrip(e, now, []);
    assert Encode(e, now) + [] == Encode(e, now);
  }

  // ------------------------------------------------- which bytes load, exactly

  lemma {:induction false} LEInverse(t: seq<byte>)
    ensures LE(FromLE(t), |t|) == t
    decreases |t|
  {
    if t != [] {
      assert FromLE(t) == t[0] + 256 * FromLE(t[1..]);
      LEInverse(t[1..]);
    }
  }

  lemma {:induction false} FloatsInverse(t: seq<byte>)
    requires |t| % 4 == 0
    ensures Floats(ReadFloats(t)) == t
    decreases |t|
  {
    if t != [] {
      LEInverse(t[..4]);
      FloatsInverse(t[4..]);
      assert t == t[..4] + t[4..];
    }
  }

  lemma {:induction false} VectorsInverse(t: seq<byte>, n: nat)
    requires ReadVectors(t, n).Some?
    ensures |ReadVectors(t, n).value| == n && AllFloats(ReadVectors(t, n).value) <= t
    decreases n
  {
    if n > 0 {
      var first, rest := t[..VECTOR], t[VECTOR..];
      var vs := ReadVectors(rest, n - 1).value;
      FloatsInverse(first);
      VectorsInverse(rest, n - 1);
      assert ReadVectors(t, n).value[1..] == vs;
      assert t == first + rest;
    }
  }

  lemma FieldIs(s: seq<byte>, from: nat, width: nat, x: nat)
    requires from + width <= |s| && x == Field(s, from, width)
    ensures LE(x, width) == s[from..from + width]
  {
    LEInverse(s[from..from + width]);
  }

  lemma FieldsInverse(s: seq<byte>, created: u64, id: u32, thr: u32, n: u32)
    requires |s| >= HEADER && Field(s, 0, 4) == FILE_MAGIC && Field(s, 4, 2) == FILE_VERSION
    requires created == Field(s, 6, 8) && id == Field(s, 14, 4) && thr == Field(s, 18, 4) && n == Field(s, 22, 4)
    ensures Fields(FILE_MAGIC, FILE_VERSION, created, id, thr, n) == s[..HEADER]
  {
    FieldIs(s, 0, 4, FILE_MAGIC);
    FieldIs(s, 4, 2, FILE_VERSION);
    FieldIs(s, 6, 8, created);
    FieldIs(s, 14, 4, id);
    FieldIs(s, 18, 4, thr);
    FieldIs(s, 22, 4, n);
    SixParts(s);
  }

  lemma SixParts(s: seq<byte>)
    requires |s| >= HEADER
    ensures s[..HEADER] == s[0..4] + s[4..6] + s[6..14] + s[14..18] + s[18..22] + s[22..26]
  {
  }

  lemma Appended(head: seq<byte>, body: seq<byte>, s: seq<byte>)
    requires |head| <= |s| && head == s[..|head|] && body <= s[|head|..]
    ensures head + body <= s
  {
    assert s == s[..|head|] + s[|head|..];
  }

  lemma LoadedParts(s: seq<byte>, e: Enrollment)
    requires Decode(s) == Some(e)
    ensures |s| >= HEADER && Field(s, 0, 4) == FILE_MAGIC && Field(s, 4, 2) == FILE_VERSION
    ensures e.created == Field(s, 6, 8) && e.embedderId == Field(s, 14, 4) && e.threshold == Field(s, 18, 4)
    ensures ReadVectors(s[HEADER..], Field(s, 22, 4)) == Some(e.embeddings)
  {
  }

  lemma PartsMakeImage(s: seq<byte>, e: Enrollment)
    requires |s| >= HEADER && Field(s, 0, 4) == FILE_MAGIC && Field(s, 4, 2) == FILE_VERSION
    requires e.created == Field(s, 6, 8) && e.embedderId == Field(s, 14, 4) && e.threshold == Field(s, 18, 4)
    requires ReadVectors(s[HEADER..], Field(s, 22, 4)) == Some(e.embeddings)
    ensures Encode(e, e.created) <= s
  {
    Widths();
    var n: u32 := Field(s, 22, 4);
    VectorsInverse(s[HEADER..], n);
    FieldsInverse(s, e.created, e.embedderId, e.threshold, n);
    Appended(Header(e, e.created), AllFloats(e.embeddings), s);
  }

  lemma LoadedStarts(s: seq<byte>, e: Enrollment)
    requires Decode(s) == Some(e)
    ensures RightDims(e) && 1 <= |e.embeddings| <= MAX_EMBEDDINGS && Encode(e, e.created) <= s
  {
    LoadedResaves(s, e.created);
    LoadedParts(s, e);
    PartsMakeImage(s, e);
  }

  /** A file loads as e exactly if e has 1 to 1000 embeddings of 512 entries and the
      file begins with what saving e writes. */
  lemma DecodeIff(s: seq<byte>, e: Enrollment)
    ensures Decode(s) == Some(e) <==>
            RightDims(e) && 1 <= |e.embeddings| <= 1000 && Encode(e, e.created) <= s
  {
    if Decode(s) == Some(e) {
      LoadedStarts(s, e);
    }
    var image := Encode(e, e.created);
    if RightDims(e) && 1 <= |e.embeddings| <= MAX_EMBEDDINGS && image <= s {
      RoundTrip(e, e.created, s[|image|..]);
      assert image + s[|image|..] == s;
    }
  }

  // ---------------------------------------------------- the two procedures

  /** An ofstream opened for writing: bytes accepted so far, and how many more
      it will take before a write fails. */
  class OutFile {
    var bytes: seq<byte>
    var room: nat

    constructor (room: nat)
      ensures bytes == [] && this.room == room
    {
      bytes, this.room := [], room;
    }

    /** write_all */
    method Write(s: seq<byte>) returns (ok: bool)
      modifies this
      ensures ok <==> |s| <= old(room)
      ensures ok ==> bytes == old(bytes) + s && room == old(room) - |s|
      ensures !ok ==> bytes == old(bytes) + s[..old(room)] && room == 0
    {
      if |s| <= room {
        bytes, room, ok := bytes + s, room - |s|, true;
      } else {
        bytes, room, ok := bytes + s[..room], 0, false;
      }
    }
  }

  lemma {:induction false} AllFloatsSnoc(vs: seq<seq<u32>>, v: seq<u32>)
    ensures AllFloats(vs + [v]) == AllFloats(vs) + Floats(v)
    decreases |vs|
  {
    if vs == [] {
      assert AllFloats([v]) == Floats(v) + AllFloats([v][1..]);
    } else {
      assert (vs + [v])[1..] == vs[1..] + [v];
      AllFloatsSnoc(vs[1..], v);
    }
  }

  /** The six header writes. */
  method WriteHeader(f: OutFile, e: Enrollment, clock: u64) returns (ok: bool)
    requires f.bytes == []
    modifies f
    ensures ok <==> HEADER <= old(f.room)
    ensures ok ==> f.bytes == Header(e, clock) && f.room == old(f.room) - HEADER
  {
    ok := WriteFields(f, FILE_MAGIC, FILE_VERSION, Created(e, clock), e.embedderId, e.threshold, Count(e));
  }

  method WriteFields(f: OutFile, magic: u32, ver: u16, created: u64, id: u32, thr: u32, n: u32) returns (ok: bool)
    requires f.bytes == []
    modifies f
    ensures ok <==> HEADER <= old(f.room)
    ensures ok ==> f.bytes == Fields(magic, ver, created, id, thr, n) && f.room == old(f.room) - HEADER
  {
    ok := f.Write(LE(magic, 4));
    if !ok { return; }
    ok := f.Write(LE(ver, 2));
    if !ok { return; }
    ok := f.Write(LE(created, 8));
    if !ok { return; }
    ok := f.Write(LE(id, 4));
    if !ok { return; }
    ok := f.Write(LE(thr, 4));
    if !ok { return; }
    ok := f.Write(LE(n, 4));
  }

  /** The writing part of save_enrollment. It returns normally exactly if every
      embedding has 512 entries and the file system takes all the bytes; the
      temporary file then holds exactly the encoding. */
  method SaveEnrollment(f: OutFile, e: Enrollment, clock: u64) returns (ok: bool)
    requires f.bytes == []
    modifies f
    ensures ok <==> RightDims(e) && |Encode(e, clock)| <= old(f.room)
    ensures ok ==> f.bytes == Encode(e, clock)
  {
    ok := WriteHeader(f, e, clock);
    if !ok { return; }
    ok := WriteVectors(f, e.embeddings);
  }

  method WriteVectors(f: OutFile, vs: seq<seq<u32>>) returns (ok: bool)
    modifies f
    ensures ok <==> (forall i :: 0 <= i < |vs| ==> |vs[i]| == EMB_DIM) && |AllFloats(vs)| <= old(f.room)
    ensures ok ==> f.bytes == old(f.bytes) + AllFloats(vs)
  {
    ghost var head, room := f.bytes, f.room;
    var i := 0;
    while i < |vs|
      invariant 0 <= i <= |vs|
      invariant f.bytes == head + AllFloats(vs[..i])
      invariant f.room + |AllFloats(vs[..i])| == room
      invariant forall j :: 0 <= j < i ==> |vs[j]| == EMB_DIM
    {
      var v := vs[i];
      if |v| != EMB_DIM {
        return false;
      }
      assert vs[..i + 1] == vs[..i] + [v];
      AllFloatsSnoc(vs[..i], v);
      AllFloatsPrefix(vs, i + 1);
      ok := f.Write(Floats(v));
      if !ok { return; }
      assert (head + AllFloats(vs[..i])) + Floats(v) == head + AllFloats(vs[..i + 1]);
      i := i + 1;
    }
    assert vs[..i] == vs;
    ok := true;
  }

  lemma {:induction false} AllFloatsPrefix(vs: seq<seq<u32>>, i: nat)
    requires i <= |vs|
    ensures |AllFloats(vs[..i])| <= |AllFloats(vs)|
    decreases |vs|
  {
    if i == 0 {
    } else {
      assert vs[..i][1..] == vs[1..][..i - 1];
      AllFloatsPrefix(vs[1..], i - 1);
    }
  }

  /** load_enrollment on an open file, read field by field. */
  method LoadEnrollment(s: seq<byte>) returns (r: Option<Enrollment>)
    ensures r == Decode(s)
  {
    Widths();
    if |s| < HEADER {
      return None;
    }
    var magic, ver := Field(s, 0, 4), Field(s, 4, 2);
    var created, embedderId, threshold, n := Field(s, 6, 8), Field(s, 14, 4), Field(s, 18, 4), Field(s, 22, 4);
    if magic != FILE_MAGIC || ver != FILE_VERSION {
      return None;
    }
    if n == 0 || n > MAX_EMBEDDINGS {
      return None;
    }
    var vs := LoadVectors(s[HEADER..], n);
    r := if vs.Some? then Some(Enrollment(embedderId, created, threshold, vs.value)) else None;
  }

  /** The embedding loop. */
  method LoadVectors(s: seq<byte>, n: nat) returns (r: Option<seq<seq<u32>>>)
    ensures r == ReadVectors(s, n)
  {
    var vs: seq<seq<u32>> := [];
    var pos := 0;
    var i := 0;
    assert s[pos..] == s;
    assert forall rest: seq<seq<u32>> :: vs + rest == rest;
    while i < n
      invariant 0 <= i <= n && 0 <= pos <= |s|
      invariant match ReadVectors(s[pos..], n - i)
                case None => ReadVectors(s, n).None?
                case Some(rest) => ReadVectors(s, n) == Some(vs + rest)
    {
      if |s| - pos < VECTOR {
        return None;
      }
      var v := ReadFloats(s[pos..pos + VECTOR]);
      assert s[pos..][..VECTOR] == s[pos..pos + VECTOR];
      assert s[pos..][VECTOR..] == s[pos + VECTOR..];
      ghost var rest := ReadVectors(s[pos + VECTOR..], n - i - 1);
      assert rest.Some? ==> vs + ([v] + rest.value) == (vs + [v]) + rest.value;
      vs := vs + [v];
      pos := pos + VECTOR;
      i := i + 1;
    }
    assert vs + [] == vs;
    r := Some(vs);
  }

  // ------------------------------------------------------------ byte by byte

  lemma {:induction false} FloatsAt(v: seq<u32>, i: nat)
    requires i < |v|
    ensures Floats(v)[4 * i..4 * i + 4] == LE(v[i], 4)
    decreases i
  {
    if i > 0 {
      FloatsAt(v[1..], i - 1);
    }
  }

  lemma Shift(a: seq<byte>, b: seq<byte>, from: nat, to: nat)
    requires from <= to <= |b|
    ensures (a + b)[|a| + from..|a| + to] == b[from..to]
  {
  }

  lemma {:induction false} AllFloatsAt(vs: seq<seq<u32>>, k: nat, from: nat)
    requires (forall i :: 0 <= i < |vs| ==> |vs[i]| == EMB_DIM) && k < |vs| && from == VECTOR * k
    ensures from + VECTOR <= |AllFloats(vs)| && AllFloats(vs)[from..from + VECTOR] == Floats(vs[k])
    decreases k
  {
    var first, rest := Floats(vs[0]), AllFloats(vs[1..]);
    if k == 0 {
      assert (first + rest)[..VECTOR] == first;
    } else {
      AllFloatsAt(vs[1..], k - 1, from - VECTOR);
      Shift(first, rest, from - VECTOR, from);
    }
  }

  lemma Within(head: seq<byte>, body: seq<byte>, from: nat, size: nat, at: nat)
    requires from + size <= |body| && at + 4 <= size
    ensures (head + body)[|head| + from + at..|head| + from + at + 4] == body[from..from + size][at..at + 4]
  {
    var a, b := (head + body)[|head| + from + at..|head| + from + at + 4], body[from..from + size][at..at + 4];
    assert forall i :: 0 <= i < 4 ==> a[i] == body[from + at + i] && b[i] == body[from + at + i];
  }

  lemma EntryIn(head: seq<byte>, body: seq<byte>, v: seq<u32>, i: nat, start: nat)
    requires |v| == EMB_DIM && i < EMB_DIM && start + VECTOR <= |body| && body[start..start + VECTOR] == Floats(v)
    ensures var from := |head| + start + 4 * i;
            from + 4 <= |head + body| && (head + body)[from..from + 4] == LE(v[i], 4)
  {
    FloatsAt(v, i);
    Within(head, body, start, VECTOR, 4 * i);
  }

  lemma EntryAt(e: Enrollment, now: u64, k: nat, i: nat, start: nat, from: nat)
    requires RightDims(e) && k < |e.embeddings| && i < EMB_DIM && start == VECTOR * k && from == HEADER + start + 4 * i
    ensures from + 4 <= |Encode(e, now)| && Encode(e, now)[from..from + 4] == LE(e.embeddings[k][i], 4)
  {
    AllFloatsAt(e.embeddings, k, start);
    EntryIn(Header(e, now), AllFloats(e.embeddings), e.embeddings[k], i, start);
  }

  /** Where everything stands in a saved file: "FA01", the version, and component i
      of embedding k. */
  lemma Layout(e: Enrollment, now: u64, k: nat, i: nat, from: nat)
    requires RightDims(e) && k < |e.embeddings| && i < EMB_DIM && from == 26 + 2048 * k + 4 * i
    ensures var s := Encode(e, now);
            && |s| == 26 + 2048 * |e.embeddings|
            && s[..6] == [0x46, 0x41, 0x30, 0x31, 1, 0]
            && from + 4 <= |s| && Field(s, from, 4) == e.embeddings[k][i]
  {
    AllFloatsLength(e.embeddings);
    EntryAt(e, now, k, i, 2048 * k, from);
    Widths();
    FieldAt(Encode(e, now), from, 4, e.embeddings[k][i]);
    StartsWithMagic(e, now);
  }

  lemma StartsWithMagic(e: Enrollment, now: u64)
    ensures |Encode(e, now)| >= 6 && Encode(e, now)[..6] == [0x46, 0x41, 0x30, 0x31, 1, 0]
  {
    Magic();
    assert Encode(e, now)[..6] == Header(e, now)[..6];
    assert Header(e, now)[..6] == LE(FILE_MAGIC, 4) + LE(FILE_VERSION, 2);
  }

  lemma Magic()
    ensures LE(FILE_MAGIC, 4) == [0x46, 0x41, 0x30, 0x31] && LE(FILE_VERSION, 2) == [1, 0]
  {
    assert LE(0x3130_4146, 4) == [0x46] + LE(0x31_3041, 3);
    assert LE(0x31_3041, 3) == [0x41] + LE(0x3130, 2);
    assert LE(0x3130, 2) == [0x30] + LE(0x31, 1);
    assert LE(0x31, 1) == [0x31] + LE(0, 0);
    assert LE(1, 2) == [1] + LE(0, 1);
    assert LE(0, 1) == [0] + LE(0, 0);
  }
}
