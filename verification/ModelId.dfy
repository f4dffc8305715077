/** simple_model_id (common/encoding.cpp): a 32-bit hash of a model file's size
    and first 16 bytes. */
module ModelId {

  const WORD: int := 0x1_0000_0000

  const HEAD: nat := 16

  type Byte = b: nat | b < 256

  type Word = w: nat | w < WORD

  /** What the reads give: no file, or a file's size and its head, with the
      bytes past a short file's end left zero. */
  datatype File = Unreadable | File(bytes: seq<Byte>)

  function Head(bytes: seq<Byte>): (h: seq<Byte>)
    ensures |h| == HEAD
    ensures forall i :: 0 <= i < HEAD ==> h[i] == if i < |bytes| then bytes[i] else 0
  {
    seq(HEAD, i requires 0 <= i < HEAD => if i < |bytes| then bytes[i] else 0)
  }

  function Step(h: Word, b: Byte): Word { (h * 31 + b) % WORD }

  function Hash(h: Word, s: seq<Byte>, n: nat): Word
    requires n <= |s|
    decreases n, s
  {
    if n == 0 then h else Step(Hash(h, s, n - 1), s[n - 1])
  }

  function Id(f: File): Word {
    if f.Unreadable? then 0 else Hash(|f.bytes| % WORD, Head(f.bytes), HEAD)
  }

  method SimpleModelId(f: File) returns (h: Word)
    ensures h == Id(f)
  {
    if f.Unreadable? {
      return 0;
    }
    var head := Head(f.bytes);
    h := |f.bytes| % WORD;
    var i := 0;
    while i < HEAD
      invariant 0 <= i <= HEAD && h == Hash(|f.bytes| % WORD, head, i)
    {
      h := (h * 31 + head[i]) % WORD;
      i := i + 1;
    }
  }

  // ------------------------------------------------- 31 is invertible

  const INVERSE: int := 3186588639

  /** A step taken with the same byte tells apart what came before it. */
  lemma StepInjective(g: Word, h: Word, b: Byte)
    requires Step(g, b) == Step(h, b)
    ensures g == h
  {
    var k, l := (g * 31 + b) / WORD, (h * 31 + b) / WORD;
    assert g * 31 - h * 31 == (k - l) * WORD;
    var m := k - l;
    // 31 * (g - h) is a multiple of the word size, and so is 31 * INVERSE - 1.
    assert 31 * INVERSE == 23 * WORD + 1;
    assert (g - h) == INVERSE * (31 * (g - h)) - 23 * WORD * (g - h) by {
      assert INVERSE * (31 * (g - h)) == (31 * INVERSE) * (g - h);
    }
    assert g - h == WORD * (INVERSE * m - 23 * (g - h));
    NoMultiple(g - h, INVERSE * m - 23 * (g - h));
  }

  lemma NoMultiple(d: int, q: int)
    requires d == WORD * q && -WORD < d < WORD
    ensures d == 0
  {
  }

  /** Different bytes after the same beginning give different hashes. */
  lemma StepOnBytes(h: Word, a: Byte, b: Byte)
    requires Step(h, a) == Step(h, b)
    ensures a == b
  {
  }

  /** Equal tails keep different hashes different. */
  lemma {:induction false} HashInjective(g: Word, h: Word, s: seq<Byte>, t: seq<Byte>, m: nat, n: nat)
    requires m <= n <= |s| == |t|
    requires forall i :: m <= i < n ==> s[i] == t[i]
    requires Hash(g, s, n) == Hash(h, t, n)
    ensures Hash(g, s, m) == Hash(h, t, m)
    decreases n
  {
    if m < n {
      StepInjective(Hash(g, s, n - 1), Hash(h, t, n - 1), s[n - 1]);
      HashInjective(g, h, s, t, m, n - 1);
    }
  }

  lemma {:induction false} HashSame(h: Word, s: seq<Byte>, t: seq<Byte>, n: nat)
    requires n <= |s| == |t|
    requires forall i :: 0 <= i < n ==> s[i] == t[i]
    ensures Hash(h, s, n) == Hash(h, t, n)
    decreases n
  {
    if n > 0 {
      HashSame(h, s, t, n - 1);
    }
  }

  /** The size is the whole identity of files with the same head: their ids agree
      exactly if their sizes agree modulo 2^32. */
  lemma SizeTellsApart(a: File, b: File)
    requires a.File? && b.File? && Head(a.bytes) == Head(b.bytes)
    ensures Id(a) == Id(b) <==> |a.bytes| % WORD == |b.bytes| % WORD
  {
    var s, t := Head(a.bytes), Head(b.bytes);
    if Id(a) == Id(b) {
      HashInjective(|a.bytes| % WORD, |b.bytes| % WORD, s, t, 0, HEAD);
    }
  }

  /** Files of the same size whose heads differ in exactly one byte never share an
      id. */
  lemma OneByteTellsApart(a: File, b: File, i: nat)
    requires a.File? && b.File? && |a.bytes| % WORD == |b.bytes| % WORD && i < HEAD
    requires Head(a.bytes)[i] != Head(b.bytes)[i]
    requires forall j :: 0 <= j < HEAD && j != i ==> Head(a.bytes)[j] == Head(b.bytes)[j]
    ensures Id(a) != Id(b)
  {
    var g, s, t := |a.bytes| % WORD, Head(a.bytes), Head(b.bytes);
    if Id(a) == Id(b) {
      HashInjective(g, g, s, t, i + 1, HEAD);
      HashSame(g, s, t, i);
      StepOnBytes(Hash(g, s, i), s[i], t[i]);
    }
  }

  // --------------------------------------- which heads share an id, exactly

  /** x times 31^k. */
  function Times31(x: int, k: nat): int
    decreases k, x
  {
    if k == 0 then x else 31 * Times31(x, k - 1)
  }

  /** The hash without its modulus. */
  function Poly(h: int, s: seq<Byte>, n: nat): int
    requires n <= |s|
    decreases n, s
  {
    if n == 0 then h else 31 * Poly(h, s, n - 1) + s[n - 1]
  }

  lemma Congruent(x: int, y: int)
    ensures x % WORD == y % WORD <==> (x - y) % WORD == 0
  {
    var p, q := x / WORD, y / WORD;
    assert x - y == (p - q) * WORD + (x % WORD - y % WORD);
  }

  lemma AddMultiple(y: int, k: int)
    ensures (y + k * WORD) % WORD == y % WORD
  {
  }

  lemma StepPoly(x: int, b: Byte)
    ensures Step(x % WORD, b) == (31 * x + b) % WORD
  {
    var k, r := x / WORD, x % WORD;
    assert x == k * WORD + r;
    assert 31 * x + b == (r * 31 + b) + (31 * k) * WORD;
    AddMultiple(r * 31 + b, 31 * k);
  }

  lemma {:induction false} HashIsPoly(h: int, s: seq<Byte>, n: nat)
    requires n <= |s|
    ensures Hash(h % WORD, s, n) == Poly(h, s, n) % WORD
    decreases n
  {
    if n > 0 {
      HashIsPoly(h, s, n - 1);
      StepPoly(Poly(h, s, n - 1), s[n - 1]);
    }
  }

  /** The first n bytes, each weighted by 31 to the number of positions that follow
      it before m. */
  function Sum(s: seq<Byte>, n: nat, m: nat): int
    requires n <= |s| && n <= m
  {
    if n == 0 then 0 else Sum(s, n - 1, m) + Times31(s[n - 1], m - n)
  }

  lemma {:induction false} SumShifts(s: seq<Byte>, n: nat, m: nat)
    requires n <= |s| && n <= m
    ensures Sum(s, n, m + 1) == 31 * Sum(s, n, m)
    decreases n
  {
    if n > 0 {
      SumShifts(s, n - 1, m);
    }
  }

  lemma {:induction false} PolyIsSum(h: int, s: seq<Byte>, n: nat)
    requires n <= |s|
    ensures Poly(h, s, n) == Times31(h, n) + Sum(s, n, n)
    decreases n
  {
    if n > 0 {
      PolyIsSum(h, s, n - 1);
      SumShifts(s, n - 1, n - 1);
    }
  }

  /** An id is the size times 31^16 plus byte i of the head times 31^(15 - i), for
      all i, modulo 2^32; and 0 for a file that cannot be read. */
  lemma IdIs(f: File)
    ensures f.Unreadable? ==> Id(f) == 0
    ensures f.File? ==> Id(f) == (Times31(|f.bytes|, 16) + Sum(Head(f.bytes), 16, 16)) % WORD
  {
    if f.File? {
      HashIsPoly(|f.bytes|, Head(f.bytes), HEAD);
      PolyIsSum(|f.bytes|, Head(f.bytes), HEAD);
    }
  }

  /** The sum of the byte differences t - s from position m on, each weighted by 31
      to the number of positions that follow it before n. */
  function Weighted(s: seq<Byte>, t: seq<Byte>, m: nat, n: nat): int
    requires m <= n <= |s| && n <= |t|
    decreases n
  {
    if n == m then 0 else 31 * Weighted(s, t, m, n - 1) + (t[n - 1] as int - s[n - 1] as int)
  }

  lemma {:induction false} PolyDifference(g: int, h: int, s: seq<Byte>, t: seq<Byte>, n: nat)
    requires n <= |s| && n <= |t|
    ensures Poly(h, t, n) - Poly(g, s, n) == Times31(h - g, n) + Weighted(s, t, 0, n)
    decreases n
  {
    if n > 0 {
      PolyDifference(g, h, s, t, n - 1);
    }
  }

  /** Any two files: their ids agree exactly if the difference of their sizes times
      31^16 and the weighted differences of their head bytes add up to a multiple of
      2^32. */
  lemma SameIdIff(a: File, b: File)
    requires a.File? && b.File?
    ensures Id(a) == Id(b) <==>
            (Times31(|b.bytes| - |a.bytes|, HEAD) + Weighted(Head(a.bytes), Head(b.bytes), 0, HEAD)) % WORD == 0
  {
    var s, t := Head(a.bytes), Head(b.bytes);
    HashIsPoly(|a.bytes|, s, HEAD);
    HashIsPoly(|b.bytes|, t, HEAD);
    PolyDifference(|a.bytes|, |b.bytes|, s, t, HEAD);
    Congruent(Poly(|b.bytes|, t, HEAD), Poly(|a.bytes|, s, HEAD));
  }

  lemma {:induction false} WeightedTail(s: seq<Byte>, t: seq<Byte>, i: nat, n: nat)
    requires i < n <= |s| && n <= |t| && forall k :: i < k < n ==> s[k] == t[k]
    requires forall k :: 0 <= k < i ==> s[k] == t[k]
    ensures Weighted(s, t, 0, n) == Times31(t[i] as int - s[i] as int, n - 1 - i)
    decreases n
  {
    if n - 1 > i {
      WeightedTail(s, t, i, n - 1);
    } else {
      WeightedNone(s, t, i);
    }
  }

  lemma {:induction false} WeightedNone(s: seq<Byte>, t: seq<Byte>, n: nat)
    requires n <= |s| && n <= |t| && forall k :: 0 <= k < n ==> s[k] == t[k]
    ensures Weighted(s, t, 0, n) == 0
    decreases n
  {
    if n > 0 {
      WeightedNone(s, t, n - 1);
    }
  }

  lemma WeightedTwo(s: seq<Byte>, t: seq<Byte>, i: nat, j: nat)
    requires i < j < |s| && j < |t| && forall k :: 0 <= k < j && k != i ==> s[k] == t[k]
    ensures Weighted(s, t, 0, j + 1) == Times31(t[i] as int - s[i] as int, j - i) + (t[j] as int - s[j] as int)
  {
    WeightedTail(s, t, i, j);
  }

  lemma {:induction false} ZeroTimes(k: nat)
    ensures Times31(0, k) == 0
    decreases k
  {
    if k > 0 {
      ZeroTimes(k - 1);
    }
  }

  lemma RestsAgree(p: int, q: int, d: int)
    requires q == p + d
    ensures p % WORD == q % WORD <==> d % WORD == 0
  {
    Congruent(q, p);
  }

  lemma WordPoly(g: Word, s: seq<Byte>, n: nat)
    requires n <= |s|
    ensures Hash(g, s, n) == Poly(g, s, n) % WORD
  {
    HashIsPoly(g, s, n);
    assert g % WORD == g;
  }

  lemma SameStart(g: int, s: seq<Byte>, t: seq<Byte>, n: nat)
    requires n <= |s| && n <= |t|
    ensures Poly(g, t, n) == Poly(g, s, n) + Weighted(s, t, 0, n)
  {
    PolyDifference(g, g, s, t, n);
    ZeroTimes(n);
  }

  lemma HashesAlike(g: Word, s: seq<Byte>, t: seq<Byte>, n: nat)
    requires n <= |s| && n <= |t|
    ensures Hash(g, s, n) == Hash(g, t, n) <==> Weighted(s, t, 0, n) % WORD == 0
  {
    WordPoly(g, s, n);
    WordPoly(g, t, n);
    SameStart(g, s, t, n);
    RestsAgree(Poly(g, s, n), Poly(g, t, n), Weighted(s, t, 0, n));
  }

  lemma RestDecides(g: Word, s: seq<Byte>, t: seq<Byte>, m: nat, n: nat)
    requires m <= n <= |s| == |t| && forall i :: m <= i < n ==> s[i] == t[i]
    ensures Hash(g, s, n) == Hash(g, t, n) <==> Hash(g, s, m) == Hash(g, t, m)
  {
    if Hash(g, s, n) == Hash(g, t, n) {
      HashInjective(g, g, s, t, m, n);
    }
    if Hash(g, s, m) == Hash(g, t, m) {
      SameRest(g, s, t, m, n);
    }
  }

  /** Times31(x, k) + y is a multiple of 2^32. */
  predicate Cancels(x: int, k: nat, y: int) { (Times31(x, k) + y) % WORD == 0 }

  lemma TwoInHash(g: Word, s: seq<Byte>, t: seq<Byte>, i: nat, j: nat, n: nat)
    requires i < j < n <= |s| == |t|
    requires forall k :: 0 <= k < n && k != i && k != j ==> s[k] == t[k]
    ensures Hash(g, s, n) == Hash(g, t, n) <==> Cancels(t[i] as int - s[i] as int, j - i, t[j] as int - s[j] as int)
  {
    RestDecides(g, s, t, j + 1, n);
    HashesAlike(g, s, t, j + 1);
    WeightedTwo(s, t, i, j);
  }

  /** Equal sizes and heads that differ in bytes i and j at most: the ids agree
      exactly if the earlier difference, times 31 to the distance, and the later one
      add up to a multiple of 2^32. */
  lemma TwoBytesIff(a: File, b: File, i: nat, j: nat)
    requires a.File? && b.File? && |a.bytes| % WORD == |b.bytes| % WORD && i < j < HEAD
    requires forall k :: 0 <= k < HEAD && k != i && k != j ==> Head(a.bytes)[k] == Head(b.bytes)[k]
    ensures var s, t := Head(a.bytes), Head(b.bytes);
            Id(a) == Id(b) <==> Cancels(t[i] as int - s[i] as int, j - i, t[j] as int - s[j] as int)
  {
    TwoInHash(|a.bytes| % WORD, Head(a.bytes), Head(b.bytes), i, j, HEAD);
  }

  /** Neighbouring bytes: the modulus drops out. They cancel exactly if the later one
      falls by 31 for each one the earlier one rises. */
  lemma NeighboursIff(a: File, b: File, i: nat)
    requires a.File? && b.File? && |a.bytes| % WORD == |b.bytes| % WORD && i + 1 < HEAD
    requires forall k :: 0 <= k < HEAD && k != i && k != i + 1 ==> Head(a.bytes)[k] == Head(b.bytes)[k]
    ensures var x := Head(b.bytes)[i] as int - Head(a.bytes)[i] as int;
            var y := Head(b.bytes)[i + 1] as int - Head(a.bytes)[i + 1] as int;
            Id(a) == Id(b) <==> 31 * x + y == 0
  {
    TwoBytesIff(a, b, i, i + 1);
    var x := Head(b.bytes)[i] as int - Head(a.bytes)[i] as int;
    assert Times31(x, 0) == x && Times31(x, 1) == 31 * x;
  }

  /** Two to four positions apart they never cancel. */
  lemma NearbyNever(a: File, b: File, i: nat, j: nat)
    requires a.File? && b.File? && |a.bytes| % WORD == |b.bytes| % WORD && i + 2 <= j <= i + 4 && j < HEAD
    requires forall k :: 0 <= k < HEAD && k != i && k != j ==> Head(a.bytes)[k] == Head(b.bytes)[k]
    ensures Id(a) == Id(b) <==> Head(a.bytes) == Head(b.bytes)
  {
    var s, t := Head(a.bytes), Head(b.bytes);
    TwoBytesIff(a, b, i, j);
    SmallSum(t[i] as int - s[i] as int, t[j] as int - s[j] as int, j - i);
    if s[i] == t[i] && s[j] == t[j] {
      assert s == t;
    }
  }

  lemma SmallSum(x: int, y: int, k: nat)
    requires 2 <= k <= 4 && -256 < x < 256 && -256 < y < 256
    ensures Cancels(x, k, y) <==> x == 0 && y == 0
  {
    assert Times31(x, 0) == x && Times31(x, 1) == 31 * x && Times31(x, 2) == 961 * x;
    assert Times31(x, 3) == 29791 * x && Times31(x, 4) == 923521 * x;
  }

  lemma {:induction false} SameRest(g: Word, s: seq<Byte>, t: seq<Byte>, m: nat, n: nat)
    requires m <= n <= |s| == |t| && Hash(g, s, m) == Hash(g, t, m)
    requires forall i :: m <= i < n ==> s[i] == t[i]
    ensures Hash(g, s, n) == Hash(g, t, n)
    decreases n
  {
    if m < n {
      SameRest(g, s, t, m, n - 1);
    }
  }
}
