/** Greedy suppression of a list in descending score order: when the order among
    equal scores matters. `out` is symmetric between the entries of the list. */
module Ties {
  import opened Greedy

  predicate Down<T>(s: seq<T>, score: T -> real) {
    forall i, j :: 0 <= i < j < |s| ==> score(s[i]) >= score(s[j])
  }

  predicate Mutual<T>(s: seq<T>, out: (T, T) -> bool) {
    forall i, j :: 0 <= i < |s| && 0 <= j < |s| && out(s[i], s[j]) ==> out(s[j], s[i])
  }

  /** A survivor of strictly higher score rules x out. */
  predicate Beaten<T>(s: seq<T>, x: T, out: (T, T) -> bool, score: T -> real) {
    exists k :: 0 <= k < |s| && Survives(s, k, out) && score(s[k]) > score(x) && out(s[k], x)
  }

  /** Two different entries of equal score rule each other out, and nothing better
      settles it. */
  ghost predicate Tie<T>(s: seq<T>, i: nat, j: nat, out: (T, T) -> bool, score: T -> real)
    requires i < |s| && j < |s|
  {
    && s[i] != s[j] && score(s[i]) == score(s[j]) && out(s[i], s[j])
    && !Beaten(s, s[i], out, score) && !Beaten(s, s[j], out, score)
  }

  ghost predicate TieFree<T>(s: seq<T>, out: (T, T) -> bool, score: T -> real) {
    forall i, j :: 0 <= i < |s| && 0 <= j < |s| ==> !Tie(s, i, j, out, score)
  }

  lemma SurvivorUnbeaten<T>(s: seq<T>, i: nat, out: (T, T) -> bool, score: T -> real)
    requires Down(s, score) && i < |s| && Survives(s, i, out)
    ensures !Beaten(s, s[i], out, score)
  {
  }

  lemma FirstIndex<T>(s: seq<T>, x: T) returns (f: nat)
    requires x in s
    ensures f < |s| && s[f] == x && forall j :: 0 <= j < f ==> s[j] != x
  {
    f := 0;
    while s[f] != x
      invariant f < |s| && x in s[f..]
      invariant forall j :: 0 <= j < f ==> s[j] != x
      decreases |s| - f
    {
      assert s[f..] == [s[f]] + s[f + 1..];
      f := f + 1;
    }
  }

  /** Entry i, unbeaten, survives if no entry that rules it out is a different one
      of its score and survives. */
  lemma Unopposed<T>(s: seq<T>, i: nat, out: (T, T) -> bool, score: T -> real)
    requires Down(s, score) && i < |s| && !Beaten(s, s[i], out, score)
    requires forall j :: 0 <= j < i && Survives(s, j, out) && out(s[j], s[i]) ==> score(s[j]) != score(s[i])
    ensures Survives(s, i, out)
  {
    forall j | 0 <= j < i && Survives(s, j, out) ensures !out(s[j], s[i]) {
      assert score(s[j]) >= score(s[i]);
    }
  }

  /** In a list free of ties, an entry of the list that is unbeaten survives at its
      first position, and at every one unless it rules itself out. */
  lemma UnbeatenSurvives<T>(s: seq<T>, i: nat, out: (T, T) -> bool, score: T -> real)
    requires Down(s, score) && TieFree(s, out, score) && i < |s| && !Beaten(s, s[i], out, score)
    requires !out(s[i], s[i]) || forall j :: 0 <= j < i ==> s[j] != s[i]
    ensures Survives(s, i, out)
  {
    forall j | 0 <= j < i && Survives(s, j, out) && out(s[j], s[i]) ensures score(s[j]) != score(s[i]) {
      SurvivorUnbeaten(s, j, out, score);
      assert !Tie(s, j, i, out, score);
    }
    Unopposed(s, i, out, score);
  }

  lemma InBoth<T>(s: seq<T>, t: seq<T>, x: T)
    requires multiset(s) == multiset(t)
    ensures x in s <==> x in t
  {
    assert x in s <==> x in multiset(s);
    assert x in t <==> x in multiset(t);
  }

  // ------------------------------------------ no tie: the order is immaterial

  /** The first k entries of s are beaten in t exactly if they are in s. */
  predicate SameBeaten<T>(s: seq<T>, t: seq<T>, k: nat, out: (T, T) -> bool, score: T -> real)
    requires k <= |s|
  {
    forall i :: 0 <= i < k ==> (Beaten(s, s[i], out, score) <==> Beaten(t, s[i], out, score))
  }

  /** What would oppose it in t, a different unbeaten entry of its score, makes a
      tie in s. */
  lemma RivalTies<T>(s: seq<T>, t: seq<T>, m: nat, k: nat, y: T, out: (T, T) -> bool, score: T -> real)
    requires multiset(s) == multiset(t) && Down(s, score) && k < |s| && SameBeaten(s, t, k, out, score)
    requires m < k && score(s[m]) > score(s[k]) && !Beaten(s, s[m], out, score)
    requires y in t && y != s[m] && score(y) == score(s[m]) && out(y, s[m]) && !Beaten(t, y, out, score)
    ensures !TieFree(s, out, score)
  {
    InBoth(s, t, y);
    var r :| 0 <= r < |s| && s[r] == y;
    assert r < k;
    assert Tie(s, r, m, out, score);
  }

  /** An unbeaten entry of higher score than s[k] survives in t too. */
  lemma CarriesOver<T>(s: seq<T>, t: seq<T>, m: nat, k: nat, out: (T, T) -> bool, score: T -> real) returns (q: nat)
    requires multiset(s) == multiset(t) && Down(s, score) && Down(t, score) && TieFree(s, out, score)
    requires k < |s| && SameBeaten(s, t, k, out, score)
    requires m < k && score(s[m]) > score(s[k]) && !Beaten(s, s[m], out, score)
    ensures q < |t| && t[q] == s[m] && Survives(t, q, out)
  {
    InBoth(s, t, s[m]);
    q := FirstIndex(t, s[m]);
    forall r | 0 <= r < q && Survives(t, r, out) && out(t[r], t[q]) ensures score(t[r]) != score(t[q]) {
      SurvivorUnbeaten(t, r, out, score);
      if score(t[r]) == score(t[q]) {
        RivalTies(s, t, m, k, t[r], out, score);
      }
    }
    Unopposed(t, q, out, score);
  }

  lemma {:induction false} BeatenAlike<T>(s: seq<T>, t: seq<T>, k: nat, out: (T, T) -> bool, score: T -> real)
    requires multiset(s) == multiset(t) && Down(s, score) && Down(t, score) && TieFree(s, out, score) && k <= |s|
    ensures SameBeaten(s, t, k, out, score)
    decreases k
  {
    if k > 0 {
      BeatenAlike(s, t, k - 1, out, score);
      var x := s[k - 1];
      if Beaten(s, x, out, score) {
        var m :| 0 <= m < |s| && Survives(s, m, out) && score(s[m]) > score(x) && out(s[m], x);
        SurvivorUnbeaten(s, m, out, score);
        var q := CarriesOver(s, t, m, k - 1, out, score);
      }
      if Beaten(t, x, out, score) {
        var q :| 0 <= q < |t| && Survives(t, q, out) && score(t[q]) > score(x) && out(t[q], x);
        SurvivorUnbeaten(t, q, out, score);
        InBoth(s, t, t[q]);
        var m := FirstIndex(s, t[q]);
        UnbeatenSurvives(s, m, out, score);
      }
    }
  }

  lemma TieFreeAlike<T>(s: seq<T>, t: seq<T>, out: (T, T) -> bool, score: T -> real)
    requires multiset(s) == multiset(t) && Down(s, score) && Down(t, score) && TieFree(s, out, score)
    ensures TieFree(t, out, score)
  {
    BeatenAlike(s, t, |s|, out, score);
    forall i, j | 0 <= i < |t| && 0 <= j < |t| ensures !Tie(t, i, j, out, score) {
      InBoth(s, t, t[i]);
      InBoth(s, t, t[j]);
      var i' :| 0 <= i' < |s| && s[i'] == t[i];
      var j' :| 0 <= j' < |s| && s[j'] == t[j];
      assert !Tie(s, i', j', out, score);
    }
  }

  lemma {:induction false} CountNone<T>(s: seq<T>, n: nat, x: T, out: (T, T) -> bool)
    requires n <= |s| && forall i :: 0 <= i < n && s[i] == x ==> !Survives(s, i, out)
    ensures multiset(Upto(s, n, out))[x] == 0
    decreases n
  {
    if n > 0 {
      CountNone(s, n - 1, x, out);
      Append(Upto(s, n - 1, out), s[n - 1]);
    }
  }

  lemma {:induction false} CountAll<T>(s: seq<T>, n: nat, x: T, out: (T, T) -> bool)
    requires n <= |s| && forall i :: 0 <= i < n && s[i] == x ==> Survives(s, i, out)
    ensures multiset(Upto(s, n, out))[x] == multiset(s[..n])[x]
    decreases n
  {
    if n > 0 {
      CountAll(s, n - 1, x, out);
      LastOf(s, n);
      Append(Upto(s, n - 1, out), s[n - 1]);
    }
  }

  lemma {:induction false} CountOne<T>(s: seq<T>, n: nat, x: T, f: nat, out: (T, T) -> bool)
    requires f < n <= |s| && s[f] == x && Survives(s, f, out)
    requires forall i :: 0 <= i < n && i != f && s[i] == x ==> !Survives(s, i, out)
    ensures multiset(Upto(s, n, out))[x] == 1
    decreases n
  {
    Append(Upto(s, n - 1, out), s[n - 1]);
    if n - 1 == f {
      CountNone(s, f, x, out);
    } else {
      CountOne(s, n - 1, x, f, out);
    }
  }

  /** How many copies of x survive in a list free of ties: a number that does not
      depend on the order. */
  ghost function Share<T>(s: seq<T>, x: T, out: (T, T) -> bool, score: T -> real): nat {
    if x !in s || Beaten(s, x, out, score) then 0 else if out(x, x) then 1 else multiset(s)[x]
  }

  lemma SharesCount<T>(s: seq<T>, x: T, out: (T, T) -> bool, score: T -> real)
    requires Down(s, score) && TieFree(s, out, score)
    ensures multiset(Survivors(s, out))[x] == Share(s, x, out, score)
  {
    assert s[..|s|] == s;
    if x !in s {
      CountNone(s, |s|, x, out);
    } else if Beaten(s, x, out, score) {
      forall i | 0 <= i < |s| && s[i] == x ensures !Survives(s, i, out) {
        if Survives(s, i, out) {
          SurvivorUnbeaten(s, i, out, score);
        }
      }
      CountNone(s, |s|, x, out);
    } else if out(x, x) {
      var f := FirstIndex(s, x);
      UnbeatenSurvives(s, f, out, score);
      CountOne(s, |s|, x, f, out);
    } else {
      forall i | 0 <= i < |s| && s[i] == x ensures Survives(s, i, out) {
        UnbeatenSurvives(s, i, out, score);
      }
      CountAll(s, |s|, x, out);
    }
  }

  lemma ShareAlike<T>(s: seq<T>, t: seq<T>, x: T, out: (T, T) -> bool, score: T -> real)
    requires multiset(s) == multiset(t) && SameBeaten(s, t, |s|, out, score)
    ensures Share(s, x, out, score) == Share(t, x, out, score)
  {
    InBoth(s, t, x);
  }

  /** Free of ties, every descending order has the same survivors. */
  lemma TieFreeSame<T>(s: seq<T>, t: seq<T>, out: (T, T) -> bool, score: T -> real)
    requires multiset(s) == multiset(t) && Down(s, score) && Down(t, score) && TieFree(s, out, score)
    ensures multiset(Survivors(s, out)) == multiset(Survivors(t, out))
  {
    TieFreeAlike(s, t, out, score);
    BeatenAlike(s, t, |s|, out, score);
    var a, b := multiset(Survivors(s, out)), multiset(Survivors(t, out));
    forall x ensures a[x] == b[x] {
      SharesCount(s, x, out, score);
      SharesCount(t, x, out, score);
      ShareAlike(s, t, x, out, score);
    }
    SameCounts(a, b);
  }

  lemma SameCounts<T>(a: multiset<T>, b: multiset<T>)
    requires forall x :: a[x] == b[x]
    ensures a == b
  {
  }

  // ----------------------------------------------- a tie: the order decides

  /** Entry i moved forward to position p. */
  function Moved<T>(s: seq<T>, p: nat, i: nat): seq<T>
    requires p <= i < |s|
  {
    s[..p] + [s[i]] + s[p..i] + s[i + 1..]
  }

  lemma MovedSame<T>(s: seq<T>, p: nat, i: nat)
    requires p <= i < |s|
    ensures multiset(Moved(s, p, i)) == multiset(s)
  {
    assert s == s[..p] + s[p..i] + [s[i]] + s[i + 1..];
  }

  /** To the front of its own score. */
  lemma MovedDown<T>(s: seq<T>, p: nat, i: nat, score: T -> real)
    requires Down(s, score) && p <= i < |s| && score(s[p]) == score(s[i])
    ensures Down(Moved(s, p, i), score)
  {
    var t := Moved(s, p, i);
    forall k | 0 <= k < |t| ensures t[k] == s[if k < p || k > i then k else if k == p then i else k - 1] {
    }
  }

  lemma {:induction false} SamePrefix<T>(s: seq<T>, t: seq<T>, k: nat, out: (T, T) -> bool)
    requires k < |s| && k < |t| && forall j :: 0 <= j <= k ==> s[j] == t[j]
    ensures Survives(s, k, out) <==> Survives(t, k, out)
    decreases k
  {
    forall j | 0 <= j < k ensures Survives(s, j, out) <==> Survives(t, j, out) {
      SamePrefix(s, t, j, out);
    }
  }

  lemma FirstOfScore<T>(s: seq<T>, i: nat, score: T -> real) returns (p: nat)
    requires Down(s, score) && i < |s|
    ensures p <= i && score(s[p]) == score(s[i]) && forall j :: 0 <= j < p ==> score(s[j]) > score(s[i])
  {
    p := i;
    while p > 0 && score(s[p - 1]) == score(s[i])
      invariant 0 <= p <= i && score(s[p]) == score(s[i])
    {
      p := p - 1;
    }
  }

  /** With entry i first among its equals, it is kept and what it ties with is not. */
  lemma FirstWins<T>(s: seq<T>, i: nat, b: T, out: (T, T) -> bool, score: T -> real) returns (t: seq<T>)
    requires Down(s, score) && i < |s| && !Beaten(s, s[i], out, score)
    requires b != s[i] && score(b) == score(s[i]) && out(s[i], b)
    ensures multiset(t) == multiset(s) && Down(t, score)
    ensures s[i] in Survivors(t, out) && b !in Survivors(t, out)
  {
    var p := FirstOfScore(s, i, score);
    t := Moved(s, p, i);
    MovedSame(s, p, i);
    MovedDown(s, p, i, score);
    forall k | 0 <= k < p && Survives(t, k, out) ensures !out(t[k], t[p]) {
      SamePrefix(s, t, k, out);
    }
    assert Survives(t, p, out);
    KeptAll(t, |t|, out, p);
    KeptIn(t, out, p);
    assert forall k :: 0 <= k < p ==> score(t[k]) > score(b);
    forall q | 0 <= q < |t| && t[q] == b ensures !Survives(t, q, out) {
      assert out(t[p], t[q]);
    }
    CountNone(t, |t|, b, out);
  }

  /** A tie can be settled either way, so some descending order has other
      survivors. */
  lemma TieDecides<T>(s: seq<T>, i: nat, j: nat, out: (T, T) -> bool, score: T -> real) returns (t: seq<T>)
    requires Down(s, score) && Mutual(s, out) && i < |s| && j < |s| && Tie(s, i, j, out, score)
    ensures multiset(t) == multiset(s) && Down(t, score)
    ensures multiset(Survivors(t, out)) != multiset(Survivors(s, out))
  {
    var a := FirstWins(s, i, s[j], out, score);
    var b := FirstWins(s, j, s[i], out, score);
    InMultisets(Survivors(a, out), s[i]);
    InMultisets(Survivors(b, out), s[i]);
    t := if multiset(Survivors(a, out)) != multiset(Survivors(s, out)) then a else b;
  }

  lemma InMultisets<T>(k: seq<T>, x: T)
    ensures x in k <==> multiset(k)[x] > 0
  {
  }
}
