/** Greedy suppression on a list, for any relation "a rules out b": entry i
    survives unless a surviving entry before it rules it out. */
module Greedy {

  predicate Survives<T>(s: seq<T>, i: nat, out: (T, T) -> bool)
    requires i < |s|
    decreases i
  {
    forall j :: 0 <= j < i && Survives(s, j, out) ==> !out(s[j], s[i])
  }

  /** One of the survivors among the first i rules entry j out. */
  predicate RuledOut<T>(s: seq<T>, i: nat, j: nat, out: (T, T) -> bool)
    requires i <= |s| && j < |s|
  {
    exists k :: 0 <= k < i && Survives(s, k, out) && out(s[k], s[j])
  }

  /** Positions of the survivors among the first n. */
  function Kept<T>(s: seq<T>, n: nat, out: (T, T) -> bool): (ids: seq<nat>)
    requires n <= |s|
    ensures forall a :: 0 <= a < |ids| ==> ids[a] < n
  {
    if n == 0 then []
    else if Survives(s, n - 1, out) then Kept(s, n - 1, out) + [n - 1]
    else Kept(s, n - 1, out)
  }

  lemma {:induction false} KeptSurvives<T>(s: seq<T>, n: nat, out: (T, T) -> bool, a: nat)
    requires n <= |s| && a < |Kept(s, n, out)|
    ensures Survives(s, Kept(s, n, out)[a], out)
    decreases n
  {
    if a < |Kept(s, n - 1, out)| {
      KeptSurvives(s, n - 1, out, a);
    }
  }

  lemma {:induction false} KeptRises<T>(s: seq<T>, n: nat, out: (T, T) -> bool, a: nat, b: nat)
    requires n <= |s| && a < b < |Kept(s, n, out)|
    ensures Kept(s, n, out)[a] < Kept(s, n, out)[b]
    decreases n
  {
    if b < |Kept(s, n - 1, out)| {
      KeptRises(s, n - 1, out, a, b);
    }
  }
  /** The survivors among the first n. */
  function Upto<T>(s: seq<T>, n: nat, out: (T, T) -> bool): seq<T>
    requires n <= |s|
  {
    if n == 0 then []
    else if Survives(s, n - 1, out) then Upto(s, n - 1, out) + [s[n - 1]]
    else Upto(s, n - 1, out)
  }

  lemma {:induction false} UptoLength<T>(s: seq<T>, n: nat, out: (T, T) -> bool)
    requires n <= |s|
    ensures |Upto(s, n, out)| == |Kept(s, n, out)|
    decreases n
  {
    if n > 0 {
      UptoLength(s, n - 1, out);
    }
  }

  lemma {:induction false} UptoKept<T>(s: seq<T>, n: nat, out: (T, T) -> bool, a: nat)
    requires n <= |s| && a < |Kept(s, n, out)|
    ensures |Upto(s, n, out)| == |Kept(s, n, out)| && Upto(s, n, out)[a] == s[Kept(s, n, out)[a]]
    decreases n
  {
    UptoLength(s, n, out);
    UptoLength(s, n - 1, out);
    if a < |Kept(s, n - 1, out)| {
      UptoKept(s, n - 1, out, a);
    }
  }
 function Survivors<T>(s: seq<T>, out: (T, T) -> bool): seq<T> { Upto(s, |s|, out) }

  lemma {:induction false} KeptAll<T>(s: seq<T>, n: nat, out: (T, T) -> bool, i: nat)
    requires i < n <= |s| && Survives(s, i, out)
    ensures i in Kept(s, n, out)
    decreases n
  {
    if i < n - 1 {
      KeptAll(s, n - 1, out, i);
    }
  }

  lemma Append<T>(s: seq<T>, x: T)
    ensures multiset(s + [x]) == multiset(s) + multiset{x}
  {
  }

  lemma LastOf<T>(s: seq<T>, n: nat)
    requires 0 < n <= |s|
    ensures multiset(s[..n]) == multiset(s[..n - 1]) + multiset{s[n - 1]}
  {
    Append(s[..n - 1], s[n - 1]);
    assert s[..n] == s[..n - 1] + [s[n - 1]];
  }

  lemma {:induction false} UptoSub<T>(s: seq<T>, n: nat, out: (T, T) -> bool)
    requires n <= |s|
    ensures multiset(Upto(s, n, out)) <= multiset(s[..n])
    decreases n
  {
    if n > 0 {
      UptoSub(s, n - 1, out);
      LastOf(s, n);
      if Survives(s, n - 1, out) {
        Append(Upto(s, n - 1, out), s[n - 1]);
      }
    }
  }
  /** No survivor rules out a later one. */
  lemma NoneRuledOut<T>(s: seq<T>, out: (T, T) -> bool)
    ensures var keep := Survivors(s, out);
            forall a, b :: 0 <= a < b < |keep| ==> !out(keep[a], keep[b])
  {
    var keep, ids := Survivors(s, out), Kept(s, |s|, out);
    UptoLength(s, |s|, out);
    forall a, b | 0 <= a < b < |keep| ensures !out(keep[a], keep[b]) {
      UptoKept(s, |s|, out, a);
      UptoKept(s, |s|, out, b);
      KeptRises(s, |s|, out, a, b);
      KeptSurvives(s, |s|, out, a);
      KeptSurvives(s, |s|, out, b);
    }
  }

  /** Every other entry is ruled out by a survivor before it. */
  lemma RuledOutBy<T>(s: seq<T>, out: (T, T) -> bool, i: nat) returns (a: nat)
    requires i < |s| && i !in Kept(s, |s|, out)
    ensures a < |Survivors(s, out)| == |Kept(s, |s|, out)|
    ensures Kept(s, |s|, out)[a] < i && Survivors(s, out)[a] == s[Kept(s, |s|, out)[a]] && out(Survivors(s, out)[a], s[i])
  {
    if Survives(s, i, out) {
      KeptAll(s, |s|, out, i);
    }
    var j :| 0 <= j < i && Survives(s, j, out) && out(s[j], s[i]);
    KeptAll(s, |s|, out, j);
    a :| 0 <= a < |Kept(s, |s|, out)| && Kept(s, |s|, out)[a] == j;
    UptoKept(s, |s|, out, a);
  }

  lemma KeptIn<T>(s: seq<T>, out: (T, T) -> bool, i: nat)
    requires i < |s| && i in Kept(s, |s|, out)
    ensures s[i] in Survivors(s, out)
  {
    var keep, ids := Survivors(s, out), Kept(s, |s|, out);
    var a :| 0 <= a < |ids| && ids[a] == i;
    UptoKept(s, |s|, out, a);
    assert keep[a] == s[i];
  }
  lemma {:induction false} FirstKept<T>(s: seq<T>, n: nat, out: (T, T) -> bool)
    requires 0 < n <= |s|
    ensures Upto(s, n, out) != [] && Upto(s, n, out)[0] == s[0]
    decreases n
  {
    if n == 1 {
      assert Survives(s, 0, out);
      assert Upto(s, 0, out) == [];
    } else {
      FirstKept(s, n - 1, out);
    }
  }

  /** If nothing is ruled out by anything before it, everything survives. */
  lemma {:induction false} AllSurvive<T>(s: seq<T>, n: nat, out: (T, T) -> bool)
    requires n <= |s|
    requires forall a, b :: 0 <= a < b < |s| ==> !out(s[a], s[b])
    ensures Upto(s, n, out) == s[..n]
    decreases n
  {
    if n > 0 {
      AllSurvive(s, n - 1, out);
      assert Survives(s, n - 1, out);
      assert s[..n] == s[..n - 1] + [s[n - 1]];
    }
  }

  lemma RuledOutNext<T>(s: seq<T>, i: nat, j: nat, out: (T, T) -> bool)
    requires i < |s| && j < |s|
    ensures RuledOut(s, i + 1, j, out) <==> RuledOut(s, i, j, out) || (Survives(s, i, out) && out(s[i], s[j]))
    ensures i == j ==> (RuledOut(s, i, j, out) <==> !Survives(s, i, out))
  {
  }

  /** From i on, the dropped flags mark what the survivors before i rule out. */
  predicate Flags<T>(s: seq<T>, i: nat, dropped: seq<bool>, out: (T, T) -> bool)
    requires i <= |s| == |dropped|
  {
    forall j :: i <= j < |s| ==> (dropped[j] <==> RuledOut(s, i, j, out))
  }

  lemma FlagsNext<T>(s: seq<T>, i: nat, was: seq<bool>, now: seq<bool>, out: (T, T) -> bool)
    requires i < |s| == |was| == |now| && Flags(s, i, was, out)
    requires forall m :: i < m < |s| ==> (now[m] <==> was[m] || (!was[i] && out(s[i], s[m])))
    ensures (Survives(s, i, out) <==> !was[i]) && Flags(s, i + 1, now, out)
  {
    RuledOutNext(s, i, i, out);
    forall j | i < j < |s| ensures now[j] <==> RuledOut(s, i + 1, j, out) {
      RuledOutNext(s, i, j, out);
    }
  }

  /** The sweep with its dropped flags: keep the next entry that is not dropped,
      and drop what it rules out behind it. */
  method Sweep<T>(s: seq<T>, out: (T, T) -> bool) returns (keep: seq<T>)
    ensures keep == Survivors(s, out)
  {
    var n := |s|;
    var dropped := new bool[n](_ => false);
    keep := [];
    var i := 0;
    while i < n
      invariant 0 <= i <= n
      invariant keep == Upto(s, i, out) && Flags(s, i, dropped[..], out)
    {
      ghost var was := dropped[..];
      if dropped[i] {
        FlagsNext(s, i, was, was, out);
        i := i + 1;
        continue;
      }
      keep := keep + [s[i]];
      DropBehind(s, i, out, dropped);
      FlagsNext(s, i, was, dropped[..], out);
      i := i + 1;
    }
  }

  /** The inner loop: entry i drops what it rules out behind it. */
  method DropBehind<T>(s: seq<T>, i: nat, out: (T, T) -> bool, dropped: array<bool>)
    requires i < |s| == dropped.Length
    modifies dropped
    ensures forall m :: 0 <= m < |s| ==> (dropped[m] <==> old(dropped[m]) || (m > i && out(s[i], s[m])))
  {
    var j := i + 1;
    while j < |s|
      invariant i < j <= |s|
      invariant forall m :: 0 <= m < j ==> (dropped[m] <==> old(dropped[m]) || (m > i && out(s[i], s[m])))
      invariant forall m :: j <= m < |s| ==> dropped[m] == old(dropped[m])
    {
      if !dropped[j] && out(s[i], s[j]) {
        dropped[j] := true;
      }
      j := j + 1;
    }
  }
}
