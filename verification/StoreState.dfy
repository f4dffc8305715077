/** A user's enrollment directory as the store sees it (daemon/enrollment_store.cpp). */
module StoreState {
  import Fa01
  import opened Wrappers

  type Uid = nat

  /** std::filesystem::file_time_type::min() */
  const MIN_TIME: int := -0x8000_0000_0000_0000

  type Time = t: int | MIN_TIME <= t witness MIN_TIME

  /** A regular file. */
  datatype File = File(mtime: Time, bytes: seq<Fa01.byte>)

  /** Regular files by name; a missing directory reads like an empty one. */
  type Dir = map<string, File>

  /** UserEnrollment */
  datatype Item = Item(lbl: string, file: Fa01.Enrollment)

  const ENC: string := ".enc"
  const TMP: string := ".tmp"

  // ------------------------------------------------------------ file names

  /** Position of the last dot, or -1. */
  function LastDot(s: string): (k: int)
    ensures -1 <= k < |s|
    ensures k >= 0 ==> s[k] == '.'
    ensures forall i :: k < i < |s| ==> s[i] != '.'
  {
    if s == [] then -1
    else if s[|s| - 1] == '.' then |s| - 1
    else LastDot(s[..|s| - 1])
  }

  /** path::extension() of a file name: a leading dot starts no extension. */
  function Extension(name: string): string {
    var k := LastDot(name);
    if name == "." || name == ".." || k <= 0 then "" else name[k..]
  }

  /** The names whose extension is ".enc" (see ExtensionIsEnc): something, then
      ".enc". */
  predicate IsEnc(name: string) { |name| > 4 && name[|name| - 4..] == ENC }

  /** path::stem() of an enrollment file's name. */
  function Stem(name: string): string
    requires IsEnc(name)
  {
    name[..|name| - 4]
  }

  lemma ExtensionIsEnc(name: string)
    ensures Extension(name) == ENC <==> IsEnc(name)
    ensures IsEnc(name) ==> name == Stem(name) + Extension(name)
  {
    var k := LastDot(name);
    if IsEnc(name) {
      var m := |name| - 4;
      assert name[m..][0] == '.' && name[m..][1] == 'e' && name[m..][2] == 'n' && name[m..][3] == 'c';
      assert name[m] == '.' && name[m + 1] == 'e' && name[m + 2] == 'n' && name[m + 3] == 'c';
      assert k == m;
    }
    if Extension(name) == ENC {
      assert name[k..] == ENC && |name[k..]| == 4;
    }
  }

  function NameOf(lbl: string): string { lbl + ENC }

  function TmpNameOf(lbl: string): string { NameOf(lbl) + TMP }

  /** The store recognises exactly the names it gives out, and gets the label
      back; it never takes a temporary file for an enrollment. */
  lemma Names(lbl: string, name: string)
    ensures IsEnc(NameOf(lbl)) <==> lbl != ""
    ensures lbl != "" ==> Stem(NameOf(lbl)) == lbl
    ensures !IsEnc(TmpNameOf(lbl))
    ensures IsEnc(name) ==> Stem(name) != "" && NameOf(Stem(name)) == name
  {
    var n := NameOf(lbl);
    assert n[|n| - 4..] == ENC;
    assert n[..|lbl|] == lbl;
    var t := TmpNameOf(lbl);
    assert t[|t| - 4..] == TMP;
    assert TMP[1] == 't' && ENC[1] == 'e';
    if IsEnc(name) {
      assert name == name[..|name| - 4] + name[|name| - 4..];
    }
  }

  // ------------------------------------------------- newest file, fresh load

  /** best is what latest_mtime returns if it looks at the files in seen. */
  ghost predicate IsLatest(d: Dir, seen: set<string>, best: Time) {
    && (forall n :: n in seen && n in d && IsEnc(n) ==> d[n].mtime <= best)
    && (best == MIN_TIME || exists n :: n in seen && n in d && IsEnc(n) && d[n].mtime == best)
  }

  lemma LatestUnique(d: Dir, seen: set<string>, a: Time, b: Time)
    requires IsLatest(d, seen, a) && IsLatest(d, seen, b)
    ensures a == b
  {
  }

  /** The file n of directory d holds the readable enrollment e. */
  predicate Holds(d: Dir, n: string, e: Fa01.Enrollment) {
    n in d && IsEnc(n) && Fa01.Decode(d[n].bytes) == Some(e)
  }

  /** items is what loading the files in seen, in some order, produces. */
  ghost predicate IsLoad(d: Dir, seen: set<string>, items: seq<Item>) {
    && Distinct(items)
    && (forall i :: 0 <= i < |items| ==> NameOf(items[i].lbl) in seen && Holds(d, NameOf(items[i].lbl), items[i].file))
    && (forall n, e :: n in seen && Holds(d, n, e) ==> Item(Stem(n), e) in items)
  }

  /** A fresh load of the whole directory. */
  ghost predicate FreshLoad(d: Dir, items: seq<Item>) { IsLoad(d, d.Keys, items) }

  ghost predicate Newest(d: Dir, t: Time) { IsLatest(d, d.Keys, t) }

  lemma Contained(d: Dir, a: seq<Item>, b: seq<Item>)
    requires FreshLoad(d, a) && FreshLoad(d, b)
    ensures forall it :: it in a ==> it in b
  {
    forall it | it in a ensures it in b {
      var i :| 0 <= i < |a| && a[i] == it;
      var n := NameOf(a[i].lbl);
      assert Holds(d, n, it.file);
      Names(it.lbl, n);
      assert Item(Stem(n), it.file) in b;
    }
  }

  /** Two fresh loads of one directory hold the same enrollments. */
  lemma FreshLoadUnique(d: Dir, a: seq<Item>, b: seq<Item>)
    requires FreshLoad(d, a) && FreshLoad(d, b)
    ensures |a| == |b| && multiset(a) == multiset(b)
  {
    Contained(d, a, b);
    Contained(d, b, a);
    SameMembers(a, b);
  }

  predicate Distinct(s: seq<Item>) {
    forall i, j :: 0 <= i < j < |s| ==> s[i].lbl != s[j].lbl
  }

  lemma SameMembers(a: seq<Item>, b: seq<Item>)
    requires Distinct(a) && Distinct(b) && forall it :: it in a <==> it in b
    ensures |a| == |b| && multiset(a) == multiset(b)
  {
    DistinctMultiset(a);
    DistinctMultiset(b);
    assert |a| == |multiset(a)| && |b| == |multiset(b)|;
    assert multiset(a) == multiset(b);
  }

  lemma {:induction false} DistinctMultiset(s: seq<Item>)
    requires Distinct(s)
    ensures forall it :: multiset(s)[it] == if it in s then 1 else 0
    decreases |s|
  {
    if s == [] {
    } else {
      assert s == [s[0]] + s[1..];
      DistinctMultiset(s[1..]);
      assert s[0] !in s[1..];
    }
  }

  // ------------------------------------------------------- one file at a time

  function Later(best: Time, n: string, f: File): Time {
    if IsEnc(n) && f.mtime > best then f.mtime else best
  }

  function LoadOne(items: seq<Item>, n: string, f: File): seq<Item> {
    if !IsEnc(n) then items
    else
      match Fa01.Decode(f.bytes)
      case None => items
      case Some(e) => items + [Item(Stem(n), e)]
  }

  lemma LaterStep(d: Dir, seen: set<string>, best: Time, n: string)
    requires IsLatest(d, seen, best) && n in d
    ensures IsLatest(d, seen + {n}, Later(best, n, d[n]))
  {
  }

  lemma LoadStep(d: Dir, seen: set<string>, items: seq<Item>, n: string)
    requires IsLoad(d, seen, items) && n in d && n !in seen
    ensures IsLoad(d, seen + {n}, LoadOne(items, n, d[n]))
  {
    Names("", n);
    if IsEnc(n) && Fa01.Decode(d[n].bytes).Some? {
      LoadAdd(d, seen, items, n, Stem(n), Fa01.Decode(d[n].bytes).value);
    } else {
      assert forall f :: !Holds(d, n, f);
    }
  }

  lemma LoadAdd(d: Dir, seen: set<string>, items: seq<Item>, n: string, lbl: string, e: Fa01.Enrollment)
    requires IsLoad(d, seen, items) && n !in seen && Holds(d, n, e)
    requires NameOf(lbl) == n && Stem(n) == lbl
    ensures IsLoad(d, seen + {n}, items + [Item(lbl, e)])
  {
    var it := Item(lbl, e);
    var after := items + [it];
    forall i | 0 <= i < |items| ensures items[i].lbl != lbl {
      assert NameOf(items[i].lbl) in seen;
    }
    forall i | 0 <= i < |after|
      ensures NameOf(after[i].lbl) in seen + {n} && Holds(d, NameOf(after[i].lbl), after[i].file)
    {
      assert i < |items| ==> after[i] == items[i];
    }
    forall m, f | m in seen + {n} && Holds(d, m, f) ensures Item(Stem(m), f) in after {
      if m == n {
        assert f == e && after[|items|] == it;
      } else {
        assert Item(Stem(m), f) in items;
      }
    }
  }

  // ------------------------------------- what an edit does to load and key

  /** Writing the temporary file is invisible. */
  lemma TmpInvisible(d: Dir, lbl: string, f: File, t: Time, items: seq<Item>)
    ensures var d' := d[TmpNameOf(lbl) := f];
            (Newest(d', t) <==> Newest(d, t)) && (FreshLoad(d', items) <==> FreshLoad(d, items))
  {
    var x := TmpNameOf(lbl);
    Names(lbl, x);
    SameEncFiles(d, d[x := f], t, items);
    SameEncFiles(d[x := f], d, t, items);
  }

  ghost predicate SameEnc(d: Dir, d': Dir) {
    forall n :: IsEnc(n) ==> (n in d <==> n in d') && (n in d ==> d[n] == d'[n])
  }

  lemma SameEncFiles(d: Dir, d': Dir, t: Time, items: seq<Item>)
    requires SameEnc(d, d')
    ensures Newest(d, t) ==> Newest(d', t)
    ensures FreshLoad(d, items) ==> FreshLoad(d', items)
  {
    if Newest(d, t) && t != MIN_TIME {
      var n :| n in d.Keys && IsEnc(n) && d[n].mtime == t;
      assert n in d'.Keys && d'[n].mtime == t;
    }
    forall n, e ensures Holds(d, n, e) <==> Holds(d', n, e) {
    }
    if FreshLoad(d, items) {
      forall n, e | n in d'.Keys && Holds(d', n, e) ensures Item(Stem(n), e) in items {
        assert n in d.Keys && Holds(d, n, e);
      }
      forall i | 0 <= i < |items| ensures NameOf(items[i].lbl) in d'.Keys && Holds(d', NameOf(items[i].lbl), items[i].file) {
        assert Holds(d, NameOf(items[i].lbl), items[i].file);
      }
    }
  }

  /** After a save of e under label, a fresh load holds exactly e for that label
      (nothing, if e is empty or has more than 1000 embeddings) and what it held
      before for every other. */
  lemma SaveVisible(d: Dir, lbl: string, e: Fa01.Enrollment, clock: Fa01.u64, mtime: Time, l: string, x: Fa01.Enrollment)
    requires lbl != "" && Fa01.RightDims(e) && |e.embeddings| < 0x1_0000_0000
    ensures var d' := d[NameOf(lbl) := File(mtime, Fa01.Encode(e, clock))];
            Holds(d', NameOf(l), x) <==>
              if l == lbl
              then 1 <= |e.embeddings| <= Fa01.MAX_EMBEDDINGS && x == e.(created := Fa01.Created(e, clock))
              else Holds(d, NameOf(l), x)
  {
    Names(lbl, NameOf(lbl));
    Names(l, NameOf(l));
    Fa01.RoundTrip(e, clock, []);
    assert Fa01.Encode(e, clock) + [] == Fa01.Encode(e, clock);
    assert NameOf(l)[..|NameOf(l)| - 4] == l && NameOf(lbl)[..|NameOf(lbl)| - 4] == lbl;
  }

  // --------------------------------------- when the key notices an edit

  /** Deleting one enrollment file changes the newest mtime exactly if that file
      was newer than every other (and than the minimum time). */
  lemma DeletionNoticedIff(d: Dir, n: string, before: Time, after: Time)
    requires n in d && IsEnc(n)
    requires Newest(d, before) && Newest(d - {n}, after)
    ensures after != before <==>
            d[n].mtime > MIN_TIME && forall m :: m in d && m != n && IsEnc(m) ==> d[m].mtime < d[n].mtime
  {
    var d' := d - {n};
    assert forall m :: m in d' <==> m in d && m != n;
    if d[n].mtime > MIN_TIME && forall m :: m in d && m != n && IsEnc(m) ==> d[m].mtime < d[n].mtime {
      assert before >= d[n].mtime;
    } else if d[n].mtime == MIN_TIME {
      if before != MIN_TIME {
        var m :| m in d.Keys && IsEnc(m) && d[m].mtime == before;
        assert m != n && m in d'.Keys;
      }
      assert IsLatest(d', d'.Keys, before);
      LatestUnique(d', d'.Keys, before, after);
    } else {
      var m :| m in d && m != n && IsEnc(m) && d[m].mtime >= d[n].mtime;
      assert before >= d[m].mtime;
      var w :| w in d.Keys && IsEnc(w) && d[w].mtime == before;
      var v := if w == n then m else w;
      assert v in d'.Keys && d'[v].mtime == before;
      assert IsLatest(d', d'.Keys, before);
      LatestUnique(d', d'.Keys, before, after);
    }
  }

  /** Writing a file (new or replacing one) with mtime t changes the newest mtime
      exactly if t is newer than everything, or it replaces the single newest file
      with an older one. */
  lemma WriteNoticedIff(d: Dir, n: string, f: File, before: Time, after: Time)
    requires IsEnc(n)
    requires Newest(d, before) && Newest(d[n := f], after)
    ensures after != before <==>
            || f.mtime > before
            || (n in d && f.mtime < d[n].mtime
                && forall m :: m in d && m != n && IsEnc(m) ==> d[m].mtime < d[n].mtime)
  {
    var d' := d[n := f];
    assert n in d'.Keys && f.mtime <= after;
    if f.mtime > before {
    } else if f.mtime == before {
      assert IsLatest(d', d'.Keys, before);
      LatestUnique(d', d'.Keys, before, after);
    } else {
      assert before > MIN_TIME;
      var w :| w in d.Keys && IsEnc(w) && d[w].mtime == before;
      if n in d && f.mtime < d[n].mtime && forall m :: m in d && m != n && IsEnc(m) ==> d[m].mtime < d[n].mtime {
        assert w == n;
      } else {
        var v := w;
        if w == n {
          v :| v in d && v != n && IsEnc(v) && d[v].mtime >= d[n].mtime;
        }
        assert v in d'.Keys && d'[v].mtime == before;
        assert IsLatest(d', d'.Keys, before);
        LatestUnique(d', d'.Keys, before, after);
      }
    }
  }
}
