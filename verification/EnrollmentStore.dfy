/** The EnrollmentStore object itself, one call at a time. */
module EnrollmentStore {
  import opened StoreState
  import StoreProtocol
  import Fa01

  /** The names in the order a directory iterator happens to give them. */
  ghost predicate Listing(d: Dir, order: seq<string>) {
    && (forall i, j :: 0 <= i < j < |order| ==> order[i] != order[j])
    && (forall n :: n in order <==> n in d)
  }

  ghost function SeenUpTo(order: seq<string>, i: nat): set<string>
    requires i <= |order|
  {
    set n | n in order[..i]
  }

  lemma SeenNext(order: seq<string>, i: nat)
    requires i < |order|
    requires forall j, k :: 0 <= j < k < |order| ==> order[j] != order[k]
    ensures SeenUpTo(order, i + 1) == SeenUpTo(order, i) + {order[i]}
    ensures order[i] !in SeenUpTo(order, i)
  {
  }

  /** path.extension() == ".enc" */
  method HasEncExtension(name: string) returns (b: bool)
    ensures b <==> IsEnc(name)
  {
    ExtensionIsEnc(name);
    b := Extension(name) == ENC;
  }

  /** latest_mtime */
  method LatestMtime(d: Dir, order: seq<string>) returns (best: Time)
    requires Listing(d, order)
    ensures Newest(d, best)
  {
    best := MIN_TIME;
    var i := 0;
    while i < |order|
      invariant 0 <= i <= |order|
      invariant IsLatest(d, SeenUpTo(order, i), best)
    {
      var n := order[i];
      SeenNext(order, i);
      LaterStep(d, SeenUpTo(order, i), best, n);
      var enc := HasEncExtension(n);
      if enc && d[n].mtime > best {
        best := d[n].mtime;
      }
      i := i + 1;
    }
    assert order[..i] == order;
    assert SeenUpTo(order, i) == d.Keys;
  }

  function Lookup(disk: map<Uid, Dir>, u: Uid): Dir {
    if u in disk then disk[u] else map[]
  }

  /** Every entry is keyed by the newest modification time and is a fresh load. */
  ghost predicate CoherentWith(cache: map<Uid, StoreProtocol.Entry>, disk: map<Uid, Dir>) {
    forall u :: u in cache ==> Newest(Lookup(disk, u), cache[u].mtime) && FreshLoad(Lookup(disk, u), cache[u].items)
  }

  lemma EditAndErase(cache: map<Uid, StoreProtocol.Entry>, disk: map<Uid, Dir>, u: Uid, d: Dir)
    requires CoherentWith(cache, disk)
    ensures CoherentWith(cache - {u}, disk[u := d])
  {
  }

  lemma EditTmp(cache: map<Uid, StoreProtocol.Entry>, disk: map<Uid, Dir>, u: Uid, lbl: string, f: File)
    requires CoherentWith(cache, disk)
    ensures CoherentWith(cache, disk[u := Lookup(disk, u)[TmpNameOf(lbl) := f]])
  {
    if u in cache {
      TmpInvisible(Lookup(disk, u), lbl, f, cache[u].mtime, cache[u].items);
    }
  }

  class EnrollmentStore {
    var cache: map<Uid, StoreProtocol.Entry>
    var disk: map<Uid, Dir>   // users_dir_, by user

    constructor (disk: map<Uid, Dir>)
      ensures cache == map[] && this.disk == disk
    {
      cache, this.disk := map[], disk;
    }

    function DirOf(u: Uid): Dir
      reads this
    {
      Lookup(disk, u)
    }

    /** What the store keeps as long as only its own methods change the
        directories. */
    ghost predicate Coherent()
      reads this
    {
      CoherentWith(cache, disk)
    }

    /** order: the directory as the two walks list it. Whatever the cache holds, a
        hit returns it and a miss returns a fresh load and caches it under the
        newest modification time. */
    method ForUid(u: Uid, order: seq<string>) returns (items: seq<Item>, hit: bool)
      requires Listing(DirOf(u), order)
      modifies this`cache
      ensures hit <==> u in old(cache) && Newest(DirOf(u), old(cache)[u].mtime)
      ensures hit ==> cache == old(cache) && items == old(cache)[u].items
      ensures !hit ==> FreshLoad(DirOf(u), items)
      ensures u in cache && cache[u].items == items && Newest(DirOf(u), cache[u].mtime)
      ensures cache - {u} == old(cache) - {u}
      ensures old(Coherent()) ==> Coherent() && FreshLoad(DirOf(u), items)
    {
      var d := DirOf(u);
      var mt := LatestMtime(d, order);
      if u in cache && Newest(d, cache[u].mtime) {
        LatestUnique(d, d.Keys, cache[u].mtime, mt);
      }
      if u in cache && cache[u].mtime == mt {
        return cache[u].items, true;
      }
      hit := false;
      items := [];
      var i := 0;
      while i < |order|
        invariant 0 <= i <= |order|
        invariant cache == old(cache)
        invariant IsLoad(d, SeenUpTo(order, i), items)
      {
        var n := order[i];
        SeenNext(order, i);
        LoadStep(d, SeenUpTo(order, i), items, n);
        var enc := HasEncExtension(n);
        if enc {
          var loaded := Fa01.LoadEnrollment(d[n].bytes);
          if loaded.Some? {
            items := items + [Item(Stem(n), loaded.value)];
          }
        }
        i := i + 1;
      }
      assert order[..i] == order;
      assert SeenUpTo(order, i) == d.Keys;
      cache := cache[u := StoreProtocol.Entry(mt, items)];
    }

    /** ok = false: it threw, with at most a temporary file (holding tmp) left
        behind. */
    method Save(u: Uid, lbl: string, e: Fa01.Enrollment, clock: Fa01.u64, mtime: Time, room: nat)
      returns (ok: bool, tmp: seq<Fa01.byte>)
      modifies this
      ensures ok <==> StoreProtocol.ValidLabel(lbl) && Fa01.RightDims(e) && |Fa01.Encode(e, clock)| <= room
      ensures ok ==> disk == old(disk)[u := old(DirOf(u))[NameOf(lbl) := File(mtime, Fa01.Encode(e, clock))] - {TmpNameOf(lbl)}]
      ensures ok ==> cache == old(cache) - {u}
      ensures !ok ==> cache == old(cache)
      ensures !ok ==> disk == old(disk) || disk == old(disk)[u := old(DirOf(u))[TmpNameOf(lbl) := File(mtime, tmp)]]
      ensures old(Coherent()) ==> Coherent()
    {
      if lbl == "" || '/' in lbl || '\0' in lbl {
        return false, [];
      }
      Names(lbl, NameOf(lbl));
      assert NameOf(lbl) != TmpNameOf(lbl);
      var d := DirOf(u);
      var f := new Fa01.OutFile(room);
      ok := Fa01.SaveEnrollment(f, e, clock);
      tmp := f.bytes;
      disk := disk[u := d[TmpNameOf(lbl) := File(mtime, tmp)]];
      if !ok {
        if old(Coherent()) {
          EditTmp(cache, old(disk), u, lbl, File(mtime, tmp));
        }
        return;
      }
      var dir := disk[u];
      disk := disk[u := dir[NameOf(lbl) := dir[TmpNameOf(lbl)]] - {TmpNameOf(lbl)}];
      RenamedDir(d, NameOf(lbl), TmpNameOf(lbl), File(mtime, tmp));
      cache := cache - {u};
      if old(Coherent()) {
        EditAndErase(old(cache), old(disk), u, disk[u]);
        assert disk == old(disk)[u := disk[u]];
      }
    }

    /** removable: what the file system will let go of. */
    method Remove(u: Uid, lbl: string, removable: bool) returns (n: int)
      modifies this
      ensures n == if removable && NameOf(lbl) in old(DirOf(u)) then 1 else 0
      ensures DirOf(u) == if n == 1 then old(DirOf(u)) - {NameOf(lbl)} else old(DirOf(u))
      ensures forall v :: v != u ==> DirOf(v) == old(DirOf(v))
      ensures cache == old(cache) - {u}
      ensures old(Coherent()) ==> Coherent()
    {
      n := 0;
      if u in disk && NameOf(lbl) in disk[u] && removable {
        disk := disk[u := disk[u] - {NameOf(lbl)}];
        n := 1;
      }
      cache := cache - {u};
    }

    method RemoveAll(u: Uid, order: seq<string>) returns (n: nat)
      requires Listing(DirOf(u), order)
      modifies this
      ensures DirOf(u) == WithoutEnc(old(DirOf(u)))
      ensures n == |EncNames(old(DirOf(u)))|
      ensures forall v :: v != u ==> DirOf(v) == old(DirOf(v))
      ensures cache == if u in old(disk) then old(cache) - {u} else old(cache)
      ensures FreshLoad(DirOf(u), [])
      ensures old(Coherent()) ==> Coherent()
    {
      NothingLoads(DirOf(u));
      if u !in disk {
        assert EncNames(DirOf(u)) == {};
        return 0;
      }
      var d;
      d, n := RemoveFiles(disk[u], order);
      disk := disk[u := d];
      cache := cache - {u};
    }
  }

  /** Writing a temporary file and renaming it over its target. */
  lemma RenamedDir(d: Dir, n: string, tmp: string, f: File)
    requires n != tmp
    ensures d[tmp := f][n := f] - {tmp} == d[n := f] - {tmp}
  {
  }

  ghost function EncNames(d: Dir): set<string> { set m | m in d && IsEnc(m) }

  ghost function WithoutEnc(d: Dir): Dir { d - EncNames(d) }

  lemma NothingLoads(d: Dir)
    ensures FreshLoad(WithoutEnc(d), [])
  {
  }

  /** What deleting the enrollment files of a listing, in its order, leaves. */
  function Swept(d: Dir, order: seq<string>): Dir {
    if order == [] then d
    else Swept(if IsEnc(order[0]) then d - {order[0]} else d, order[1..])
  }

  function EncCount(order: seq<string>): nat {
    if order == [] then 0 else (if IsEnc(order[0]) then 1 else 0) + EncCount(order[1..])
  }

  lemma EncStep(d: Dir, m: string)
    requires m in d && IsEnc(m)
    ensures EncNames(d) == EncNames(d - {m}) + {m} && m !in EncNames(d - {m})
    ensures WithoutEnc(d) == WithoutEnc(d - {m})
  {
  }

  /** order names files of d, once each, and every enrollment file among them. */
  ghost predicate Covers(d: Dir, order: seq<string>) {
    && (forall i, j :: 0 <= i < j < |order| ==> order[i] != order[j])
    && (forall i :: 0 <= i < |order| ==> order[i] in d)
    && EncNames(d) <= set n | n in order
  }

  lemma CoversRest(d: Dir, order: seq<string>)
    requires order != [] && Covers(d, order)
    ensures Covers(if IsEnc(order[0]) then d - {order[0]} else d, order[1..])
  {
    var m, rest := order[0], order[1..];
    assert forall n :: n in order <==> n == m || n in rest;
    assert forall i :: 0 <= i < |rest| ==> rest[i] == order[i + 1];
    var d' := if IsEnc(m) then d - {m} else d;
    forall n | n in EncNames(d') ensures n in rest {
      assert n in EncNames(d) && n != m;
    }
  }

  lemma {:induction false} SweptAll(d: Dir, order: seq<string>)
    requires Covers(d, order)
    ensures Swept(d, order) == WithoutEnc(d)
    decreases |order|
  {
    if order == [] {
      assert EncNames(d) == {};
      assert WithoutEnc(d) == d;
    } else {
      CoversRest(d, order);
      if IsEnc(order[0]) {
        EncStep(d, order[0]);
        SweptAll(d - {order[0]}, order[1..]);
      } else {
        SweptAll(d, order[1..]);
      }
    }
  }

  lemma {:induction false} CountAll(d: Dir, order: seq<string>)
    requires Covers(d, order)
    ensures EncCount(order) == |EncNames(d)|
    decreases |order|
  {
    if order == [] {
      assert EncNames(d) == {};
    } else {
      CoversRest(d, order);
      if IsEnc(order[0]) {
        EncStep(d, order[0]);
        CountAll(d - {order[0]}, order[1..]);
      } else {
        CountAll(d, order[1..]);
      }
    }
  }

  lemma SweepStep(d: Dir, order: seq<string>, i: nat)
    requires i < |order|
    ensures Swept(d, order[i..]) == Swept(if IsEnc(order[i]) then d - {order[i]} else d, order[i + 1..])
    ensures EncCount(order[i..]) == (if IsEnc(order[i]) then 1 else 0) + EncCount(order[i + 1..])
  {
    assert order[i..][1..] == order[i + 1..];
  }

  /** The deleting loop of remove_all. */
  method RemoveFiles(d: Dir, order: seq<string>) returns (left: Dir, n: nat)
    requires Listing(d, order)
    ensures left == WithoutEnc(d) && n == |EncNames(d)|
  {
    SweptAll(d, order);
    CountAll(d, order);
    left, n := d, 0;
    var i := 0;
    while i < |order|
      invariant 0 <= i <= |order|
      invariant Swept(d, order) == Swept(left, order[i..])
      invariant EncCount(order) == n + EncCount(order[i..])
    {
      SweepStep(left, order, i);
      var enc := HasEncExtension(order[i]);
      if enc {
        left, n := left - {order[i]}, n + 1;
      }
      i := i + 1;
    }
  }
}
