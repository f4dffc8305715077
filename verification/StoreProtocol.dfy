/** The enrollment cache under concurrency (daemon/enrollment_store.cpp).

    for_uid holds the store's mutex throughout, but looks at one file at a time
    while the directory may change under it. save, remove and remove_all change
    the directory without the mutex and take it only to erase the cache entry. */
module StoreProtocol {
  import opened StoreState
  import Fa01
  import opened Wrappers

  datatype Op = Save(lbl: string) | Remove(rlbl: string) | RemoveAll

  /** A save is Writing from opening its temporary file to renaming it. Two saves of
      one label share that file; when one of them renames it, the other is Orphaned:
      what it goes on writing lands in the file now in place. A mutator has Changed
      the directory between its first visible edit (for remove: its attempt) and its
      cache erase. Threw(true): an exception left it there, or orphaned, for good. */
  datatype Phase = Starting | Writing | Orphaned | Changed | Returned | Threw(changed: bool)

  datatype Thread =
    | Reader(uid: Uid, result: Option<seq<Item>>)
    | Mutator(uid: Uid, op: Op, phase: Phase)

  datatype Entry = Entry(mtime: Time, items: seq<Item>)

  /** Which of its two directory walks a for_uid is in. */
  datatype Pass = Stating | Loading

  /** The for_uid that holds the mutex. due: names its current walk must still
      visit unless they are changed meanwhile; seen: names it has visited. */
  datatype Section = Section(t: nat, uid: Uid, pass: Pass, due: set<string>, seen: set<string>,
                             best: Time, items: seq<Item>)

  datatype State = State(disk: map<Uid, Dir>, cache: map<Uid, Entry>, section: Option<Section>, threads: seq<Thread>)

  datatype Step =
    | Spawn(thread: Thread)
    | Begin(t: nat)
    | Stat(t: nat, name: string)
    | StatEnd(t: nat)
    | Load(t: nat, name: string)
    | LoadEnd(t: nat)
    | WriteTmp(t: nat, file: File)
    | WriteLate(t: nat, file: File)
    | Rename(t: nat)
    | Unlink(t: nat, name: string, ok: bool)
    | Skip(t: nat)
    | Throw(t: nat)
    | Erase(t: nat)
    | External(u: Uid, name: string, file: File) // somebody else puts an enrollment file in place

  function DirOf(s: State, u: Uid): Dir {
    if u in s.disk then s.disk[u] else map[]
  }

  function Init(disk: map<Uid, Dir>): State { State(disk, map[], None, []) }

  predicate IsMutator(s: State, t: nat) { t < |s.threads| && s.threads[t].Mutator? }

  predicate Reading(s: State, t: nat, pass: Pass) {
    s.section.Some? && s.section.value.t == t && s.section.value.pass == pass
  }

  predicate Enabled(s: State, step: Step) {
    match step
    case Spawn(th) => if th.Reader? then th.result.None? else th.phase.Starting?
    case Begin(t) => t < |s.threads| && s.threads[t].Reader? && s.threads[t].result.None? && s.section.None?
    case Stat(t, n) => Reading(s, t, Stating) && n !in s.section.value.seen && n in DirOf(s, s.section.value.uid)
    case StatEnd(t) => Reading(s, t, Stating) && s.section.value.due <= s.section.value.seen
    case Load(t, n) => Reading(s, t, Loading) && n !in s.section.value.seen && n in DirOf(s, s.section.value.uid)
    case LoadEnd(t) => Reading(s, t, Loading) && s.section.value.due <= s.section.value.seen
    case WriteTmp(t, _) =>
      // an empty label, or one with a slash or a NUL, throws instead
      && IsMutator(s, t) && s.threads[t].op.Save? && ValidLabel(s.threads[t].op.lbl)
      && (s.threads[t].phase.Starting? || s.threads[t].phase.Writing?)
    case WriteLate(t, _) =>
      && IsMutator(s, t) && s.threads[t].op.Save? && s.threads[t].phase.Orphaned?
      && NameOf(s.threads[t].op.lbl) in DirOf(s, s.threads[t].uid)
    case Rename(t) =>
      && IsMutator(s, t) && s.threads[t].op.Save? && (s.threads[t].phase.Writing? || s.threads[t].phase.Orphaned?)
      && TmpNameOf(s.threads[t].op.lbl) in DirOf(s, s.threads[t].uid)
    case Unlink(t, n, _) =>
      && IsMutator(s, t) && (s.threads[t].phase.Starting? || s.threads[t].phase.Changed?)
      && (match s.threads[t].op
          case Save(_) => false
          case Remove(l) => n == NameOf(l) && s.threads[t].phase.Starting?
          case RemoveAll => s.threads[t].uid in s.disk && IsEnc(n))
    case Skip(t) =>
      // remove_all of a directory that does not exist leaves the cache alone
      IsMutator(s, t) && s.threads[t].op.RemoveAll? && s.threads[t].phase.Starting? && s.threads[t].uid !in s.disk
    case Throw(t) => IsMutator(s, t) && !s.threads[t].phase.Returned? && !s.threads[t].phase.Threw?
    case Erase(t) => IsMutator(s, t) && s.threads[t].phase.Changed? && s.section.None?
    case External(u, n, f) =>
      // newer than all files there: when others are noticed, WriteNoticedIff says
      IsEnc(n) && f.mtime > MIN_TIME && forall m :: m in DirOf(s, u) && IsEnc(m) ==> DirOf(s, u)[m].mtime < f.mtime
  }

  predicate ValidLabel(l: string) {
    l != "" && '/' !in l && '\0' !in l
  }

  function Advance(s: State, t: nat, p: Phase): State
    requires IsMutator(s, t)
  {
    s.(threads := s.threads[t := s.threads[t].(phase := p)])
  }

  /** Who else was writing the file that thread t renames loses it. */
  function Renamed(threads: seq<Thread>, t: nat): (r: seq<Thread>)
    requires t < |threads| && threads[t].Mutator?
    ensures |r| == |threads| && r[t] == threads[t].(phase := Changed)
    ensures forall i :: 0 <= i < |r| && i != t ==> r[i] == Bereft(threads[i], threads[t])
  {
    seq(|threads|, i requires 0 <= i < |threads| =>
      if i == t then threads[t].(phase := Changed) else Bereft(threads[i], threads[t]))
  }

  function Bereft(th: Thread, winner: Thread): Thread
    requires winner.Mutator?
  {
    if th.Mutator? && th.uid == winner.uid && th.op == winner.op && th.phase.Writing? then th.(phase := Orphaned) else th
  }

  /** A directory changes under whoever is walking it: a changed name need not be
      reported. */
  function Edit(s: State, u: Uid, d: Dir, names: set<string>): State {
    s.(disk := s.disk[u := d],
       section := match s.section
                  case None => None
                  case Some(x) => if x.uid == u then Some(x.(due := x.due - names)) else Some(x))
  }

  function Finish(s: State, t: nat, items: seq<Item>): State
    requires t < |s.threads| && s.threads[t].Reader?
  {
    s.(threads := s.threads[t := s.threads[t].(result := Some(items))], section := None)
  }

  /** Well-formedness a step needs: the walking thread is an unfinished reader. */
  predicate SectionOk(s: State) {
    s.section.Some? ==>
      var x := s.section.value;
      x.t < |s.threads| && s.threads[x.t] == Reader(x.uid, None)
  }

  function Apply(s: State, step: Step): State
    requires Enabled(s, step) && SectionOk(s)
  {
    match step
    case Spawn(th) => s.(threads := s.threads + [th])
    case Begin(t) =>
      var u := s.threads[t].uid;
      s.(section := Some(Section(t, u, Stating, DirOf(s, u).Keys, {}, MIN_TIME, [])))
    case Stat(t, n) =>
      var x := s.section.value;
      s.(section := Some(x.(seen := x.seen + {n}, best := Later(x.best, n, DirOf(s, x.uid)[n]))))
    case StatEnd(t) =>
      var x := s.section.value;
      if x.uid in s.cache && s.cache[x.uid].mtime == x.best then Finish(s, t, s.cache[x.uid].items)
      else s.(section := Some(x.(pass := Loading, due := DirOf(s, x.uid).Keys, seen := {}, items := [])))
    case Load(t, n) =>
      var x := s.section.value;
      s.(section := Some(x.(seen := x.seen + {n}, items := LoadOne(x.items, n, DirOf(s, x.uid)[n]))))
    case LoadEnd(t) =>
      var x := s.section.value;
      Finish(s, t, x.items).(cache := s.cache[x.uid := Entry(x.best, x.items)])
    case WriteTmp(t, f) =>
      var th := s.threads[t];
      var n := TmpNameOf(th.op.lbl);
      Edit(Advance(s, t, Writing), th.uid, DirOf(s, th.uid)[n := f], {n})
    case WriteLate(t, f) =>
      var th := s.threads[t];
      var n := NameOf(th.op.lbl);
      Edit(s, th.uid, DirOf(s, th.uid)[n := f], {n})
    case Rename(t) =>
      // rename(2) keeps the temporary file's modification time
      var th := s.threads[t];
      var d := DirOf(s, th.uid);
      var tmp, n := TmpNameOf(th.op.lbl), NameOf(th.op.lbl);
      Edit(s.(threads := Renamed(s.threads, t)), th.uid, (d - {tmp})[n := d[tmp]], {tmp, n})
    case Skip(t) => Advance(s, t, Returned)
    case Unlink(t, n, ok) =>
      var th := s.threads[t];
      var s' := Advance(s, t, Changed);
      if ok && n in DirOf(s, th.uid) then Edit(s', th.uid, DirOf(s, th.uid) - {n}, {n}) else s'
    case Throw(t) => Advance(s, t, Threw(s.threads[t].phase.Changed? || s.threads[t].phase.Orphaned?))
    case Erase(t) => Advance(s, t, Returned).(cache := s.cache - {s.threads[t].uid})
    case External(u, n, f) => Edit(s, u, DirOf(s, u)[n := f], {n})
  }

  // ------------------------------------------------------------ invariant

  /** A mutator of u is between its first edit and its cache erase, or is a save
      that has lost its temporary file to another. */
  predicate InWindow(s: State, u: Uid) {
    exists t :: 0 <= t < |s.threads| && Editing(s.threads[t], u)
  }

  predicate Editing(th: Thread, u: Uid) {
    th.Mutator? && th.uid == u && (th.phase.Changed? || th.phase.Orphaned? || th.phase == Threw(true))
  }

  /** The cache entry agrees with the directory, key and contents. */
  ghost predicate Agrees(s: State, u: Uid) {
    u in s.cache ==> Newest(DirOf(s, u), s.cache[u].mtime) && FreshLoad(DirOf(s, u), s.cache[u].items)
  }

  /** What the walking for_uid has gathered agrees with the directory so far. */
  ghost predicate Gathered(s: State, x: Section) {
    var d := DirOf(s, x.uid);
    && (forall n :: n in d && IsEnc(n) ==> n in x.due || n in x.seen)
    && (match x.pass
        case Stating => IsLatest(d, x.seen, x.best)
        case Loading => Newest(d, x.best) && IsLoad(d, x.seen, x.items))
  }

  /** Some enrollment file is newer than t: a key of t is out of date. */
  predicate Overtaken(d: Dir, t: Time) { exists n :: n in d && IsEnc(n) && d[n].mtime > t }

  /** What is kept of a walk even when outsiders write: it is not ahead of the
      directory, and what it loads is right or will not be served. */
  ghost predicate Sound(s: State, x: Section) {
    var d := DirOf(s, x.uid);
    match x.pass
    case Stating => x.best == MIN_TIME || exists n :: n in d && IsEnc(n) && d[n].mtime >= x.best
    case Loading => Overtaken(d, x.best) || Gathered(s, x)
  }

  ghost predicate Inv(s: State) {
    && SectionOk(s)
    && (forall u :: u in s.cache ==> InWindow(s, u) || Agrees(s, u) || Overtaken(DirOf(s, u), s.cache[u].mtime))
    && (s.section.Some? ==> InWindow(s, s.section.value.uid) || Sound(s, s.section.value))
  }

  /** A walk of u's directory that no outsider has disturbed. */
  ghost predicate Undisturbed(s: State, u: Uid) {
    s.section.Some? && s.section.value.uid == u ==> InWindow(s, u) || Gathered(s, s.section.value)
  }

  lemma InitInv(disk: map<Uid, Dir>)
    ensures Inv(Init(disk))
  {
  }

  /** Only the erase ends a window. */
  lemma WindowStays(s: State, step: Step, u: Uid)
    requires SectionOk(s) && Enabled(s, step) && InWindow(s, u)
    ensures InWindow(Apply(s, step), u) || (step.Erase? && s.threads[step.t].uid == u && u !in Apply(s, step).cache)
  {
    var t :| 0 <= t < |s.threads| && Editing(s.threads[t], u);
    var s' := Apply(s, step);
    if !(step.Erase? && step.t == t) {
      assert Editing(s'.threads[t], u);
    }
  }

  lemma SpawnKeepsInv(s: State, step: Step)
    requires Inv(s) && Enabled(s, step)
    requires step.Spawn? || step.Begin? || step.Throw? || step.Skip?
    ensures Inv(Apply(s, step))
  {
    forall u | InWindow(s, u) ensures InWindow(Apply(s, step), u) { WindowStays(s, step, u); }
  }

  lemma WalkGathers(s: State, step: Step)
    requires SectionOk(s) && Enabled(s, step)
    requires step.Stat? || step.Load?
    ensures Gathered(s, s.section.value) ==> Gathered(Apply(s, step), Apply(s, step).section.value)
  {
    var x := s.section.value;
    var d := DirOf(s, x.uid);
    if Gathered(s, x) {
      if step.Stat? {
        LaterStep(d, x.seen, x.best, step.name);
      } else {
        LoadStep(d, x.seen, x.items, step.name);
      }
    }
  }

  lemma WalkKeepsInv(s: State, step: Step)
    requires Inv(s) && Enabled(s, step)
    requires step.Stat? || step.Load?
    ensures Inv(Apply(s, step))
  {
    forall u | InWindow(s, u) ensures InWindow(Apply(s, step), u) { WindowStays(s, step, u); }
    WalkGathers(s, step);
  }

  /** Unless overtaken, a walk that was never ahead has the newest time. */
  lemma NotOvertaken(d: Dir, t: Time)
    requires t == MIN_TIME || exists n :: n in d && IsEnc(n) && d[n].mtime >= t
    ensures Overtaken(d, t) || Newest(d, t)
  {
  }

  lemma StatEnds(s: State, step: Step)
    requires Inv(s) && Enabled(s, step) && step.StatEnd?
    ensures Inv(Apply(s, step))
  {
    forall u | InWindow(s, u) ensures InWindow(Apply(s, step), u) { WindowStays(s, step, u); }
    var x := s.section.value;
    if !InWindow(s, x.uid) {
      NotOvertaken(DirOf(s, x.uid), x.best);
    }
  }

  lemma LoadEnds(s: State, step: Step)
    requires Inv(s) && Enabled(s, step) && step.LoadEnd?
    ensures Inv(Apply(s, step))
  {
    forall u | InWindow(s, u) ensures InWindow(Apply(s, step), u) { WindowStays(s, step, u); }
    var x := s.section.value;
    if !InWindow(s, x.uid) && Gathered(s, x) {
      SeenAll(DirOf(s, x.uid), x.seen, x.best, x.items);
    }
  }

  /** A walk that has visited every enrollment file has seen the directory. */
  lemma SeenAll(d: Dir, seen: set<string>, best: Time, items: seq<Item>)
    requires forall n :: n in d && IsEnc(n) ==> n in seen
    ensures IsLatest(d, seen, best) ==> Newest(d, best)
    ensures IsLoad(d, seen, items) ==> FreshLoad(d, items)
  {
    if IsLoad(d, seen, items) {
      forall i | 0 <= i < |items| ensures NameOf(items[i].lbl) in d.Keys && Holds(d, NameOf(items[i].lbl), items[i].file) {
      }
    }
  }

  /** An edit opens its user's window and leaves other directories alone. */
  lemma EditOpens(s: State, step: Step, u: Uid)
    requires SectionOk(s) && Enabled(s, step)
    requires step.Rename? || step.WriteLate? || step.Unlink?
    ensures InWindow(Apply(s, step), s.threads[step.t].uid)
    ensures u != s.threads[step.t].uid ==> DirOf(Apply(s, step), u) == DirOf(s, u)
  {
    assert Editing(Apply(s, step).threads[step.t], s.threads[step.t].uid);
  }

  lemma EditKeepsInv(s: State, step: Step)
    requires Inv(s) && Enabled(s, step)
    requires step.Rename? || step.WriteLate? || step.Unlink?
    ensures Inv(Apply(s, step))
  {
    var s' := Apply(s, step);
    forall v
      ensures InWindow(s, v) ==> InWindow(s', v)
      ensures v != s.threads[step.t].uid ==> DirOf(s', v) == DirOf(s, v)
    {
      EditOpens(s, step, v);
      if InWindow(s, v) {
        WindowStays(s, step, v);
      }
    }
    EditOpens(s, step, 0);
  }

  lemma TmpKeepsInv(s: State, step: Step)
    requires Inv(s) && Enabled(s, step)
    requires step.WriteTmp?
    ensures Inv(Apply(s, step))
  {
    var s' := Apply(s, step);
    var u := s.threads[step.t].uid;
    forall v | InWindow(s, v) ensures InWindow(s', v) { WindowStays(s, step, v); }
    var d, d' := DirOf(s, u), DirOf(s', u);
    Names(s.threads[step.t].op.lbl, "");
    assert SameEnc(d, d');
    forall v | v in s'.cache && !InWindow(s', v) ensures Agrees(s', v) || Overtaken(DirOf(s', v), s'.cache[v].mtime) {
      if v == u {
        SameEncFiles(d, d', s.cache[u].mtime, s.cache[u].items);
      } else {
        assert DirOf(s', v) == DirOf(s, v);
      }
    }
    if s.section.Some? && !InWindow(s, s.section.value.uid) {
      TmpKeepsSound(s, step);
    }
  }

  lemma TmpKeepsGathered(s: State, step: Step)
    requires SectionOk(s) && Enabled(s, step) && step.WriteTmp?
    requires s.section.Some?
    ensures Gathered(s, s.section.value) ==> Gathered(Apply(s, step), Apply(s, step).section.value)
  {
    var s' := Apply(s, step);
    var u := s.threads[step.t].uid;
    var x := s.section.value;
    var d, d' := DirOf(s, u), DirOf(s', u);
    Names(s.threads[step.t].op.lbl, "");
    if x.uid == u {
      SameEncFiles(d, d', x.best, x.items);
      SameEncSeen(d, d', x.seen, x.best, x.items);
    } else {
      assert DirOf(s', x.uid) == DirOf(s, x.uid);
    }
  }

  lemma TmpKeepsSound(s: State, step: Step)
    requires SectionOk(s) && Enabled(s, step) && step.WriteTmp?
    requires s.section.Some? && Sound(s, s.section.value)
    ensures Sound(Apply(s, step), Apply(s, step).section.value)
  {
    var d, d' := DirOf(s, s.section.value.uid), DirOf(Apply(s, step), s.section.value.uid);
    Names(s.threads[step.t].op.lbl, "");
    assert SameEnc(d, d');
    TmpKeepsGathered(s, step);
  }

  lemma SameEncSeen(d: Dir, d': Dir, seen: set<string>, t: Time, items: seq<Item>)
    requires SameEnc(d, d')
    ensures IsLatest(d, seen, t) ==> IsLatest(d', seen, t)
    ensures IsLoad(d, seen, items) ==> IsLoad(d', seen, items)
  {
    forall n, e ensures Holds(d, n, e) <==> Holds(d', n, e) {
    }
  }

  lemma EraseKeepsInv(s: State, step: Step)
    requires Inv(s) && Enabled(s, step)
    requires step.Erase?
    ensures Inv(Apply(s, step))
  {
    var s' := Apply(s, step);
    forall v | InWindow(s, v) && v in s'.cache ensures InWindow(s', v) { WindowStays(s, step, v); }
  }

  /** What outsiders put in place is newer than any key in use. */
  lemma ExternalKeepsInv(s: State, step: Step)
    requires Inv(s) && Enabled(s, step)
    requires step.External?
    ensures Inv(Apply(s, step))
  {
    var s' := Apply(s, step);
    var d' := DirOf(s', step.u);
    forall v | InWindow(s, v) ensures InWindow(s', v) { WindowStays(s, step, v); }
    assert forall v :: v != step.u ==> DirOf(s', v) == DirOf(s, v);
    assert step.name in d' && d'[step.name] == step.file;
  }

  /** And no step but theirs disturbs a walk. */
  lemma StaysUndisturbed(s: State, step: Step, u: Uid)
    requires Inv(s) && Enabled(s, step) && Undisturbed(s, u) && !(step.External? && step.u == u)
    ensures Undisturbed(Apply(s, step), u)
  {
    if InWindow(s, u) {
      WindowStays(s, step, u);
    } else if step.Stat? || step.Load? {
      WalkGathers(s, step);
    } else if step.WriteTmp? && s.section.Some? {
      TmpKeepsGathered(s, step);
    } else if step.Rename? || step.WriteLate? || step.Unlink? {
      EditOpens(s, step, u);
    } else {
      RestUndisturbed(s, step, u);
    }
  }

  lemma RestUndisturbed(s: State, step: Step, u: Uid)
    requires SectionOk(s) && Enabled(s, step) && !InWindow(s, u) && Undisturbed(s, u) && !(step.External? && step.u == u)
    requires !step.Stat? && !step.Load? && !step.Rename? && !step.WriteLate? && !step.Unlink?
    requires !(step.WriteTmp? && s.section.Some?)
    ensures Undisturbed(Apply(s, step), u)
  {
    if step.StatEnd? && s.section.value.uid == u {
      SeenAll(DirOf(s, u), s.section.value.seen, s.section.value.best, []);
    }
  }

  lemma StepKeepsInv(s: State, step: Step)
    requires Inv(s) && Enabled(s, step)
    ensures Inv(Apply(s, step))
  {
    match step
    case Spawn(_) => SpawnKeepsInv(s, step);
    case Begin(_) => SpawnKeepsInv(s, step);
    case Throw(_) => SpawnKeepsInv(s, step);
    case Skip(_) => SpawnKeepsInv(s, step);
    case Stat(_, _) => WalkKeepsInv(s, step);
    case Load(_, _) => WalkKeepsInv(s, step);
    case StatEnd(_) => StatEnds(s, step);
    case LoadEnd(_) => LoadEnds(s, step);
    case WriteTmp(_, _) => TmpKeepsInv(s, step);
    case WriteLate(_, _) => EditKeepsInv(s, step);
    case Rename(_) => EditKeepsInv(s, step);
    case Unlink(_, _, _) => EditKeepsInv(s, step);
    case Erase(_) => EraseKeepsInv(s, step);
    case External(_, _, _) => ExternalKeepsInv(s, step);
  }

  // ----------------------------------------------------------------- runs

  ghost predicate Valid(s: State, steps: seq<Step>)
    decreases |steps|
  {
    steps == [] || (SectionOk(s) && Enabled(s, steps[0]) && Valid(Apply(s, steps[0]), steps[1..]))
  }

  ghost function Final(s: State, steps: seq<Step>): State
    requires Valid(s, steps)
    decreases |steps|
  {
    if steps == [] then s else Final(Apply(s, steps[0]), steps[1..])
  }

  lemma {:induction false} RunKeepsInv(s: State, steps: seq<Step>)
    requires Inv(s) && Valid(s, steps)
    ensures Inv(Final(s, steps))
    decreases |steps|
  {
    if steps == [] {
    } else {
      StepKeepsInv(s, steps[0]);
      RunKeepsInv(Apply(s, steps[0]), steps[1..]);
    }
  }

  lemma {:induction false} RunSplits(s: State, a: seq<Step>, b: seq<Step>)
    requires Valid(s, a) && Valid(Final(s, a), b)
    ensures Valid(s, a + b) && Final(s, a + b) == Final(Final(s, a), b)
    decreases |a|
  {
    if a == [] {
      assert a + b == b;
    } else {
      assert (a + b)[1..] == a[1..] + b;
      RunSplits(Apply(s, a[0]), a[1..], b);
    }
  }

  predicate NoOutsider(steps: seq<Step>, u: Uid) {
    forall i :: 0 <= i < |steps| ==> !(steps[i].External? && steps[i].u == u)
  }

  lemma {:induction false} RunUndisturbed(s: State, steps: seq<Step>, u: Uid)
    requires Inv(s) && Valid(s, steps) && Undisturbed(s, u) && NoOutsider(steps, u)
    ensures Undisturbed(Final(s, steps), u)
    decreases |steps|
  {
    if steps == [] {
    } else {
      StepKeepsInv(s, steps[0]);
      StaysUndisturbed(s, steps[0], u);
      RunUndisturbed(Apply(s, steps[0]), steps[1..], u);
    }
  }

  /** In every run: while no mutator of u is between its first edit and its cache
      erase, u's cache entry (if any) carries the newest modification time and is
      a fresh load of the directory; or an outsider has put a newer file there, and
      then it carries an older time. */
  lemma CacheAgreement(disk: map<Uid, Dir>, steps: seq<Step>, u: Uid)
    requires Valid(Init(disk), steps)
    ensures var s := Final(Init(disk), steps);
            !InWindow(s, u) && u in s.cache ==>
              || (Newest(DirOf(s, u), s.cache[u].mtime) && FreshLoad(DirOf(s, u), s.cache[u].items))
              || exists n :: n in DirOf(s, u) && IsEnc(n) && DirOf(s, u)[n].mtime > s.cache[u].mtime
  {
    InitInv(disk);
    RunKeepsInv(Init(disk), steps);
  }

  /** With no outsider it is always the former. */
  lemma CacheIsFresh(disk: map<Uid, Dir>, steps: seq<Step>, u: Uid)
    requires Valid(Init(disk), steps) && NoOutsider(steps, u)
    ensures var s := Final(Init(disk), steps);
            !InWindow(s, u) && u in s.cache ==>
              Newest(DirOf(s, u), s.cache[u].mtime) && FreshLoad(DirOf(s, u), s.cache[u].items)
  {
    InitInv(disk);
    RunAgrees(Init(disk), steps, u);
  }

  ghost predicate CacheAgrees(s: State, u: Uid) { u in s.cache ==> InWindow(s, u) || Agrees(s, u) }

  lemma StepAgrees(s: State, step: Step, u: Uid)
    requires Inv(s) && Enabled(s, step) && Undisturbed(s, u) && CacheAgrees(s, u) && !(step.External? && step.u == u)
    ensures CacheAgrees(Apply(s, step), u)
  {
    if InWindow(s, u) {
      WindowStays(s, step, u);
    } else if step.LoadEnd? && s.section.value.uid == u {
      SeenAll(DirOf(s, u), s.section.value.seen, s.section.value.best, s.section.value.items);
    } else if step.WriteTmp? && u in s.cache {
      Names(s.threads[step.t].op.lbl, "");
      SameEncFiles(DirOf(s, u), DirOf(Apply(s, step), u), s.cache[u].mtime, s.cache[u].items);
    } else if step.Rename? || step.WriteLate? || step.Unlink? {
      EditOpens(s, step, u);
    }
  }

  lemma {:induction false} RunAgrees(s: State, steps: seq<Step>, u: Uid)
    requires Inv(s) && Valid(s, steps) && Undisturbed(s, u) && CacheAgrees(s, u) && NoOutsider(steps, u)
    ensures CacheAgrees(Final(s, steps), u)
    decreases |steps|
  {
    if steps == [] {
    } else {
      StepKeepsInv(s, steps[0]);
      StaysUndisturbed(s, steps[0], u);
      StepAgrees(s, steps[0], u);
      RunAgrees(Apply(s, steps[0]), steps[1..], u);
    }
  }

  /** In every run: what a for_uid returns, from the cache or from disk, when no
      mutator of its user is mid-edit, is a fresh load of the directory as it is at
      that moment, if no outsider has written there since it began. Whatever
      outsiders and mutators did before, it sees. */
  lemma ReaderIsFresh(disk: map<Uid, Dir>, before: seq<Step>, t: nat, during: seq<Step>, read: Step)
    requires Valid(Init(disk), before)
    requires var s := Final(Init(disk), before);
             && SectionOk(s) && Enabled(s, Begin(t)) && Valid(Apply(s, Begin(t)), during)
             && NoOutsider(during, s.threads[t].uid)
             && SectionOk(Final(Apply(s, Begin(t)), during))
    ensures var s := Final(Init(disk), before);
            var u := s.threads[t].uid;
            var z := Final(Apply(s, Begin(t)), during);
            Ends(z, read, u) && !InWindow(z, u) ==> FreshLoad(DirOf(z, u), Answer(z, read, u))
  {
    InitInv(disk);
    RunKeepsInv(Init(disk), before);
    var s := Final(Init(disk), before);
    var u, s1 := s.threads[t].uid, Apply(s, Begin(t));
    StepKeepsInv(s, Begin(t));
    RunKeepsInv(s1, during);
    RunUndisturbed(s1, during, u);
    var z := Final(s1, during);
    if Ends(z, read, u) && !InWindow(z, u) {
      var x := z.section.value;
      SeenAll(DirOf(z, u), x.seen, x.best, x.items);
    }
  }

  /** And it is answered from the cache, with no file loaded, exactly if the entry
      carries the newest modification time. */
  lemma HitIff(disk: map<Uid, Dir>, before: seq<Step>, t: nat, during: seq<Step>, r: nat)
    requires Valid(Init(disk), before)
    requires var s := Final(Init(disk), before);
             && SectionOk(s) && Enabled(s, Begin(t)) && Valid(Apply(s, Begin(t)), during)
             && NoOutsider(during, s.threads[t].uid)
             && SectionOk(Final(Apply(s, Begin(t)), during)) && Enabled(Final(Apply(s, Begin(t)), during), StatEnd(r))
    ensures var u := Final(Init(disk), before).threads[t].uid;
            var z := Final(Apply(Final(Init(disk), before), Begin(t)), during);
            z.section.value.uid == u && !InWindow(z, u) ==>
              (Apply(z, StatEnd(r)).threads[r].result.Some? <==> u in z.cache && Newest(DirOf(z, u), z.cache[u].mtime))
  {
    InitInv(disk);
    RunKeepsInv(Init(disk), before);
    var s := Final(Init(disk), before);
    var u, s1 := s.threads[t].uid, Apply(s, Begin(t));
    StepKeepsInv(s, Begin(t));
    RunUndisturbed(s1, during, u);
    var z := Final(s1, during);
    var x := z.section.value;
    if x.uid == u && !InWindow(z, u) {
      SeenAll(DirOf(z, u), x.seen, x.best, x.items);
      if u in z.cache && Newest(DirOf(z, u), z.cache[u].mtime) {
        LatestUnique(DirOf(z, u), DirOf(z, u).Keys, x.best, z.cache[u].mtime);
      }
    }
  }

  // ------------------------------------------------ two saves of one label

  /** No two saves of one label are writing at the same time. */
  predicate Apart(s: State) {
    forall i, j :: 0 <= i < j < |s.threads| && s.threads[i].Mutator? && s.threads[j].Mutator? ==>
      !(s.threads[i].uid == s.threads[j].uid && s.threads[i].op == s.threads[j].op
        && s.threads[i].phase.Writing? && s.threads[j].phase.Writing?)
  }

  ghost predicate AlwaysApart(s: State, steps: seq<Step>)
    requires Valid(s, steps)
    decreases |steps|
  {
    Apart(s) && (steps == [] || AlwaysApart(Apply(s, steps[0]), steps[1..]))
  }

  predicate NoneLost(s: State) {
    forall i :: 0 <= i < |s.threads| ==> !(s.threads[i].Mutator? && s.threads[i].phase.Orphaned?)
  }

  /** A step orphans a save exactly if it renames the file another one is writing. */
  lemma OrphansIff(s: State, step: Step)
    requires SectionOk(s) && Enabled(s, step) && NoneLost(s)
    ensures !NoneLost(Apply(s, step)) <==>
            step.Rename? && exists i ::
              0 <= i < |s.threads| && i != step.t && Bereft(s.threads[i], s.threads[step.t]) != s.threads[i]
  {
    var r := Apply(s, step);
    if step.Rename? {
      assert forall i :: 0 <= i < |s.threads| && i != step.t ==> r.threads[i] == Bereft(s.threads[i], s.threads[step.t]);
    }
  }

  /** So while saves of one label keep apart no save is ever orphaned: the window
      of CacheAgreement is then just the stretch between first edit and erase. */
  lemma {:induction false} ApartOrphansNone(s: State, steps: seq<Step>)
    requires Valid(s, steps) && NoneLost(s) && AlwaysApart(s, steps)
    ensures NoneLost(Final(s, steps))
    decreases |steps|
  {
    if steps == [] {
    } else {
      OrphansIff(s, steps[0]);
      ApartOrphansNone(Apply(s, steps[0]), steps[1..]);
    }
  }

  lemma Cons(s: State, step: Step, rest: seq<Step>)
    requires SectionOk(s) && Enabled(s, step) && Valid(Apply(s, step), rest)
    ensures Valid(s, [step] + rest) && Final(s, [step] + rest) == Final(Apply(s, step), rest)
  {
    assert ([step] + rest)[1..] == rest;
  }

  lemma Two(s: State, a: Step, b: Step) returns (t: State)
    requires SectionOk(s) && Enabled(s, a) && SectionOk(Apply(s, a)) && Enabled(Apply(s, a), b)
    ensures Valid(s, [a, b]) && t == Final(s, [a, b]) == Apply(Apply(s, a), b)
  {
    t := Apply(Apply(s, a), b);
    Cons(Apply(s, a), b, []);
    Cons(s, a, [b]);
    assert [a] + [b] == [a, b];
  }

  lemma BothWrite(u: Uid, l: string, f: File) returns (run: seq<Step>, t: State)
    requires ValidLabel(l)
    ensures Valid(Init(map[]), run) && t == Final(Init(map[]), run)
    ensures t == State(map[u := map[TmpNameOf(l) := f]], map[], None,
                       [Mutator(u, Save(l), Writing), Mutator(u, Save(l), Writing)])
  {
    var spawn := Spawn(Mutator(u, Save(l), Starting));
    var s2 := Two(Init(map[]), spawn, spawn);
    t := Two(s2, WriteTmp(1, f), WriteTmp(0, f));
    assert DirOf(t, u) == map[TmpNameOf(l) := f];
    assert t.disk == map[u := DirOf(t, u)];
    assert t.threads == [Mutator(u, Save(l), Writing), Mutator(u, Save(l), Writing)];
    RunSplits(Init(map[]), [spawn, spawn], [WriteTmp(1, f), WriteTmp(0, f)]);
    run := [spawn, spawn] + [WriteTmp(1, f), WriteTmp(0, f)];
  }

  /** Both savers have opened the temporary file, one has renamed it and erased the
      cache entry: the other is orphaned. */
  lemma OverlapRuns(u: Uid, l: string, f: File) returns (run: seq<Step>, t: State)
    requires ValidLabel(l)
    ensures Valid(Init(map[]), run) && t == Final(Init(map[]), run)
    ensures t == State(map[u := map[NameOf(l) := f]], map[], None,
                       [Mutator(u, Save(l), Returned), Mutator(u, Save(l), Orphaned)])
  {
    var both, s := BothWrite(u, l, f);
    DifferentNames(l, l);
    t := Two(s, Rename(0), Erase(0));
    assert (DirOf(s, u) - {TmpNameOf(l)})[NameOf(l) := f] == map[NameOf(l) := f];
    RunSplits(Init(map[]), both, [Rename(0), Erase(0)]);
    run := both + [Rename(0), Erase(0)];
  }

  lemma ReaderStats(s: State, u: Uid, n: string, f: File) returns (run: seq<Step>, t: State)
    requires s.section.None? && s.disk == map[u := map[n := f]] && u !in s.cache && IsEnc(n)
    ensures Valid(s, run) && t == Final(s, run)
    ensures t == s.(threads := s.threads + [Reader(u, None)],
                    section := Some(Section(|s.threads|, u, Loading, {n}, {}, f.mtime, [])))
  {
    var r := |s.threads|;
    var s2 := Two(s, Spawn(Reader(u, None)), Begin(r));
    assert DirOf(s2, u).Keys == {n};
    t := Two(s2, Stat(r, n), StatEnd(r));
    RunSplits(s, [Spawn(Reader(u, None)), Begin(r)], [Stat(r, n), StatEnd(r)]);
    run := [Spawn(Reader(u, None)), Begin(r)] + [Stat(r, n), StatEnd(r)];
  }

  /** A for_uid that runs undisturbed on a directory of one readable file. */
  lemma ReaderRuns(s: State, u: Uid, l: string, f: File, e: Fa01.Enrollment) returns (run: seq<Step>, t: State)
    requires s.section.None? && s.disk == map[u := map[NameOf(l) := f]] && u !in s.cache && l != ""
    requires Fa01.Decode(f.bytes) == Some(e)
    ensures Valid(s, run) && t == Final(s, run) && t.section.None? && t.disk == s.disk
    ensures t.cache == s.cache[u := Entry(f.mtime, [Item(l, e)])]
    ensures t.threads == s.threads + [Reader(u, Some([Item(l, e)]))]
  {
    var r, n := |s.threads|, NameOf(l);
    Names(l, n);
    var first, s4 := ReaderStats(s, u, n, f);
    t := Two(s4, Load(r, n), LoadEnd(r));
    RunSplits(s, first, [Load(r, n), LoadEnd(r)]);
    run := first + [Load(r, n), LoadEnd(r)];
    assert [] + [Item(l, e)] == [Item(l, e)];
  }

  lemma LateRuns(s: State, u: Uid, l: string, f: File, g: File) returns (t: State)
    requires s.section.None? && |s.threads| == 3 && s.threads[1] == Mutator(u, Save(l), Orphaned)
    requires s.disk == map[u := map[NameOf(l) := f]]
    ensures Valid(s, [WriteLate(1, g), Throw(1)]) && t == Final(s, [WriteLate(1, g), Throw(1)])
    ensures t == s.(disk := map[u := map[NameOf(l) := g]], threads := s.threads[1 := Mutator(u, Save(l), Threw(true))])
  {
    t := Two(s, WriteLate(1, g), Throw(1));
    assert map[NameOf(l) := f][NameOf(l) := g] == map[NameOf(l) := g];
  }

  /** Overlapping saves do break the agreement: one returns, a reader caches what it
      saved, the other one writes on into the same file and then fails. Nobody is
      left to run, and the cache holds what is no longer there. */
  lemma OverlapGoesStale(u: Uid, l: string, f: File, g: File, e: Fa01.Enrollment) returns (run: seq<Step>, s: State)
    requires ValidLabel(l) && Fa01.Decode(f.bytes) == Some(e) && Fa01.Decode(g.bytes) != Some(e)
    ensures Valid(Init(map[]), run) && s == Final(Init(map[]), run)
    ensures s.section.None? && forall i :: 0 <= i < |s.threads| ==> !CanGoOn(s.threads[i])
    ensures u in s.cache && !FreshLoad(DirOf(s, u), s.cache[u].items)
  {
    var first, t1 := OverlapRuns(u, l, f);
    var second, t2 := ReaderRuns(t1, u, l, f, e);
    s := LateRuns(t2, u, l, f, g);
    RunSplits(Init(map[]), first, second);
    RunSplits(Init(map[]), first + second, [WriteLate(1, g), Throw(1)]);
    run := first + second + [WriteLate(1, g), Throw(1)];
    var it := s.cache[u].items[0];
    assert it == Item(l, e) && DirOf(s, u)[NameOf(l)] == g;
    assert !Holds(DirOf(s, u), NameOf(it.lbl), it.file);
  }

  predicate CanGoOn(th: Thread) {
    if th.Reader? then th.result.None? else !th.phase.Returned? && !th.phase.Threw?
  }

  // ------------------------------------------------------ read after save

  /** The step changes the entry n of u's directory. */
  predicate Touches(s: State, step: Step, u: Uid, n: string)
    requires Enabled(s, step)
  {
    match step
    case WriteTmp(t, _) => s.threads[t].uid == u && n == TmpNameOf(s.threads[t].op.lbl)
    case WriteLate(t, _) => s.threads[t].uid == u && n == NameOf(s.threads[t].op.lbl)
    case Rename(t) => s.threads[t].uid == u && n in {TmpNameOf(s.threads[t].op.lbl), NameOf(s.threads[t].op.lbl)}
    case Unlink(t, m, ok) => s.threads[t].uid == u && ok && n == m
    case External(v, m, _) => v == u && n == m
    case _ => false
  }

  predicate Untouched(s: State, steps: seq<Step>, u: Uid, n: string)
    decreases |steps|
  {
    steps == [] ||
    (Enabled(s, steps[0]) && SectionOk(s) && !Touches(s, steps[0], u, n) && Untouched(Apply(s, steps[0]), steps[1..], u, n))
  }

  lemma {:induction false} FileStays(s: State, steps: seq<Step>, u: Uid, n: string)
    requires Valid(s, steps) && Untouched(s, steps, u, n) && n in DirOf(s, u)
    ensures n in DirOf(Final(s, steps), u) && DirOf(Final(s, steps), u)[n] == DirOf(s, u)[n]
    decreases |steps|
  {
    if steps == [] {
    } else {
      FileStays(Apply(s, steps[0]), steps[1..], u, n);
    }
  }

  /** From here on every answer about user u has the item: it is in the cached
      list, if there is one, and a for_uid that is loading has it or has yet to come
      to its file. */
  predicate Serves(s: State, u: Uid, it: Item) {
    && Holds(DirOf(s, u), NameOf(it.lbl), it.file)
    && (u in s.cache ==> it in s.cache[u].items)
    && (s.section.Some? && s.section.value.uid == u && s.section.value.pass.Loading? ==>
          it in s.section.value.items || NameOf(it.lbl) in s.section.value.due - s.section.value.seen)
  }

  predicate Ends(s: State, read: Step, u: Uid)
    requires SectionOk(s)
  {
    (read.StatEnd? || read.LoadEnd?) && Enabled(s, read) && s.section.value.uid == u
      && Apply(s, read).threads[read.t].result.Some?
  }

  /** What the for_uid that ends with step read returns. */
  function Answer(s: State, read: Step, u: Uid): seq<Item>
    requires SectionOk(s) && Ends(s, read, u)
  {
    Apply(s, read).threads[read.t].result.value
  }

  lemma LoadServes(s: State, step: Step, u: Uid, it: Item)
    requires SectionOk(s) && Enabled(s, step) && step.Load? && Serves(s, u, it)
    ensures Serves(Apply(s, step), u, it)
  {
    Names(it.lbl, NameOf(it.lbl));
    var x := s.section.value;
    if x.uid == u {
      var items := LoadOne(x.items, step.name, DirOf(s, u)[step.name]);
      assert forall i :: 0 <= i < |x.items| ==> items[i] == x.items[i];
      assert step.name == NameOf(it.lbl) ==> items[|x.items|] == it;
    }
  }

  lemma StepServes(s: State, step: Step, u: Uid, it: Item)
    requires SectionOk(s) && Enabled(s, step) && Serves(s, u, it) && !Touches(s, step, u, NameOf(it.lbl))
    ensures Serves(Apply(s, step), u, it)
    ensures Ends(s, step, u) ==> it in Answer(s, step, u)
  {
    if step.Load? {
      LoadServes(s, step, u, it);
    } else if step.StatEnd? || step.LoadEnd? {
      EndServes(s, step, u, it);
    } else if step.Rename? {
      RenameServes(s, step, u, it);
    } else if step.WriteTmp? || step.WriteLate? {
      WriteServes(s, step, u, it);
    }
  }

  lemma WriteServes(s: State, step: Step, u: Uid, it: Item)
    requires SectionOk(s) && Enabled(s, step) && (step.WriteTmp? || step.WriteLate?)
    requires Serves(s, u, it) && !Touches(s, step, u, NameOf(it.lbl))
    ensures Serves(Apply(s, step), u, it)
  {
  }

  lemma RenameServes(s: State, step: Step, u: Uid, it: Item)
    requires SectionOk(s) && Enabled(s, step) && step.Rename? && Serves(s, u, it) && !Touches(s, step, u, NameOf(it.lbl))
    ensures Serves(Apply(s, step), u, it)
  {
  }

  lemma EndServes(s: State, step: Step, u: Uid, it: Item)
    requires SectionOk(s) && Enabled(s, step) && (step.StatEnd? || step.LoadEnd?) && Serves(s, u, it)
    ensures Serves(Apply(s, step), u, it)
    ensures Ends(s, step, u) ==> it in Answer(s, step, u)
  {
  }

  lemma {:induction false} RunServes(s: State, steps: seq<Step>, u: Uid, it: Item)
    requires Valid(s, steps) && Serves(s, u, it) && Untouched(s, steps, u, NameOf(it.lbl))
    ensures Serves(Final(s, steps), u, it)
    decreases |steps|
  {
    if steps == [] {
    } else {
      StepServes(s, steps[0], u, it);
      RunServes(Apply(s, steps[0]), steps[1..], u, it);
    }
  }

  /** From s on, thread t erases the cache entry in the end, others run before and
      after, nobody touches the file, and step read then ends a for_uid. */
  ghost predicate SavedThenRead(s: State, t: nat, u: Uid, l: string, mid: seq<Step>, after: seq<Step>, read: Step) {
    var run := mid + [Erase(t)] + after;
    && Valid(s, run) && Untouched(s, run, u, NameOf(l))
    && SectionOk(Final(s, run)) && Ends(Final(s, run), read, u)
  }

  /** A saved enrollment is returned by every for_uid that ends after the save
      returned, until somebody touches that file: whoever else of the same user is
      in the middle of what. The save renames a temporary file holding the encoding
      of e, other threads run, the save erases the cache entry, others run again. */
  lemma ReadAfterSave(s: State, t: nat, mid: seq<Step>, after: seq<Step>, read: Step, e: Fa01.Enrollment, clock: Fa01.u64)
    requires SectionOk(s) && Enabled(s, Rename(t)) && s.threads[t].op.lbl != ""
    requires Fa01.RightDims(e) && 1 <= |e.embeddings| <= Fa01.MAX_EMBEDDINGS
    requires var u, l := s.threads[t].uid, s.threads[t].op.lbl;
             && DirOf(s, u)[TmpNameOf(l)].bytes == Fa01.Encode(e, clock)
             && SavedThenRead(Apply(s, Rename(t)), t, u, l, mid, after, read)
    ensures var z := Final(Apply(s, Rename(t)), mid + [Erase(t)] + after);
            Item(s.threads[t].op.lbl, e.(created := Fa01.Created(e, clock))) in Answer(z, read, s.threads[t].uid)
  {
    var u, l := s.threads[t].uid, s.threads[t].op.lbl;
    var it := Item(l, e.(created := Fa01.Created(e, clock)));
    var s1 := Apply(s, Rename(t));
    SavedHolds(DirOf(s1, u), l, e, clock);
    ErasedServes(s1, t, mid + [Erase(t)] + after, |mid|, u, it);
    StepServes(Final(s1, mid + [Erase(t)] + after), read, u, it);
  }

  lemma SavedHolds(d: Dir, l: string, e: Fa01.Enrollment, clock: Fa01.u64)
    requires l != "" && Fa01.RightDims(e) && 1 <= |e.embeddings| <= Fa01.MAX_EMBEDDINGS
    requires NameOf(l) in d && d[NameOf(l)].bytes == Fa01.Encode(e, clock)
    ensures Holds(d, NameOf(l), e.(created := Fa01.Created(e, clock)))
  {
    Names(l, NameOf(l));
    Fa01.RoundTrip(e, clock, []);
    assert Fa01.Encode(e, clock) + [] == Fa01.Encode(e, clock);
  }

  /** Steps that leave a file alone leave a mutator one. */
  lemma StepStays(s: State, step: Step, u: Uid, n: string, t: nat)
    requires SectionOk(s) && Enabled(s, step) && IsMutator(s, t)
    ensures IsMutator(Apply(s, step), t) && Apply(s, step).threads[t].uid == s.threads[t].uid
    ensures !Touches(s, step, u, n) && n in DirOf(s, u) ==>
              n in DirOf(Apply(s, step), u) && DirOf(Apply(s, step), u)[n] == DirOf(s, u)[n]
  {
  }

  /** With the file in place, the erase makes the store serve it. */
  lemma ErasedServes(s: State, t: nat, run: seq<Step>, k: nat, u: Uid, it: Item)
    requires Holds(DirOf(s, u), NameOf(it.lbl), it.file) && IsMutator(s, t) && s.threads[t].uid == u
    requires k < |run| && run[k] == Erase(t) && Valid(s, run) && Untouched(s, run, u, NameOf(it.lbl))
    ensures Serves(Final(s, run), u, it)
    decreases k
  {
    if k == 0 {
      RunServes(Apply(s, Erase(t)), run[1..], u, it);
    } else {
      StepStays(s, run[0], u, NameOf(it.lbl), t);
      ErasedServes(Apply(s, run[0]), t, run[1..], k - 1, u, it);
    }
  }

  // ---------------------------------------------------- read after remove

  /** From here on no answer about user u has the label. */
  predicate Lacks(s: State, u: Uid, l: string) {
    && NameOf(l) !in DirOf(s, u)
    && (u in s.cache ==> forall it :: it in s.cache[u].items ==> it.lbl != l)
    && (s.section.Some? && s.section.value.uid == u && s.section.value.pass.Loading? ==>
          forall it :: it in s.section.value.items ==> it.lbl != l)
  }

  /** The step puts a file in place under the label. */
  predicate Makes(s: State, step: Step, u: Uid, l: string)
    requires Enabled(s, step)
  {
    || (step.Rename? && s.threads[step.t].uid == u && s.threads[step.t].op.lbl == l)
    || (step.External? && step.u == u && step.name == NameOf(l))
  }

  predicate Unmade(s: State, steps: seq<Step>, u: Uid, l: string)
    decreases |steps|
  {
    steps == [] ||
    (Enabled(s, steps[0]) && SectionOk(s) && !Makes(s, steps[0], u, l) && Unmade(Apply(s, steps[0]), steps[1..], u, l))
  }

  lemma DifferentNames(a: string, b: string)
    ensures TmpNameOf(a) != NameOf(b) && (NameOf(a) == NameOf(b) ==> a == b)
  {
    assert TmpNameOf(a)[|TmpNameOf(a)| - 1] == 'p' && NameOf(b)[|NameOf(b)| - 1] == 'c';
    assert NameOf(a)[..|a|] == a && NameOf(b)[..|b|] == b;
  }

  lemma StaysAway(s: State, step: Step, u: Uid, l: string)
    requires SectionOk(s) && Enabled(s, step) && NameOf(l) !in DirOf(s, u) && !Makes(s, step, u, l)
    ensures NameOf(l) !in DirOf(Apply(s, step), u)
  {
    if step.WriteTmp? || step.WriteLate? || step.Rename? {
      DifferentNames(s.threads[step.t].op.lbl, l);
    }
  }

  lemma StepLacks(s: State, step: Step, u: Uid, l: string)
    requires SectionOk(s) && Enabled(s, step) && Lacks(s, u, l) && !Makes(s, step, u, l)
    ensures Lacks(Apply(s, step), u, l)
    ensures Ends(s, step, u) ==> forall it :: it in Answer(s, step, u) ==> it.lbl != l
  {
    StaysAway(s, step, u, l);
    if step.Load? {
      Names(l, step.name);
    }
  }

  lemma {:induction false} RunLacks(s: State, steps: seq<Step>, u: Uid, l: string)
    requires Valid(s, steps) && Lacks(s, u, l) && Unmade(s, steps, u, l)
    ensures Lacks(Final(s, steps), u, l)
    decreases |steps|
  {
    if steps == [] {
    } else {
      StepLacks(s, steps[0], u, l);
      RunLacks(Apply(s, steps[0]), steps[1..], u, l);
    }
  }

  lemma ErasedLacks(s: State, t: nat, run: seq<Step>, k: nat, u: Uid, l: string)
    requires NameOf(l) !in DirOf(s, u) && IsMutator(s, t) && s.threads[t].uid == u
    requires k < |run| && run[k] == Erase(t) && Valid(s, run) && Unmade(s, run, u, l)
    ensures Lacks(Final(s, run), u, l)
    decreases k
  {
    if k == 0 {
      RunLacks(Apply(s, Erase(t)), run[1..], u, l);
    } else {
      StaysAway(s, run[0], u, l);
      StepStays(s, run[0], u, NameOf(l), t);
      ErasedLacks(Apply(s, run[0]), t, run[1..], k - 1, u, l);
    }
  }

  /** A label removed, by remove or by remove_all, is in no answer that ends after
      the remover returned, until a save renames a file into its place. */
  lemma GoneAfterRemove(s: State, t: nat, l: string, mid: seq<Step>, after: seq<Step>, read: Step)
    requires SectionOk(s) && Enabled(s, Unlink(t, NameOf(l), true))
    requires var s1 := Apply(s, Unlink(t, NameOf(l), true));
             var u := s.threads[t].uid;
             && Valid(s1, mid + [Erase(t)] + after) && Unmade(s1, mid + [Erase(t)] + after, u, l)
             && SectionOk(Final(s1, mid + [Erase(t)] + after)) && Ends(Final(s1, mid + [Erase(t)] + after), read, u)
    ensures var z := Final(Apply(s, Unlink(t, NameOf(l), true)), mid + [Erase(t)] + after);
            forall it :: it in Answer(z, read, s.threads[t].uid) ==> it.lbl != l
  {
    var s1 := Apply(s, Unlink(t, NameOf(l), true));
    var u := s.threads[t].uid;
    ErasedLacks(s1, t, mid + [Erase(t)] + after, |mid|, u, l);
    StepLacks(Final(s1, mid + [Erase(t)] + after), read, u, l);
  }
}
