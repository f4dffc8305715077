/** Enrollment sessions (daemon/enroll_session.cpp) and the three handlers that
    use them (daemon/handlers/enroll.cpp). Times are nanoseconds of the steady
    clock. The requests of one session are served one after the other. */
module EnrollSessions {
  import opened Vectors
  import opened Wrappers
  import Decimal

  const TTL: int := 300_000_000_000
  const INT_MAX: int := 0x7fff_ffff
  const COUNTER_RANGE: nat := 0x1_0000_0000_0000_0000
  const ID_BUFFER: nat := 40
  const DEFAULT_FLOOR: real := 0.40
  const DEFAULT_MARGIN: real := 0.05

  type Uid = u: nat | u <= 0xffff_ffff
  type Int32 = i: int | -INT_MAX - 1 <= i <= INT_MAX

  datatype Session = Session(
    uid: Uid, lbl: string, minFrames: Int32, maxFrames: Int32, embeddings: seq<Embedding>, lastTouch: int)

  /** sessions_ and counter_. */
  datatype Sessions = Sessions(active: map<string, Session>, counter: nat)

  const EMPTY := Sessions(map[], 0)

  // ----------------------------------------------------------- the manager

  predicate Fresh(s: Session, now: int) { now - s.lastTouch <= TTL }

  function Reaped(s: Sessions, now: int): Sessions {
    s.(active := map id | id in s.active && Fresh(s.active[id], now) :: s.active[id])
  }

  function Id(uid: Uid, n: nat): string { Decimal.Print(uid) + "-" + Decimal.Print(n) }

  /** snprintf into the 40-byte buffer. */
  function Cut(s: string): string { if |s| < ID_BUFFER then s else s[..ID_BUFFER - 1] }

  datatype CreateResult = CreateResult(s: Sessions, id: Option<string>)

  /** create: reserve throws for a negative count or one there is no room for,
      after the counter has moved on. */
  function CreateIn(reaps: bool, s: Sessions, uid: Uid, lbl: string, minFrames: Int32, maxFrames: Int32,
                    now: int, room: nat): CreateResult
  {
    var t := if reaps then Reaped(s, now) else s;
    var n := (s.counter + 1) % COUNTER_RANGE;
    var id := Cut(Id(uid, n));
    if maxFrames < 0 || maxFrames > room then CreateResult(t.(counter := n), None)
    else if id in t.active then CreateResult(t.(counter := n), Some(id))
    else CreateResult(Sessions(t.active[id := Session(uid, lbl, minFrames, maxFrames, [], now)], n), Some(id))
  }

  datatype GetResult = GetResult(s: Sessions, found: Option<Session>)

  /** get. With reaps false: as if nothing were ever reaped and a lookup just
      ignored sessions that are too old. */
  function GetIn(reaps: bool, s: Sessions, id: string, now: int): GetResult {
    var t := if reaps then Reaped(s, now) else s;
    if id in t.active && Fresh(t.active[id], now) then
      var e := t.active[id].(lastTouch := now);
      GetResult(t.(active := t.active[id := e]), Some(e))
    else GetResult(t, None)
  }

  class EnrollSessionManager {
    var sessions: map<string, Session>
    var counter: nat

    ghost function View(): Sessions
      reads this
    {
      Sessions(sessions, counter)
    }

    constructor ()
      ensures View() == EMPTY
    {
      sessions, counter := map[], 0;
    }

    method ReapExpired(now: int)
      modifies this
      ensures View() == Reaped(old(View()), now)
    {
      var todo := sessions.Keys;
      while todo != {}
        invariant counter == old(counter) && todo <= sessions.Keys <= old(sessions).Keys
        invariant forall id :: id in sessions ==> sessions[id] == old(sessions)[id]
        invariant forall id :: id in old(sessions) ==>
                    (id in sessions <==> id in todo || Fresh(old(sessions)[id], now))
        decreases |todo|
      {
        var id :| id in todo;
        todo := todo - {id};
        if now - sessions[id].lastTouch > TTL {
          sessions := sessions - {id};
        }
      }
    }

    method Create(uid: Uid, lbl: string, minFrames: Int32, maxFrames: Int32, now: int, room: nat) returns (id: Option<string>)
      modifies this
      ensures CreateResult(View(), id) == CreateIn(true, old(View()), uid, lbl, minFrames, maxFrames, now, room)
    {
      ReapExpired(now);
      counter := (counter + 1) % COUNTER_RANGE;
      var text := Cut(Id(uid, counter));
      if maxFrames < 0 || maxFrames > room {
        return None;
      }
      if text !in sessions {
        sessions := sessions[text := Session(uid, lbl, minFrames, maxFrames, [], now)];
      }
      id := Some(text);
    }

    method Get(id: string, now: int) returns (found: Option<Session>)
      modifies this
      ensures GetResult(View(), found) == GetIn(true, old(View()), id, now)
    {
      ReapExpired(now);
      if id !in sessions {
        return None;
      }
      sessions := sessions[id := sessions[id].(lastTouch := now)];
      found := Some(sessions[id]);
    }

    method Drop(id: string)
      modifies this
      ensures View() == old(View()).(active := old(sessions) - {id})
    {
      sessions := sessions - {id};
    }
  }

  // ---------------------------------------------------------- the handlers

  datatype Hint = Ok | NoFace | TooDark | TooFar | TooClose | BlurryHoldStill

  datatype Why = NeedRoot | NoBackend | InvalidLabel | SessionGone | UnknownSession | NotEnoughFrames | SaveFailed

  datatype Reply =
    | Progress(session: string, collected: nat, needed: int, quality: real, done: bool, hint: Hint)
    | Done(lbl: string, saved: nat, threshold: real)
    | Error(why: Why)
    | Crashed // an exception left the handler; the connection just closes

  /** What process_one_frame gave; height is that of the detection's box. */
  datatype Outcome =
    | Threw
    | Shot(captured: bool, brightness: real, hasFace: bool, height: Option<real>, quality: real, embedding: Option<Embedding>)

  /** What the store was told to save. */
  datatype Record = Record(uid: Uid, lbl: string, embedderId: nat, threshold: real, embeddings: seq<Embedding>)

  datatype Config = Config(store: bool, pipeline: bool, dark: real, qualityMin: real, embedderId: nat, reaps: bool)

  datatype Event =
    | Start(peer: nat, uid: Uid, lbl: string, minFrames: Int32, maxFrames: Int32, now: int, later: int, room: nat)
    | Frame(peer: nat, session: string, now: int, outcome: Outcome)
    | Finish(peer: nat, session: string, now: int, saveFails: bool)

  datatype Effect = Effect(s: Sessions, reply: Reply, saved: Option<Record>)

  function MinFrames(e: Event): Int32
    requires e.Start?
  {
    if e.minFrames > 0 then e.minFrames else 5
  }

  /** An int sum that overflows wraps. */
  function Wrap(i: int): Int32
    requires -INT_MAX - 1 <= i <= 2 * INT_MAX
  {
    if i > INT_MAX then i - 2 * (INT_MAX + 1) else i
  }

  function MaxFrames(e: Event): Int32
    requires e.Start?
  {
    if e.maxFrames > MinFrames(e) then e.maxFrames else Wrap(MinFrames(e) + 7)
  }

  predicate ValidLabel(lbl: string) { lbl != "" && '/' !in lbl }

  function ProgressOf(id: string, s: Session, quality: real, done: bool, hint: Hint): Reply {
    Progress(id, |s.embeddings|, s.maxFrames, quality, done, hint)
  }

  /** Why a start is turned down before a session is made. */
  function Refusal(c: Config, e: Event): Option<Why>
    requires e.Start?
  {
    if e.peer != 0 then Some(NeedRoot)
    else if !c.store || !c.pipeline then Some(NoBackend)
    else if !ValidLabel(e.lbl) then Some(InvalidLabel)
    else None
  }

  function OnStart(c: Config, s: Sessions, e: Event): Effect
    requires e.Start?
  {
    if Refusal(c, e).Some? then Effect(s, Error(Refusal(c, e).value), None)
    else Announce(c, CreateIn(c.reaps, s, e.uid, e.lbl, MinFrames(e), MaxFrames(e), e.now, e.room), e.later)
  }

  /** The rest of a start, once create is through. */
  function Announce(c: Config, made: CreateResult, later: int): Effect {
    if made.id.None? then Effect(made.s, Crashed, None)
    else
      var got := GetIn(c.reaps, made.s, made.id.value, later);
      if got.found.None? then Effect(got.s, Error(SessionGone), None)
      else Effect(got.s, ProgressOf(made.id.value, got.found.value, 0.0, false, Ok), None)
  }

  datatype Judgement = Judgement(hint: Hint, quality: real)

  function HeightShare(height: Option<real>): real { if height.Some? then height.value / 360.0 else 0.0 }

  function Judge(c: Config, f: Outcome): Judgement {
    if f.Threw? || !f.captured then Judgement(NoFace, 0.0)
    else if f.brightness < c.dark then Judgement(TooDark, 0.0)
    else if !f.hasFace then Judgement(NoFace, 0.0)
    else if HeightShare(f.height) < 0.15 then Judgement(TooFar, f.quality)
    else if HeightShare(f.height) > 0.80 then Judgement(TooClose, f.quality)
    else if f.quality < c.qualityMin || f.embedding.None? then Judgement(BlurryHoldStill, f.quality)
    else Judgement(Ok, f.quality)
  }

  function OnFrame(c: Config, s: Sessions, e: Event): Effect
    requires e.Frame?
  {
    if e.peer != 0 then Effect(s, Error(NeedRoot), None)
    else if !c.pipeline then Effect(s, Error(NoBackend), None)
    else
      var got := GetIn(c.reaps, s, e.session, e.now);
      if got.found.None? then Effect(got.s, Error(UnknownSession), None)
      else
        var b := got.found.value;
        if |b.embeddings| >= b.maxFrames then Effect(got.s, ProgressOf(e.session, b, 0.0, true, Ok), None)
        else
          var j := Judge(c, e.outcome);
          if j.hint != Ok then Effect(got.s, ProgressOf(e.session, b, j.quality, false, j.hint), None)
          else
            var b' := b.(embeddings := b.embeddings + [e.outcome.embedding.value]);
            Effect(got.s.(active := got.s.active[e.session := b']),
                   ProgressOf(e.session, b', j.quality, |b'.embeddings| >= b'.maxFrames, Ok), None)
  }

  function OnFinish(c: Config, s: Sessions, e: Event): Effect
    requires e.Finish?
  {
    if e.peer != 0 then Effect(s, Error(NeedRoot), None)
    else if !c.store || !c.pipeline then Effect(s, Error(NoBackend), None)
    else
      var got := GetIn(c.reaps, s, e.session, e.now);
      if got.found.None? then Effect(got.s, Error(UnknownSession), None)
      else
        var b := got.found.value;
        if |b.embeddings| < b.minFrames then Effect(got.s, Error(NotEnoughFrames), None)
        else if e.saveFails then Effect(got.s, Error(SaveFailed), None)
        else
          var t := Threshold(b.embeddings, DEFAULT_FLOOR, DEFAULT_MARGIN);
          Effect(got.s.(active := got.s.active - {e.session}), Done(b.lbl, |b.embeddings|, t),
                 Some(Record(b.uid, b.lbl, c.embedderId, t, b.embeddings)))
  }

  function Next(c: Config, s: Sessions, e: Event): Effect {
    match e
    case Start(_, _, _, _, _, _, _, _) => OnStart(c, s, e)
    case Frame(_, _, _, _) => OnFrame(c, s, e)
    case Finish(_, _, _, _) => OnFinish(c, s, e)
  }

  method HandleStart(m: EnrollSessionManager, c: Config, e: Event) returns (r: Reply)
    requires c.reaps && e.Start?
    modifies m
    ensures Effect(m.View(), r, None) == OnStart(c, old(m.View()), e)
  {
    if e.peer != 0 {
      return Error(NeedRoot);
    }
    if !c.store || !c.pipeline {
      return Error(NoBackend);
    }
    if e.lbl == "" || '/' in e.lbl {
      return Error(InvalidLabel);
    }
    var minF := if e.minFrames > 0 then e.minFrames else 5;
    var maxF := if e.maxFrames > minF then e.maxFrames else Wrap(minF + 7);
    var id := m.Create(e.uid, e.lbl, minF, maxF, e.now, e.room);
    if id.None? {
      return Crashed;
    }
    var s := m.Get(id.value, e.later);
    if s.None? {
      return Error(SessionGone);
    }
    r := ProgressOf(id.value, s.value, 0.0, false, Ok);
  }

  method HandleFrame(m: EnrollSessionManager, c: Config, e: Event) returns (r: Reply)
    requires c.reaps && e.Frame?
    modifies m
    ensures Effect(m.View(), r, None) == OnFrame(c, old(m.View()), e)
  {
    if e.peer != 0 {
      return Error(NeedRoot);
    }
    if !c.pipeline {
      return Error(NoBackend);
    }
    var found := m.Get(e.session, e.now);
    if found.None? {
      return Error(UnknownSession);
    }
    var s, f := found.value, e.outcome;
    if |s.embeddings| >= s.maxFrames {
      return ProgressOf(e.session, s, 0.0, true, Ok);
    }
    if f.Threw? {
      return ProgressOf(e.session, s, 0.0, false, NoFace);
    }
    if !f.captured {
      return ProgressOf(e.session, s, 0.0, false, NoFace);
    }
    if f.brightness < c.dark {
      return ProgressOf(e.session, s, 0.0, false, TooDark);
    }
    if !f.hasFace {
      return ProgressOf(e.session, s, 0.0, false, NoFace);
    }
    var share := HeightShare(f.height);
    if share < 0.15 {
      return ProgressOf(e.session, s, f.quality, false, TooFar);
    }
    if share > 0.80 {
      return ProgressOf(e.session, s, f.quality, false, TooClose);
    }
    if f.quality < c.qualityMin || f.embedding.None? {
      return ProgressOf(e.session, s, f.quality, false, BlurryHoldStill);
    }
    s := s.(embeddings := s.embeddings + [f.embedding.value]);
    m.sessions := m.sessions[e.session := s];
    var done := |s.embeddings| >= s.maxFrames;
    r := ProgressOf(e.session, s, f.quality, done, Ok);
  }

  method HandleFinish(m: EnrollSessionManager, c: Config, e: Event) returns (r: Reply, saved: Option<Record>)
    requires c.reaps && e.Finish?
    modifies m
    ensures Effect(m.View(), r, saved) == OnFinish(c, old(m.View()), e)
  {
    saved := None;
    if e.peer != 0 {
      return Error(NeedRoot), None;
    }
    if !c.store || !c.pipeline {
      return Error(NoBackend), None;
    }
    var found := m.Get(e.session, e.now);
    if found.None? {
      return Error(UnknownSession), None;
    }
    var s := found.value;
    if |s.embeddings| < s.minFrames {
      return Error(NotEnoughFrames), None;
    }
    var t := PickThreshold(s.embeddings, DEFAULT_FLOOR, DEFAULT_MARGIN);
    if e.saveFails {
      return Error(SaveFailed), None;
    }
    saved := Some(Record(s.uid, s.lbl, c.embedderId, t, s.embeddings));
    m.Drop(e.session);
    r := Done(s.lbl, |s.embeddings|, t);
  }

  // ------------------------------------------------------------- session ids

  /** The first dash ends the first number. */
  lemma FirstDash(a: string, b: string)
    requires Decimal.Digits(a)
    ensures var s := a + "-" + b;
            s[|a|] == '-' && (forall i :: 0 <= i < |a| ==> s[i] != '-') && s[..|a|] == a && s[|a| + 1..] == b
  {
  }

  lemma SameSplit(a: string, b: string, x: string, y: string)
    requires Decimal.Digits(a) && Decimal.Digits(x) && a + "-" + b == x + "-" + y
    ensures a == x && b == y
  {
    FirstDash(a, b);
    FirstDash(x, y);
    assert |a| == |x|;
  }

  /** Every id fits the buffer, so snprintf cuts none; and no two counters or
      users share one. */
  lemma IdsDiffer(u: Uid, m: nat, v: Uid, n: nat)
    requires m < COUNTER_RANGE && n < COUNTER_RANGE
    ensures |Id(u, m)| <= 31 && Cut(Id(u, m)) == Id(u, m)
    ensures Id(u, m) == Id(v, n) <==> u == v && m == n
  {
    Decimal.Length(u, 10);
    Decimal.Length(m, 20);
    if Id(u, m) == Id(v, n) {
      SameSplit(Decimal.Print(u), Decimal.Print(m), Decimal.Print(v), Decimal.Print(n));
      Decimal.Injective(u, v);
      Decimal.Injective(m, n);
    }
  }

  /** An id reads as its user and its counter, with a dash between. */
  lemma IdReads(u: Uid, n: nat)
    ensures var s := Id(u, n);
            exists k :: 0 <= k < |s| && s[k] == '-' && Decimal.Digits(s[..k]) && Decimal.Digits(s[k + 1..])
                        && Decimal.Value(s[..k]) == u && Decimal.Value(s[k + 1..]) == n
  {
    var a, b := Decimal.Print(u), Decimal.Print(n);
    FirstDash(a, b);
    Decimal.ValueOfPrint(u);
    Decimal.ValueOfPrint(n);
    assert Id(u, n)[..|a|] == a && Id(u, n)[|a| + 1..] == b && Id(u, n)[|a|] == '-';
  }

  // ------------------------------------------------------------- invariant

  predicate Bounded(s: Session) {
    1 <= s.minFrames < s.maxFrames && |s.embeddings| <= s.maxFrames
  }

  /** id was made with one of the first n counter values. */
  ghost predicate Issued(id: string, n: nat) {
    exists u: Uid, k: nat :: 1 <= k <= n && id == Id(u, k)
  }

  ghost predicate Inv(s: Sessions) {
    forall id :: id in s.active ==> Bounded(s.active[id]) && Issued(id, s.counter)
  }

  lemma IssuedMono(id: string, m: nat, n: nat)
    requires m <= n
    ensures Issued(id, m) ==> Issued(id, n)
  {
  }

  /** A new id is one that was never issued. */
  lemma NewId(uid: Uid, n: nat)
    requires n + 1 < COUNTER_RANGE
    ensures Cut(Id(uid, n + 1)) == Id(uid, n + 1)
    ensures !Issued(Id(uid, n + 1), n) && Issued(Id(uid, n + 1), n + 1)
  {
    IdsDiffer(uid, n + 1, uid, n + 1);
    if Issued(Id(uid, n + 1), n) {
      var u: Uid, k: nat :| 1 <= k <= n && Id(uid, n + 1) == Id(u, k);
      IdsDiffer(uid, n + 1, u, k);
    }
  }

  lemma FreshKey(s: Sessions, uid: Uid)
    requires Inv(s) && s.counter + 1 < COUNTER_RANGE
    ensures var id := Id(uid, s.counter + 1); Cut(id) == id && id !in s.active && !Issued(id, s.counter)
  {
    NewId(uid, s.counter);
  }

  /** What a successful create adds: one empty, bounded session, under an id no
      session has or had. */
  lemma CreateAdds(reaps: bool, s: Sessions, e: Event)
    requires e.Start? && Inv(s) && s.counter + 1 < COUNTER_RANGE
    ensures var t := if reaps then Reaped(s, e.now) else s;
            var made := CreateIn(reaps, s, e.uid, e.lbl, MinFrames(e), MaxFrames(e), e.now, e.room);
            var id := Id(e.uid, s.counter + 1);
            && made.s.counter == s.counter + 1 && id !in s.active && !Issued(id, s.counter)
            && (made.id == None ==> made.s.active == t.active)
            && (made.id != None ==>
                  && made.id == Some(id) && 1 <= MinFrames(e) < MaxFrames(e)
                  && made.s.active == t.active[id := Session(e.uid, e.lbl, MinFrames(e), MaxFrames(e), [], e.now)])
  {
    FreshKey(s, e.uid);
  }

  lemma CreateKeepsInv(reaps: bool, s: Sessions, e: Event)
    requires e.Start? && Inv(s) && s.counter + 1 < COUNTER_RANGE
    ensures Inv(CreateIn(reaps, s, e.uid, e.lbl, MinFrames(e), MaxFrames(e), e.now, e.room).s)
  {
    CreateAdds(reaps, s, e);
    NewId(e.uid, s.counter);
    forall x | x in s.active ensures Issued(x, s.counter + 1) {
      IssuedMono(x, s.counter, s.counter + 1);
    }
  }

  /** The same session, but for when it was last used. */
  predicate Same(a: Session, b: Session) { a == b.(lastTouch := a.lastTouch) }

  /** a has only sessions of b, unchanged. */
  predicate Within(a: Sessions, b: Sessions) {
    && a.counter == b.counter
    && forall id :: id in a.active ==> id in b.active && Same(a.active[id], b.active[id])
  }

  /** A lookup adds no session and changes none. */
  lemma GetKeeps(reaps: bool, s: Sessions, id: string, now: int)
    ensures var got := GetIn(reaps, s, id, now);
            Within(got.s, s) && (got.found.Some? ==> id in got.s.active && got.s.active[id] == got.found.value)
  {
  }

  lemma WithinKeepsInv(a: Sessions, b: Sessions)
    requires Inv(b) && Within(a, b)
    ensures Inv(a)
  {
  }

  lemma StartKeepsInv(c: Config, s: Sessions, e: Event)
    requires e.Start? && Inv(s) && s.counter + 1 < COUNTER_RANGE
    ensures Inv(OnStart(c, s, e).s) && s.counter <= OnStart(c, s, e).s.counter <= s.counter + 1
  {
    CreateKeepsInv(c.reaps, s, e);
    CreateAdds(c.reaps, s, e);
    var made := CreateIn(c.reaps, s, e.uid, e.lbl, MinFrames(e), MaxFrames(e), e.now, e.room);
    if made.id.Some? {
      GetKeeps(c.reaps, made.s, made.id.value, e.later);
      WithinKeepsInv(GetIn(c.reaps, made.s, made.id.value, e.later).s, made.s);
    }
  }

  /** a, the session of frame request e, became b. */
  predicate FrameFate(a: Session, b: Session, e: Event, reply: Reply)
    requires e.Frame?
  {
    if reply.Progress? && reply.collected > |a.embeddings| then
      && e.outcome.Shot? && e.outcome.embedding.Some? && |a.embeddings| < a.maxFrames
      && Same(b, a.(embeddings := a.embeddings + [e.outcome.embedding.value]))
    else Same(b, a)
  }

  /** What a frame request does to the sessions: nothing but, for a good frame, to
      add its embedding to its own session, if that is not full. */
  lemma FrameGrows(c: Config, s: Sessions, e: Event)
    requires e.Frame?
    ensures var r := OnFrame(c, s, e);
            && r.s.counter == s.counter
            && (forall id :: id in r.s.active && id != e.session ==> id in s.active && Same(r.s.active[id], s.active[id]))
            && (e.session in r.s.active ==> e.session in s.active)
            && (e.session in r.s.active ==> FrameFate(s.active[e.session], r.s.active[e.session], e, r.reply))
  {
    GetKeeps(c.reaps, s, e.session, e.now);
  }

  /** A frame worth keeping: a face of the right size, lit, sharp and embedded. */
  predicate Good(c: Config, f: Outcome) {
    && f.Shot? && f.captured && f.hasFace && f.brightness >= c.dark && f.quality >= c.qualityMin
    && f.embedding.Some? && f.height.Some? && 0.15 * 360.0 <= f.height.value <= 0.80 * 360.0
  }

  /** In a known session, a frame counts exactly if it is good and the session is
      not full; with the hint Ok and a higher count. */
  lemma FrameCountsIff(c: Config, s: Sessions, e: Event)
    requires e.Frame? && e.peer == 0 && c.pipeline && GetIn(c.reaps, s, e.session, e.now).found.Some?
    ensures var r, n := OnFrame(c, s, e).reply, |s.active[e.session].embeddings|;
            && r.Progress? && r.session == e.session
            && (Good(c, e.outcome) && n < s.active[e.session].maxFrames <==> r.collected == n + 1)
            && (r.collected == n + 1 || r.collected == n)
            && (r.collected == n + 1 ==> r.hint == Ok)
            && (n < s.active[e.session].maxFrames ==> (r.hint == Ok <==> Good(c, e.outcome)))
  {
  }

  lemma FinishDrops(c: Config, s: Sessions, e: Event)
    requires e.Finish?
    ensures Within(OnFinish(c, s, e).s, s)
    ensures OnFinish(c, s, e).reply.Done? ==> e.session !in OnFinish(c, s, e).s.active
  {
    GetKeeps(c.reaps, s, e.session, e.now);
  }

  lemma FrameKeepsInv(c: Config, s: Sessions, e: Event)
    requires e.Frame? && Inv(s)
    ensures Inv(OnFrame(c, s, e).s)
  {
    FrameGrows(c, s, e);
    var t := OnFrame(c, s, e).s;
    forall id | id in t.active ensures Bounded(t.active[id]) && Issued(id, s.counter) {
      assert Bounded(s.active[id]);
    }
  }

  /** The bounds and the ids hold after every step. */
  lemma StepKeepsInv(c: Config, s: Sessions, e: Event)
    requires Inv(s) && s.counter + 1 < COUNTER_RANGE
    ensures Inv(Next(c, s, e).s) && s.counter <= Next(c, s, e).s.counter <= s.counter + 1
  {
    match e
    case Start(_, _, _, _, _, _, _, _) => StartKeepsInv(c, s, e);
    case Frame(_, _, _, _) =>
      FrameKeepsInv(c, s, e);
      FrameGrows(c, s, e);
    case Finish(_, _, _, _) =>
      FinishDrops(c, s, e);
      WithinKeepsInv(OnFinish(c, s, e).s, s);
  }

  // --------------------------------------------------- what becomes of a session

  predicate Begun(s: Session, e: Event)
    requires e.Start?
  {
    s.uid == e.uid && s.lbl == e.lbl && s.minFrames == MinFrames(e) && s.maxFrames == MaxFrames(e) && s.embeddings == []
  }

  /** A start adds the session it names in its answer, and no other. */
  lemma StartAdds(c: Config, s: Sessions, e: Event, id: string)
    requires c.reaps && e.Start? && Inv(s) && s.counter + 1 < COUNTER_RANGE
    ensures var r := OnStart(c, s, e);
            && (r.reply.Progress? ==> r.reply.session == Id(e.uid, s.counter + 1) && r.s.counter == s.counter + 1
                                      && r.reply.session !in s.active)
            && (id in r.s.active ==>
                  if id in s.active then Same(r.s.active[id], s.active[id])
                  else r.reply.Progress? && r.reply.session == id && !Issued(id, s.counter) && Begun(r.s.active[id], e))
  {
    CreateAdds(c.reaps, s, e);
    var made := CreateIn(c.reaps, s, e.uid, e.lbl, MinFrames(e), MaxFrames(e), e.now, e.room);
    if made.id.Some? {
      GetKeeps(c.reaps, made.s, made.id.value, e.later);
    }
  }

  /** e added an embedding to session id, which had n. */
  predicate Adds(e: Event, reply: Reply, id: string, n: nat) {
    && e.Frame? && e.session == id && reply.Progress? && reply.collected > n
    && e.outcome.Shot? && e.outcome.embedding.Some?
  }

  /** A session there after a step is the one that was there before, grown by at
      most the embedding of its own good frame; or it was just started. */
  lemma StepFate(c: Config, s: Sessions, e: Event, id: string)
    requires c.reaps && Inv(s) && s.counter + 1 < COUNTER_RANGE && id in Next(c, s, e).s.active
    ensures var r := Next(c, s, e);
            var b := r.s.active[id];
            if id in s.active then
              var a := s.active[id];
              Same(b, if Adds(e, r.reply, id, |a.embeddings|)
                      then a.(embeddings := a.embeddings + [e.outcome.embedding.value]) else a)
            else e.Start? && r.reply.Progress? && r.reply.session == id && !Issued(id, s.counter) && Begun(b, e)
  {
    match e
    case Start(_, _, _, _, _, _, _, _) => StartAdds(c, s, e, id);
    case Frame(_, _, _, _) => FrameGrows(c, s, e);
    case Finish(_, _, _, _) => FinishDrops(c, s, e);
  }

  // ------------------------------------------------------------------ runs

  /** The sessions before event n of a run of the daemon. */
  function At(c: Config, run: seq<Event>, n: nat): Sessions
    requires n <= |run|
  {
    if n == 0 then EMPTY else Next(c, At(c, run, n - 1), run[n - 1]).s
  }

  function Out(c: Config, run: seq<Event>, k: nat): Effect
    requires k < |run|
  {
    Next(c, At(c, run, k), run[k])
  }

  lemma {:induction false} RunKeepsInv(c: Config, run: seq<Event>, n: nat)
    requires n <= |run| < COUNTER_RANGE
    ensures Inv(At(c, run, n)) && At(c, run, n).counter <= n
    decreases n
  {
    if n > 0 {
      RunKeepsInv(c, run, n - 1);
      StepKeepsInv(c, At(c, run, n - 1), run[n - 1]);
    }
  }

  lemma {:induction false} CounterGrows(c: Config, run: seq<Event>, m: nat, n: nat)
    requires m <= n <= |run| < COUNTER_RANGE
    ensures At(c, run, m).counter <= At(c, run, n).counter
    decreases n
  {
    if m < n {
      CounterGrows(c, run, m, n - 1);
      RunKeepsInv(c, run, n - 1);
      StepKeepsInv(c, At(c, run, n - 1), run[n - 1]);
    }
  }

  /** In every run, at all times: at least one frame required, more allowed than
      required, never more collected than allowed. */
  lemma SessionBounds(c: Config, run: seq<Event>, n: nat, id: string)
    requires n <= |run| < COUNTER_RANGE && id in At(c, run, n).active
    ensures Bounded(At(c, run, n).active[id])
  {
    RunKeepsInv(c, run, n);
  }

  /** r reports on a session of s, and done exactly if that session is full. */
  predicate Reports(r: Reply, s: Sessions) {
    && r.Progress? && r.session in s.active
    && r.collected == |s.active[r.session].embeddings| && r.needed == s.active[r.session].maxFrames
    && r.collected <= r.needed && (r.done <==> r.collected == r.needed)
  }

  lemma StartReports(c: Config, s: Sessions, e: Event)
    requires e.Start? && Inv(s) && s.counter + 1 < COUNTER_RANGE && OnStart(c, s, e).reply.Progress?
    ensures Reports(OnStart(c, s, e).reply, OnStart(c, s, e).s)
  {
    CreateAdds(c.reaps, s, e);
  }

  lemma FrameReports(c: Config, s: Sessions, e: Event)
    requires e.Frame? && Inv(s) && OnFrame(c, s, e).reply.Progress?
    ensures Reports(OnFrame(c, s, e).reply, OnFrame(c, s, e).s)
  {
    assert e.session in s.active && Bounded(s.active[e.session]);
  }

  /** Every progress report of a run tells the session's new state, and done is
      reported exactly when the session is full. */
  lemma DoneIffFull(c: Config, run: seq<Event>, k: nat)
    requires k < |run| < COUNTER_RANGE && Out(c, run, k).reply.Progress?
    ensures Reports(Out(c, run, k).reply, At(c, run, k + 1))
  {
    RunKeepsInv(c, run, k);
    if run[k].Start? {
      StartReports(c, At(c, run, k), run[k]);
    } else {
      FrameReports(c, At(c, run, k), run[k]);
    }
  }

  /** An id that has been issued and is gone stays gone. */
  lemma {:induction false} GoneForGood(c: Config, run: seq<Event>, id: string, m: nat, n: nat)
    requires c.reaps && m <= n <= |run| < COUNTER_RANGE
    requires Issued(id, At(c, run, m).counter) && id !in At(c, run, m).active
    ensures id !in At(c, run, n).active
    decreases n
  {
    if m < n {
      GoneForGood(c, run, id, m, n - 1);
      RunKeepsInv(c, run, n - 1);
      CounterGrows(c, run, m, n - 1);
      IssuedMono(id, At(c, run, m).counter, At(c, run, n - 1).counter);
      if id in At(c, run, n).active {
        StepFate(c, At(c, run, n - 1), run[n - 1], id);
      }
    }
  }

  lemma StaysGone(c: Config, run: seq<Event>, id: string, k: nat)
    requires c.reaps && k < |run| < COUNTER_RANGE && id in At(c, run, k).active && id !in At(c, run, k + 1).active
    ensures forall m :: k < m <= |run| ==> id !in At(c, run, m).active
  {
    RunKeepsInv(c, run, k);
    CounterGrows(c, run, k, k + 1);
    IssuedMono(id, At(c, run, k).counter, At(c, run, k + 1).counter);
    forall m | k < m <= |run| ensures id !in At(c, run, m).active {
      GoneForGood(c, run, id, k + 1, m);
    }
  }

  predicate Grown(a: Session, b: Session) {
    && a.embeddings <= b.embeddings && a.uid == b.uid && a.lbl == b.lbl
    && a.minFrames == b.minFrames && a.maxFrames == b.maxFrames
  }

  lemma ThereBetween(c: Config, run: seq<Event>, id: string, m: nat, k: nat, n: nat)
    requires c.reaps && m <= k <= n <= |run| < COUNTER_RANGE
    requires id in At(c, run, m).active && id in At(c, run, n).active
    ensures id in At(c, run, k).active
  {
    if id !in At(c, run, k).active {
      RunKeepsInv(c, run, m);
      CounterGrows(c, run, m, k);
      IssuedMono(id, At(c, run, m).counter, At(c, run, k).counter);
      GoneForGood(c, run, id, k, n);
    }
  }

  /** A session that is there at two moments only grew in between. */
  lemma {:induction false} OnlyGrows(c: Config, run: seq<Event>, id: string, m: nat, n: nat)
    requires c.reaps && m <= n <= |run| < COUNTER_RANGE
    requires id in At(c, run, m).active && id in At(c, run, n).active
    ensures Grown(At(c, run, m).active[id], At(c, run, n).active[id])
    decreases n
  {
    if m < n {
      RunKeepsInv(c, run, n - 1);
      ThereBetween(c, run, id, m, n - 1, n);
      OnlyGrows(c, run, id, m, n - 1);
      StepFate(c, At(c, run, n - 1), run[n - 1], id);
    }
  }

  predicate StartedAt(c: Config, run: seq<Event>, i: nat, id: string)
    requires i < |run|
  {
    run[i].Start? && Out(c, run, i).reply.Progress? && Out(c, run, i).reply.session == id
  }

  lemma StartIssues(c: Config, run: seq<Event>, i: nat, id: string)
    requires c.reaps && i < |run| < COUNTER_RANGE
    ensures StartedAt(c, run, i, id) ==>
              && !Issued(id, At(c, run, i).counter) && id !in At(c, run, i).active
              && Issued(id, At(c, run, i + 1).counter)
  {
    RunKeepsInv(c, run, i);
    if StartedAt(c, run, i, id) {
      StartAdds(c, At(c, run, i), run[i], id);
      NewId(run[i].uid, At(c, run, i).counter);
    }
  }

  lemma IssuedBefore(c: Config, run: seq<Event>, i: nat, j: nat, id: string)
    requires c.reaps && i < j < |run| < COUNTER_RANGE
    ensures StartedAt(c, run, i, id) || id in At(c, run, i).active ==> Issued(id, At(c, run, j).counter)
  {
    RunKeepsInv(c, run, i);
    StartIssues(c, run, i, id);
    CounterGrows(c, run, i, j);
    CounterGrows(c, run, i + 1, j);
    IssuedMono(id, At(c, run, i).counter, At(c, run, j).counter);
    IssuedMono(id, At(c, run, i + 1).counter, At(c, run, j).counter);
  }

  /** No id is handed out twice, nor one any session ever had before. */
  lemma IdsNeverReissued(c: Config, run: seq<Event>, i: nat, j: nat, id: string)
    requires c.reaps && i < j < |run| < COUNTER_RANGE && StartedAt(c, run, j, id)
    ensures !StartedAt(c, run, i, id) && id !in At(c, run, i).active && id !in At(c, run, j).active
  {
    IssuedBefore(c, run, i, j, id);
    StartIssues(c, run, j, id);
  }

  /** The embeddings of those frames, among the first n events, after which the
      answer counted more for the session than before: as the CLI counts them. */
  function Accepted(c: Config, run: seq<Event>, id: string, n: nat): seq<Embedding>
    requires n <= |run|
  {
    if n == 0 then []
    else
      var sofar := Accepted(c, run, id, n - 1);
      if Adds(run[n - 1], Out(c, run, n - 1).reply, id, |sofar|) then sofar + [run[n - 1].outcome.embedding.value] else sofar
  }

  lemma UnknownAddsNone(c: Config, s: Sessions, e: Event, id: string, n: nat)
    requires id !in s.active
    ensures !Adds(e, Next(c, s, e).reply, id, n)
  {
  }

  lemma {:induction false} NoneBeforeIssue(c: Config, run: seq<Event>, id: string, n: nat)
    requires n <= |run| < COUNTER_RANGE && !Issued(id, At(c, run, n).counter)
    ensures Accepted(c, run, id, n) == []
    decreases n
  {
    if n > 0 {
      RunKeepsInv(c, run, n - 1);
      CounterGrows(c, run, n - 1, n);
      assert !Issued(id, At(c, run, n - 1).counter);
      NoneBeforeIssue(c, run, id, n - 1);
      UnknownAddsNone(c, At(c, run, n - 1), run[n - 1], id, 0);
    }
  }

  /** Session b stems from start event e and holds these embeddings. */
  predicate Stems(b: Session, e: Event, embeddings: seq<Embedding>) {
    e.Start? && Begun(b.(embeddings := []), e) && b.embeddings == embeddings
  }

  /** Every session was started by one event, has that event's user, label and
      bounds, and holds exactly the embeddings accepted for it since. */
  lemma {:induction false} SessionHistory(c: Config, run: seq<Event>, id: string, n: nat) returns (i: nat)
    requires c.reaps && n <= |run| < COUNTER_RANGE && id in At(c, run, n).active
    ensures i < n && StartedAt(c, run, i, id)
    ensures Stems(At(c, run, n).active[id], run[i], Accepted(c, run, id, n))
    decreases n
  {
    RunKeepsInv(c, run, n - 1);
    StepFate(c, At(c, run, n - 1), run[n - 1], id);
    if id in At(c, run, n - 1).active {
      i := SessionHistory(c, run, id, n - 1);
    } else {
      i := n - 1;
      NoneBeforeIssue(c, run, id, n - 1);
    }
  }

  lemma OthersSaveNothing(c: Config, s: Sessions, e: Event)
    requires !e.Finish?
    ensures !Next(c, s, e).reply.Done? && Next(c, s, e).saved.None?
  {
  }

  lemma FinishRecords(c: Config, s: Sessions, e: Event)
    requires e.Finish?
    ensures var r := OnFinish(c, s, e);
            && (r.reply.Done? <==> r.saved.Some?)
            && (r.reply.Done? ==>
                  && e.session in s.active && e.session !in r.s.active
                  && var b := s.active[e.session];
                  && var t := Threshold(b.embeddings, DEFAULT_FLOOR, DEFAULT_MARGIN);
                  && r.saved == Some(Record(b.uid, b.lbl, c.embedderId, t, b.embeddings)) && b.minFrames <= |b.embeddings|)
  {
    GetKeeps(c.reaps, s, e.session, e.now);
  }

  /** A finish saves just what its session holds, in the right number, or nothing. */
  lemma FinishSaves(c: Config, s: Sessions, e: Event)
    requires Inv(s)
    ensures var r := Next(c, s, e);
            && (r.reply.Done? <==> r.saved.Some?)
            && (r.reply.Done? ==>
                  && e.Finish? && e.session in s.active && e.session !in r.s.active
                  && var b := s.active[e.session];
                  && var t := Threshold(b.embeddings, DEFAULT_FLOOR, DEFAULT_MARGIN);
                  && r.saved == Some(Record(b.uid, b.lbl, c.embedderId, t, b.embeddings))
                  && b.minFrames <= |b.embeddings| <= b.maxFrames)
  {
    if e.Finish? {
      FinishRecords(c, s, e);
    } else {
      OthersSaveNothing(c, s, e);
    }
  }

  /** Something is saved exactly when the answer is Done; and then it is what was
      accepted for that session since its start, at least the frames required and
      at most those allowed, for the user and label it was started with. The id is
      unknown from then on. */
  lemma FinishSavesAccepted(c: Config, run: seq<Event>, k: nat) returns (i: nat)
    requires c.reaps && k < |run| < COUNTER_RANGE
    ensures Out(c, run, k).reply.Done? <==> Out(c, run, k).saved.Some?
    ensures Out(c, run, k).reply.Done? ==>
              && run[k].Finish? && i < k && StartedAt(c, run, i, run[k].session)
              && var record := Out(c, run, k).saved.value;
              && record.embeddings == Accepted(c, run, run[k].session, k)
              && MinFrames(run[i]) <= |record.embeddings| <= MaxFrames(run[i])
              && record.uid == run[i].uid && record.lbl == run[i].lbl && record.embedderId == c.embedderId
              && record.threshold == Threshold(record.embeddings, 0.40, 0.05)
              && forall m :: k < m <= |run| ==> run[k].session !in At(c, run, m).active
  {
    i := 0;
    RunKeepsInv(c, run, k);
    FinishSaves(c, At(c, run, k), run[k]);
    if Out(c, run, k).reply.Done? {
      var id := run[k].session;
      i := SessionHistory(c, run, id, k);
      assert At(c, run, k + 1) == Out(c, run, k).s;
      StaysGone(c, run, id, k);
    }
  }

  /** When a start by root with both back ends and a valid label fails: there is
      no room for that many frames, min + 7 overflowed, or the clock moved past the
      session's life between create and get. */
  lemma StartSucceedsIff(c: Config, s: Sessions, e: Event)
    requires e.Start? && e.peer == 0 && c.store && c.pipeline && ValidLabel(e.lbl)
    requires Inv(s) && s.counter + 1 < COUNTER_RANGE
    ensures var overflow := e.maxFrames <= MinFrames(e) && MinFrames(e) > INT_MAX - 7;
            var r := OnStart(c, s, e).reply;
            && (r.Crashed? <==> overflow || MaxFrames(e) > e.room)
            && (r.Progress? <==> !overflow && MaxFrames(e) <= e.room && e.later - e.now <= TTL)
  {
    CreateAdds(c.reaps, s, e);
  }

  // ------------------------------------------------ reaping is not observable

  function Ends(e: Event): int { if e.Start? then e.later else e.now }

  /** The clock is steady. */
  predicate Steady(run: seq<Event>) {
    && (forall i :: 0 <= i < |run| ==> run[i].now <= Ends(run[i]))
    && (forall i :: 0 < i < |run| ==> Ends(run[i - 1]) <= run[i].now)
  }

  /** a is b without some sessions that are already too old at time now. */
  predicate Trimmed(a: Sessions, b: Sessions, now: int) {
    && a.counter == b.counter
    && (forall id :: id in a.active ==> id in b.active && a.active[id] == b.active[id])
    && (forall id :: id in b.active && id !in a.active ==> !Fresh(b.active[id], now))
  }

  /** The same answer and save, and still nothing but old sessions trimmed. */
  predicate Agree(x: Effect, y: Effect, now: int) {
    x.reply == y.reply && x.saved == y.saved && Trimmed(x.s, y.s, now)
  }

  lemma GetTrims(a: Sessions, b: Sessions, id: string, now: int, t: int)
    requires Trimmed(a, b, now) && now <= t
    ensures GetIn(true, a, id, t).found == GetIn(false, b, id, t).found
    ensures Trimmed(GetIn(true, a, id, t).s, GetIn(false, b, id, t).s, t)
  {
  }

  lemma CreateTrims(a: Sessions, b: Sessions, e: Event, now: int)
    requires e.Start? && Inv(a) && Inv(b) && a.counter + 1 < COUNTER_RANGE && Trimmed(a, b, now) && now <= e.now
    ensures var x := CreateIn(true, a, e.uid, e.lbl, MinFrames(e), MaxFrames(e), e.now, e.room);
            var y := CreateIn(false, b, e.uid, e.lbl, MinFrames(e), MaxFrames(e), e.now, e.room);
            x.id == y.id && Trimmed(x.s, y.s, e.now)
  {
    CreateAdds(true, a, e);
    CreateAdds(false, b, e);
  }

  lemma AnnounceTrims(c: Config, x: CreateResult, y: CreateResult, now: int, later: int)
    requires x.id == y.id && Trimmed(x.s, y.s, now) && now <= later
    ensures Agree(Announce(c.(reaps := true), x, later), Announce(c.(reaps := false), y, later), later)
  {
    if x.id.Some? {
      GetTrims(x.s, y.s, x.id.value, now, later);
    }
  }

  lemma StartTrims(c: Config, a: Sessions, b: Sessions, e: Event, now: int)
    requires e.Start? && Inv(a) && Inv(b) && a.counter + 1 < COUNTER_RANGE && Trimmed(a, b, now) && now <= e.now <= e.later
    ensures Agree(OnStart(c.(reaps := true), a, e), OnStart(c.(reaps := false), b, e), e.later)
  {
    if Refusal(c, e).None? {
      CreateTrims(a, b, e, now);
      var x := CreateIn(true, a, e.uid, e.lbl, MinFrames(e), MaxFrames(e), e.now, e.room);
      var y := CreateIn(false, b, e.uid, e.lbl, MinFrames(e), MaxFrames(e), e.now, e.room);
      AnnounceTrims(c, x, y, e.now, e.later);
    }
  }

  lemma FrameTrims(c: Config, a: Sessions, b: Sessions, e: Event, now: int)
    requires e.Frame? && Trimmed(a, b, now) && now <= e.now
    ensures Agree(OnFrame(c.(reaps := true), a, e), OnFrame(c.(reaps := false), b, e), e.now)
  {
    GetTrims(a, b, e.session, now, e.now);
  }

  lemma FinishTrims(c: Config, a: Sessions, b: Sessions, e: Event, now: int)
    requires e.Finish? && Trimmed(a, b, now) && now <= e.now
    ensures Agree(OnFinish(c.(reaps := true), a, e), OnFinish(c.(reaps := false), b, e), e.now)
  {
    GetTrims(a, b, e.session, now, e.now);
  }

  lemma StepTrims(c: Config, a: Sessions, b: Sessions, e: Event, now: int)
    requires Inv(a) && Inv(b) && a.counter + 1 < COUNTER_RANGE && Trimmed(a, b, now) && now <= e.now <= Ends(e)
    ensures Agree(Next(c.(reaps := true), a, e), Next(c.(reaps := false), b, e), Ends(e))
  {
    match e
    case Start(_, _, _, _, _, _, _, _) => StartTrims(c, a, b, e, now);
    case Frame(_, _, _, _) => FrameTrims(c, a, b, e, now);
    case Finish(_, _, _, _) => FinishTrims(c, a, b, e, now);
  }

  lemma TrimmedLater(a: Sessions, b: Sessions, now: int, later: int)
    requires Trimmed(a, b, now) && now <= later
    ensures Trimmed(a, b, later)
  {
  }

  lemma {:induction false} RunTrims(c: Config, run: seq<Event>, n: nat)
    requires n <= |run| < COUNTER_RANGE && Steady(run)
    ensures n < |run| ==> Trimmed(At(c.(reaps := true), run, n), At(c.(reaps := false), run, n), run[n].now)
    decreases n
  {
    if 0 < n < |run| {
      var on, off, e := c.(reaps := true), c.(reaps := false), run[n - 1];
      RunTrims(c, run, n - 1);
      RunKeepsInv(on, run, n - 1);
      RunKeepsInv(off, run, n - 1);
      StepTrims(c, At(on, run, n - 1), At(off, run, n - 1), e, e.now);
      TrimmedLater(At(on, run, n), At(off, run, n), Ends(e), run[n].now);
    }
  }

  /** Sweeping old sessions out, whenever it happens, changes no answer and no
      save: a daemon that kept them all and only refused the old ones on lookup
      behaves the same. */
  lemma ReapingInvisible(c: Config, run: seq<Event>, k: nat)
    requires k < |run| < COUNTER_RANGE && Steady(run)
    ensures Out(c.(reaps := true), run, k).reply == Out(c.(reaps := false), run, k).reply
    ensures Out(c.(reaps := true), run, k).saved == Out(c.(reaps := false), run, k).saved
  {
    var on, off := c.(reaps := true), c.(reaps := false);
    RunTrims(c, run, k);
    RunKeepsInv(on, run, k);
    RunKeepsInv(off, run, k);
    StepTrims(c, At(on, run, k), At(off, run, k), run[k], run[k].now);
  }
}
