/** How long enrollment sessions live, told from the requests alone, and what each
    request is answered (daemon/enroll_session.cpp, daemon/handlers/enroll.cpp). */
module EnrollLife {
  import opened EnrollSessions
  import opened Vectors
  import opened Wrappers

  const FIVE_MINUTES: int := 5 * 60 * 1_000_000_000

  // ---------------------------------------------------------- what is looked up

  /** The request gets as far as looking session id up. */
  predicate LooksUp(c: Config, e: Event, id: string) {
    || (e.Frame? && e.session == id && e.peer == 0 && c.pipeline)
    || (e.Finish? && e.session == id && e.peer == 0 && c.pipeline && c.store)
  }

  /** Event m is a finish of session id that succeeds. */
  predicate FinishedAt(c: Config, run: seq<Event>, m: nat, id: string)
    requires m < |run|
  {
    run[m].Finish? && run[m].session == id && Out(c, run, m).reply.Done?
  }

  predicate Unfinished(c: Config, run: seq<Event>, i: nat, id: string, n: nat)
    requires n <= |run|
  {
    forall m :: i < m < n ==> !FinishedAt(c, run, m, id)
  }

  /** Request m comes at most five minutes after the start, event i, or after an
      earlier request for the session. */
  predicate InTime(c: Config, run: seq<Event>, i: nat, id: string, m: nat)
    requires i < m < |run|
  {
    exists j :: i <= j < m && (j == i || LooksUp(c, run[j], id)) && Ends(run[m]) <= Ends(run[j]) + FIVE_MINUTES
  }

  predicate Paced(c: Config, run: seq<Event>, i: nat, id: string, n: nat)
    requires i < n <= |run|
  {
    forall m :: i < m < n && LooksUp(c, run[m], id) ==> InTime(c, run, i, id, m)
  }

  // ----------------------------------------------- one step, nothing being reaped

  /** A session lives on unchanged but for its own requests, which find it exactly
      if it is fresh, and then touch it. */
  lemma StepLife(c: Config, s: Sessions, e: Event, id: string)
    requires !c.reaps && Inv(s) && s.counter + 1 < COUNTER_RANGE && id in s.active
    ensures var r := Next(c, s, e);
            if !LooksUp(c, e, id) then
              && id in r.s.active && r.s.active[id].lastTouch == s.active[id].lastTouch
              && !(e.Finish? && e.session == id && r.reply.Done?)
            else if Fresh(s.active[id], e.now) then
              && r.reply != Error(UnknownSession)
              && (if r.reply.Done? then id !in r.s.active else id in r.s.active && r.s.active[id].lastTouch == e.now)
            else r.reply == Error(UnknownSession) && id in r.s.active && r.s.active[id].lastTouch == s.active[id].lastTouch
  {
    match e
    case Start(_, _, _, _, _, _, _, _) => StartLeaves(c, s, e, id);
    case Frame(_, _, _, _) =>
    case Finish(_, _, _, _) =>
  }

  lemma StartLeaves(c: Config, s: Sessions, e: Event, id: string)
    requires e.Start? && !c.reaps && Inv(s) && s.counter + 1 < COUNTER_RANGE && id in s.active
    ensures var r := Next(c, s, e); id in r.s.active && r.s.active[id] == s.active[id]
  {
    CreateAdds(false, s, e);
  }

  /** A start's session is there afterwards, touched when the start ended. */
  lemma StartLife(c: Config, s: Sessions, e: Event)
    requires !c.reaps && Inv(s) && s.counter + 1 < COUNTER_RANGE && e.Start? && Next(c, s, e).reply.Progress?
    ensures var r := Next(c, s, e);
            r.reply.session in r.s.active && r.s.active[r.reply.session].lastTouch == e.later
            && Issued(r.reply.session, r.s.counter)
  {
    CreateAdds(false, s, e);
    NewId(e.uid, s.counter);
  }

  /** An id that is gone is not found again. */
  lemma StepGone(c: Config, s: Sessions, e: Event, id: string)
    requires !c.reaps && Inv(s) && s.counter + 1 < COUNTER_RANGE && id !in s.active && Issued(id, s.counter)
    ensures id !in Next(c, s, e).s.active
    ensures LooksUp(c, e, id) ==> Next(c, s, e).reply == Error(UnknownSession)
  {
    if e.Start? {
      CreateAdds(false, s, e);
    }
  }

  // ------------------------------------------------------------------ runs

  lemma {:induction false} Later(run: seq<Event>, a: nat, b: nat)
    requires Steady(run) && a < b < |run|
    ensures Ends(run[a]) <= run[b].now
    decreases b
  {
    if a < b - 1 {
      Later(run, a, b - 1);
    }
  }

  /** The start, or a request that reaches the lookup. */
  predicate Touch(c: Config, run: seq<Event>, i: nat, id: string, j: nat)
    requires j < |run|
  {
    i <= j && (j == i || LooksUp(c, run[j], id))
  }

  /** t is when the latest of these among the first n events was. */
  ghost predicate LastTouch(c: Config, run: seq<Event>, i: nat, id: string, n: nat, t: int)
    requires n <= |run|
  {
    && (exists j :: 0 <= j < n && Touch(c, run, i, id, j) && Ends(run[j]) == t)
    && (forall j :: 0 <= j < n && Touch(c, run, i, id, j) ==> Ends(run[j]) <= t)
  }

  /** Some event of the first n came more than five minutes after t. */
  predicate Expired(run: seq<Event>, n: nat, t: int)
    requires n <= |run|
  {
    exists m :: 0 <= m < n && Ends(run[m]) > t + FIVE_MINUTES
  }

  /** Before event n the session is there, or not, exactly as the first n events
      say, and so is t, when it was last touched, until a request came too late. */
  ghost predicate Lives(c: Config, run: seq<Event>, i: nat, id: string, n: nat, there: bool, t: int)
    requires i < n <= |run|
  {
    && (there <==> Unfinished(c, run, i, id, n))
    && (there ==> if Paced(c, run, i, id, n) then LastTouch(c, run, i, id, n, t) else Expired(run, n, t))
  }

  function TouchedAt(s: Sessions, id: string): int { if id in s.active then s.active[id].lastTouch else 0 }

  ghost predicate Life(c: Config, run: seq<Event>, i: nat, id: string, n: nat)
    requires i < n <= |run|
  {
    var s := At(c, run, n);
    Issued(id, s.counter) && Lives(c, run, i, id, n, id in s.active, TouchedAt(s, id))
  }

  lemma OneMore(c: Config, run: seq<Event>, i: nat, id: string, n: nat)
    requires i < n < |run|
    ensures Unfinished(c, run, i, id, n + 1) <==> Unfinished(c, run, i, id, n) && !FinishedAt(c, run, n, id)
    ensures Paced(c, run, i, id, n + 1) <==> Paced(c, run, i, id, n) && (LooksUp(c, run[n], id) ==> InTime(c, run, i, id, n))
  {
  }

  lemma InTimeIff(c: Config, run: seq<Event>, i: nat, id: string, n: nat, t: int)
    requires i < n < |run| && !run[n].Start? && LastTouch(c, run, i, id, n, t)
    ensures InTime(c, run, i, id, n) <==> run[n].now <= t + FIVE_MINUTES
  {
    var j :| 0 <= j < n && Touch(c, run, i, id, j) && Ends(run[j]) == t;
    assert i <= j && (j == i || LooksUp(c, run[j], id));
  }

  lemma TooLate(run: seq<Event>, n: nat, t: int)
    requires n < |run| && Steady(run) && Expired(run, n, t)
    ensures run[n].now > t + FIVE_MINUTES
  {
    var m :| 0 <= m < n && Ends(run[m]) > t + FIVE_MINUTES;
    Later(run, m, n);
  }

  /** A lookup finds the session fresh exactly if it comes in time and all before
      it did. */
  lemma FreshIff(c: Config, run: seq<Event>, i: nat, id: string, n: nat, t: int)
    requires i < n < |run| && Steady(run) && Lives(c, run, i, id, n, true, t) && LooksUp(c, run[n], id)
    ensures run[n].now <= t + FIVE_MINUTES <==> Paced(c, run, i, id, n + 1)
  {
    OneMore(c, run, i, id, n);
    if Paced(c, run, i, id, n) {
      InTimeIff(c, run, i, id, n, t);
    } else {
      TooLate(run, n, t);
    }
  }

  lemma TouchKept(c: Config, run: seq<Event>, i: nat, id: string, n: nat, t: int)
    requires i < n < |run| && !LooksUp(c, run[n], id)
    ensures LastTouch(c, run, i, id, n, t) ==> LastTouch(c, run, i, id, n + 1, t)
    ensures Expired(run, n, t) ==> Expired(run, n + 1, t)
  {
  }

  lemma TouchMoves(c: Config, run: seq<Event>, i: nat, id: string, n: nat)
    requires i < n < |run| && LooksUp(c, run[n], id) && Steady(run)
    ensures LastTouch(c, run, i, id, n + 1, run[n].now)
  {
    assert Touch(c, run, i, id, n) && Ends(run[n]) == run[n].now;
    forall j | 0 <= j < n ensures Ends(run[j]) <= run[n].now {
      Later(run, j, n);
    }
  }

  lemma IssuedStays(c: Config, run: seq<Event>, id: string, n: nat)
    requires n < |run| < COUNTER_RANGE
    ensures Issued(id, At(c, run, n).counter) ==> Issued(id, At(c, run, n + 1).counter)
  {
    CounterGrows(c, run, n, n + 1);
    IssuedMono(id, At(c, run, n).counter, At(c, run, n + 1).counter);
  }

  /** A session that is gone stays gone, */
  lemma LivesNot(c: Config, run: seq<Event>, i: nat, id: string, n: nat, t: int, t': int)
    requires i < n < |run| && Lives(c, run, i, id, n, false, t)
    ensures Lives(c, run, i, id, n + 1, false, t')
  {
    OneMore(c, run, i, id, n);
  }

  /** one that no request looks up stays as it is, */
  lemma LivesOn(c: Config, run: seq<Event>, i: nat, id: string, n: nat, t: int)
    requires i < n < |run| && Lives(c, run, i, id, n, true, t) && !LooksUp(c, run[n], id) && !FinishedAt(c, run, n, id)
    ensures Lives(c, run, i, id, n + 1, true, t)
  {
    OneMore(c, run, i, id, n);
    TouchKept(c, run, i, id, n, t);
  }

  /** one that is looked up in time is dropped or touched, */
  lemma LivesTouched(c: Config, run: seq<Event>, i: nat, id: string, n: nat, t: int, t': int)
    requires i < n < |run| && Steady(run) && Lives(c, run, i, id, n, true, t)
    requires LooksUp(c, run[n], id) && run[n].now <= t + FIVE_MINUTES && (!FinishedAt(c, run, n, id) ==> t' == run[n].now)
    ensures Lives(c, run, i, id, n + 1, !FinishedAt(c, run, n, id), t')
  {
    OneMore(c, run, i, id, n);
    FreshIff(c, run, i, id, n, t);
    TouchMoves(c, run, i, id, n);
  }

  /** and left alone if too late. */
  lemma LivesExpired(c: Config, run: seq<Event>, i: nat, id: string, n: nat, t: int)
    requires i < n < |run| && Steady(run) && Lives(c, run, i, id, n, true, t)
    requires LooksUp(c, run[n], id) && run[n].now > t + FIVE_MINUTES && !FinishedAt(c, run, n, id)
    ensures Lives(c, run, i, id, n + 1, true, t)
  {
    OneMore(c, run, i, id, n);
    FreshIff(c, run, i, id, n, t);
    assert Ends(run[n]) > t + FIVE_MINUTES;
  }

  lemma LifeStep(c: Config, run: seq<Event>, i: nat, id: string, n: nat)
    requires i < n < |run| < COUNTER_RANGE && Steady(run) && !c.reaps && Life(c, run, i, id, n)
    ensures Life(c, run, i, id, n + 1)
  {
    var s := At(c, run, n);
    var t, t' := TouchedAt(s, id), TouchedAt(At(c, run, n + 1), id);
    RunKeepsInv(c, run, n);
    IssuedStays(c, run, id, n);
    if id !in s.active {
      StepGone(c, s, run[n], id);
      LivesNot(c, run, i, id, n, t, t');
    } else {
      StepLife(c, s, run[n], id);
      if !LooksUp(c, run[n], id) {
        LivesOn(c, run, i, id, n, t);
      } else if run[n].now <= t + FIVE_MINUTES {
        LivesTouched(c, run, i, id, n, t, t');
      } else {
        LivesExpired(c, run, i, id, n, t);
      }
    }
  }

  lemma LifeBegins(c: Config, run: seq<Event>, i: nat, id: string)
    requires i < |run| < COUNTER_RANGE && !c.reaps && StartedAt(c, run, i, id)
    ensures Life(c, run, i, id, i + 1)
  {
    RunKeepsInv(c, run, i);
    StartLife(c, At(c, run, i), run[i]);
    assert Touch(c, run, i, id, i);
  }

  lemma {:induction false} LifeHolds(c: Config, run: seq<Event>, i: nat, id: string, n: nat)
    requires i < n <= |run| < COUNTER_RANGE && Steady(run) && !c.reaps && Life(c, run, i, id, i + 1)
    ensures Life(c, run, i, id, n)
    decreases n
  {
    if n > i + 1 {
      LifeHolds(c, run, i, id, n - 1);
      LifeStep(c, run, i, id, n - 1);
    }
  }

  lemma KeptKnownIff(c: Config, run: seq<Event>, i: nat, k: nat, id: string)
    requires i < k < |run| < COUNTER_RANGE && Steady(run) && !c.reaps && StartedAt(c, run, i, id) && LooksUp(c, run[k], id)
    ensures Out(c, run, k).reply != Error(UnknownSession) <==> Unfinished(c, run, i, id, k) && Paced(c, run, i, id, k + 1)
  {
    LifeBegins(c, run, i, id);
    LifeHolds(c, run, i, id, k);
    RunKeepsInv(c, run, k);
    var s := At(c, run, k);
    if id in s.active {
      StepLife(c, s, run[k], id);
      FreshIff(c, run, i, id, k, TouchedAt(s, id));
    } else {
      StepGone(c, s, run[k], id);
    }
  }

  /** In every run with a steady clock: a started session is known to a request
      exactly if it was not finished before, and this request and every one before
      it came within five minutes of the start or of an earlier request. */
  lemma KnownIff(c: Config, run: seq<Event>, i: nat, k: nat, id: string)
    requires c.reaps && i < k < |run| < COUNTER_RANGE && Steady(run) && StartedAt(c, run, i, id) && LooksUp(c, run[k], id)
    ensures Out(c, run, k).reply != Error(UnknownSession) <==> Unfinished(c, run, i, id, k) && Paced(c, run, i, id, k + 1)
  {
    var on, off := c.(reaps := true), c.(reaps := false);
    assert on == c;
    forall m | 0 <= m <= k ensures Out(c, run, m).reply == Out(off, run, m).reply {
      ReapingInvisible(c, run, m);
    }
    KeptKnownIff(off, run, i, k, id);
    assert forall m :: 0 <= m < k ==> FinishedAt(c, run, m, id) == FinishedAt(off, run, m, id);
    assert forall m :: 0 <= m <= k ==> LooksUp(c, run[m], id) == LooksUp(off, run[m], id);
    assert forall m :: i < m <= k ==> InTime(c, run, i, id, m) == InTime(off, run, i, id, m);
  }

  // -------------------------------------------------------------- in all runs

  /** A request finds its session exactly if some start gave it out before, it was
      not finished since, and every request for it came in time. */
  lemma KnownStems(c: Config, run: seq<Event>, k: nat, id: string)
    requires c.reaps && k < |run| < COUNTER_RANGE && Steady(run) && LooksUp(c, run[k], id)
    ensures Out(c, run, k).reply != Error(UnknownSession) <==>
            exists i :: 0 <= i < k && StartedAt(c, run, i, id) && Unfinished(c, run, i, id, k) && Paced(c, run, i, id, k + 1)
  {
    forall i | 0 <= i < k && StartedAt(c, run, i, id)
      ensures Out(c, run, k).reply != Error(UnknownSession) <==> Unfinished(c, run, i, id, k) && Paced(c, run, i, id, k + 1)
    {
      KnownIff(c, run, i, k, id);
    }
    if Out(c, run, k).reply != Error(UnknownSession) {
      FoundIsActive(c, At(c, run, k), run[k], id);
      var i := SessionHistory(c, run, id, k);
    }
  }

  lemma FoundIsActive(c: Config, s: Sessions, e: Event, id: string)
    requires LooksUp(c, e, id) && Next(c, s, e).reply != Error(UnknownSession)
    ensures id in s.active
  {
  }

  /** A finish that finds its session succeeds exactly if as many frames were
      accepted as its start asked for, 5 if it did not say, and the file could be
      written. */
  lemma FinishIff(c: Config, run: seq<Event>, k: nat) returns (i: nat)
    requires c.reaps && k < |run| < COUNTER_RANGE && run[k].Finish? && LooksUp(c, run[k], run[k].session)
    requires Out(c, run, k).reply != Error(UnknownSession)
    ensures i < k && StartedAt(c, run, i, run[k].session)
    ensures var reply := Out(c, run, k).reply;
            var asked := if run[i].minFrames > 0 then run[i].minFrames else 5;
            var enough := |Accepted(c, run, run[k].session, k)| >= asked;
            && (reply.Done? <==> enough && !run[k].saveFails)
            && (reply == Error(SaveFailed) <==> enough && run[k].saveFails)
            && (reply == Error(NotEnoughFrames) <==> !enough)
  {
    var id := run[k].session;
    FoundIsActive(c, At(c, run, k), run[k], id);
    i := SessionHistory(c, run, id, k);
    FinishSays(c, At(c, run, k), run[k]);
  }

  lemma FinishSays(c: Config, s: Sessions, e: Event)
    requires e.Finish? && LooksUp(c, e, e.session) && Next(c, s, e).reply != Error(UnknownSession)
    ensures e.session in s.active
    ensures var enough := |s.active[e.session].embeddings| >= s.active[e.session].minFrames;
            var reply := Next(c, s, e).reply;
            && (reply.Done? <==> enough && !e.saveFails)
            && (reply == Error(SaveFailed) <==> enough && e.saveFails)
            && (reply == Error(NotEnoughFrames) <==> !enough)
  {
  }

  /** What a session asks for: the frames given at its start, or 5, and at most as
      many as given, if that is more, or else 7 more. */
  lemma BoundsGiven(c: Config, run: seq<Event>, i: nat, id: string)
    requires c.reaps && i < |run| < COUNTER_RANGE && StartedAt(c, run, i, id)
    ensures var e, reply := run[i], Out(c, run, i).reply;
            var asked: int := if e.minFrames > 0 then e.minFrames else 5;
            && id == Id(e.uid, At(c, run, i).counter + 1)
            && reply == Progress(id, 0, if e.maxFrames > asked then e.maxFrames else asked + 7, 0.0, false, Hint.Ok)
  {
    RunKeepsInv(c, run, i);
    CreateAdds(true, At(c, run, i), run[i]);
    FreshKey(At(c, run, i), run[i].uid);
  }

  /** Who may ask for what. */
  lemma RefusedIff(c: Config, s: Sessions, e: Event)
    requires Inv(s) && s.counter + 1 < COUNTER_RANGE
    ensures var reply := Next(c, s, e).reply;
            && (reply == Error(NeedRoot) <==> e.peer != 0)
            && (reply == Error(NoBackend) <==> e.peer == 0 && !(c.pipeline && (e.Frame? || c.store)))
            && (reply == Error(InvalidLabel) <==>
                  e.Start? && e.peer == 0 && c.store && c.pipeline && (e.lbl == "" || '/' in e.lbl))
            && (reply.Error? && reply.why in {NeedRoot, NoBackend, InvalidLabel} ==> Next(c, s, e) == Effect(s, reply, None))
  {
  }

  /** A frame of a known session that is not full is answered with what is wrong
      with it: of 360 lines the face should be 54 to 288 high. */
  lemma HintsAre(c: Config, s: Sessions, e: Event)
    requires e.Frame? && LooksUp(c, e, e.session) && Next(c, s, e).reply.Progress?
    requires |s.active[e.session].embeddings| < s.active[e.session].maxFrames
    ensures var r, f := Next(c, s, e).reply, e.outcome;
            var shot := f.Shot? && f.captured;
            var lit := shot && f.brightness >= c.dark;
            var face := lit && f.hasFace;
            var sized := face && f.height.Some? && 54.0 <= f.height.value <= 288.0;
            && (r.hint == NoFace <==> !shot || (lit && !f.hasFace))
            && (r.hint == TooDark <==> shot && f.brightness < c.dark)
            && (r.hint == TooFar <==> face && (f.height.None? || f.height.value < 54.0))
            && (r.hint == TooClose <==> face && f.height.Some? && f.height.value > 288.0)
            && (r.hint == BlurryHoldStill <==> sized && (f.quality < c.qualityMin || f.embedding.None?))
            && (r.hint == Hint.Ok <==> sized && f.quality >= c.qualityMin && f.embedding.Some?)
            && r.quality == (if face then f.quality else 0.0)
  {
  }
}
