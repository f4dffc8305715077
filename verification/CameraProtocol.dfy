/** Every interleaving of connection handlers, detached prewarm workers,
    detached release workers and the watchdog over one capture pipeline.

    A run is a list of steps. A step is one indivisible action of one thread:
    taking or leaving the mutex, one access to what other threads read without the
    mutex (together with the clock reading it stores or compares), or the clock
    moving on. In particular a close switches the stream off in one step and moves
    the generation in another. Steps carry the environment's choices (what the device answered,
    which request a connection turns out to hold). */
module CameraProtocol {
  import opened PipelineState

  /** window = 0: no watchdog. slack: how late, at most, the watchdog is woken
      after its half-window sleep. */
  datatype Config = Config(policy: Policy, window: nat, slack: nat)

  function Half(cfg: Config): nat { cfg.window / 2 }

  /** What a connection turns out to carry. NoCamera covers every request whose
      handler never reaches the pipeline: unreadable or unparsable frames, list,
      remove and enroll_start. */
  datatype Request = AuthReq | TestReq | FrameReq | FinishReq | NoCamera

  datatype Worker = Absent | Waiting | Finished

  /** Lifetime of the handler's RequestScope. */
  datatype Scope = NotYet | Alive | Over

  /** One accepted connection: its handler thread, the prewarm worker spawned
      for it and the release worker spawned by its RequestScope.
      Bookkeeping that no thread reads: countsAtAccept, scoped, used, late. */
  datatype Conn = Conn(
    request: Request,
    gen0: nat,              // use_gen_ as read on the accept thread
    prewarm: Worker,
    scope: Scope,
    served: bool,           // the handler has taken the mutex
    release: Worker,
    countsAtAccept: nat,    // closes counted before the connection was accepted
    scoped: bool,           // a RequestScope was created
    used: bool,             // ensure_camera_open returned normally in the handler
    late: bool)             // the prewarm brought the camera up after the release worker was done

  /** Where the handler holding the mutex is inside process_one_frame. */
  datatype Stage = Ready | Marking | Storing | Filming | Ended

  /** Who holds the pipeline mutex. */
  datatype Owner =
    | Nobody
    | HandlerIn(h: nat, stage: Stage)
    | PrewarmIn(p: nat, marking: bool)
    | ReleaseIn(r: nat, counting: bool)   // counting: the stream is off, the close not counted yet
    | WatchdogIn(counting: bool)

  datatype Watchdog = NoDog | Asleep(due: nat) | WantsMutex

  /** Between switching the stream off and moving the generation. */
  predicate Counting(o: Owner) { (o.ReleaseIn? || o.WatchdogIn?) && o.counting }

  /** Who last switched the stream on. */
  datatype Opener = Unopened | ByHandler(oh: nat) | ByPrewarm(op: nat)

  datatype State = State(
    cam: Cam,
    conns: seq<Conn>,
    owner: Owner,
    dog: Watchdog,
    now: nat,
    counts: nat,            // closes counted so far, uncapped
    opener: Opener)

  /** counted: the frame was captured before the exception. */
  datatype Shot = Frame | NoFrame | Threw(counted: bool)

  predicate TookFrame(shot: Shot) { shot.Frame? || (shot.Threw? && shot.counted) }

  datatype Step =
    | Accept(authSocket: bool, request: Request)
    | PrewarmEnter(c: nat)
    | PrewarmSkip(c: nat)
    | PrewarmBring(c: nat, b: Bring)
    | PrewarmMark(c: nat)
    | ScopeOpen(c: nat)
    | Abandon(c: nat)
    | HandlerEnter(c: nat)
    | HandlerBring(c: nat, b: Bring)
    | HandlerMark(c: nat)
    | HandlerStore(c: nat)
    | HandlerShoot(c: nat, shot: Shot)
    | ScopeClose(c: nat)
    | HandlerLeave(c: nat)
    | ReleaseEnter(c: nat)
    | ReleaseStop(c: nat)
    | ReleaseCount(c: nat)
    | DogWake
    | DogEnter
    | DogStop
    | DogCount
    | Tick(d: nat)

  function Init(cfg: Config, now: nat): State {
    State(Dark, [], Nobody, if cfg.window > 0 then Asleep(now + Half(cfg)) else NoDog, now, 0, Unopened)
  }

  // ---------------------------------------------------------------- steps

  predicate Resting(o: Owner, c: nat) {
    o == HandlerIn(c, Ready) || o == HandlerIn(c, Ended)
  }

  /** When a step may be taken. */
  predicate Enabled(cfg: Config, s: State, step: Step) {
    match step
    case Accept(_, _) => true
    case PrewarmEnter(c) => c < |s.conns| && s.owner.Nobody? && s.conns[c].prewarm.Waiting?
    case PrewarmSkip(c) => c < |s.conns| && s.owner == PrewarmIn(c, false) && s.cam.gen != s.conns[c].gen0
    case PrewarmBring(c, _) => c < |s.conns| && s.owner == PrewarmIn(c, false) && s.cam.gen == s.conns[c].gen0
    case PrewarmMark(c) => c < |s.conns| && s.owner == PrewarmIn(c, true)
    case ScopeOpen(c) =>
      // auth and enroll_finish create the scope without holding the mutex
      c < |s.conns| && s.conns[c].scope.NotYet? && s.conns[c].request in {AuthReq, FinishReq}
    case Abandon(c) =>
      c < |s.conns| && s.conns[c].scope.NotYet? && !s.conns[c].served
    case HandlerEnter(c) =>
      && c < |s.conns| && s.owner.Nobody? && !s.conns[c].served
      && (match s.conns[c].request
          case AuthReq => s.conns[c].scope.Alive?
          case TestReq => s.conns[c].scope.NotYet?
          case FrameReq => s.conns[c].scope.NotYet?
          case _ => false)
    case HandlerBring(c, _) => c < |s.conns| && s.owner == HandlerIn(c, Ready) && !s.conns[c].scope.Over?
    case HandlerMark(c) => c < |s.conns| && s.owner == HandlerIn(c, Marking)
    case HandlerStore(c) => c < |s.conns| && s.owner == HandlerIn(c, Storing)
    case HandlerShoot(c, _) => c < |s.conns| && s.owner == HandlerIn(c, Filming)
    case ScopeClose(c) =>
      && c < |s.conns| && s.conns[c].scope.Alive?
      && (match s.conns[c].request
          case AuthReq => !(s.owner.HandlerIn? && s.owner.h == c)  // the lock guard went first
          case TestReq => Resting(s.owner, c)                      // the lock guard goes last
          case FinishReq => true
          case _ => false)
    case HandlerLeave(c) =>
      && c < |s.conns| && Resting(s.owner, c)
      && (s.conns[c].request.TestReq? ==> s.conns[c].scope.Over?)
    case ReleaseEnter(c) => c < |s.conns| && s.owner.Nobody? && s.conns[c].release.Waiting?
    case ReleaseStop(c) => c < |s.conns| && s.owner == ReleaseIn(c, false)
    case ReleaseCount(c) => c < |s.conns| && s.owner == ReleaseIn(c, true)
    case DogWake => s.dog.Asleep? && s.now >= s.dog.due
    case DogEnter => s.dog.WantsMutex? && s.owner.Nobody?
    case DogStop => s.owner == WatchdogIn(false)
    case DogCount => s.owner == WatchdogIn(true)
    case Tick(d) =>
      // the watchdog is woken within `slack`, and takes a free mutex at once
      && (s.dog.Asleep? ==> s.now + d <= s.dog.due + cfg.slack)
      && (s.dog.WantsMutex? ==> !s.owner.Nobody?)
      && s.owner != WatchdogIn(false)
  }

  function At(s: State, c: nat, k: Conn): State
    requires c < |s.conns|
  {
    s.(conns := s.conns[c := k])
  }

  function NewConn(cfg: Config, s: State, authSocket: bool, request: Request): Conn {
    Conn(request, s.cam.gen,
         if authSocket && cfg.policy.Lazy? then Waiting else Absent,
         NotYet, false, Absent, s.counts, false, false, false)
  }

  /** What a step does. */
  function Apply(cfg: Config, s: State, step: Step): State
    requires Enabled(cfg, s, step)
  {
    match step
    case Accept(sock, req) => s.(conns := s.conns + [NewConn(cfg, s, sock, req)])
    case PrewarmEnter(c) => s.(owner := PrewarmIn(c, false))
    case PrewarmSkip(c) => At(s, c, s.conns[c].(prewarm := Finished)).(owner := Nobody)
    case PrewarmBring(c, b) =>
      if Up(s.cam, b) then
        At(s, c, s.conns[c].(late := s.conns[c].release.Finished?))
        .(cam := BringUp(s.cam, b), owner := PrewarmIn(c, true),
          opener := if s.cam.streaming then s.opener else ByPrewarm(c))
      else
        At(s, c, s.conns[c].(prewarm := Finished)).(cam := BringUp(s.cam, b), owner := Nobody)
    case PrewarmMark(c) =>
      At(s, c, s.conns[c].(prewarm := Finished)).(cam := Touch(s.cam, s.now), owner := Nobody)
    case ScopeOpen(c) => At(s, c, s.conns[c].(scope := Alive, scoped := true))
    case Abandon(c) => At(s, c, s.conns[c].(scope := Over))
    case HandlerEnter(c) =>
      var k := s.conns[c].(served := true);
      At(s, c, if k.request.TestReq? then k.(scope := Alive, scoped := true) else k)
      .(owner := HandlerIn(c, Ready))
    case HandlerBring(c, b) =>
      if Up(s.cam, b) then
        At(s, c, s.conns[c].(used := true))
        .(cam := BringUp(s.cam, b), owner := HandlerIn(c, Marking),
          opener := if s.cam.streaming then s.opener else ByHandler(c))
      else
        s.(cam := BringUp(s.cam, b), owner := HandlerIn(c, Ended))
    case HandlerMark(c) => s.(cam := Touch(s.cam, s.now), owner := HandlerIn(c, Storing))
    case HandlerStore(c) => s.(cam := Touch(s.cam, s.now), owner := HandlerIn(c, Filming))
    case HandlerShoot(c, shot) =>
      // enroll_frame looks at one frame only; an exception ends the loop
      s.(cam := Captured(s.cam, TookFrame(shot)),
         owner := HandlerIn(c, if shot.Threw? || s.conns[c].request.FrameReq? then Ended else Ready))
    case ScopeClose(c) =>
      At(s, c, s.conns[c].(scope := Over, release := if cfg.policy.Lazy? then Waiting else Absent))
    case HandlerLeave(c) =>
      var k := s.conns[c];
      At(s, c, if k.request.FrameReq? then k.(scope := Over) else k).(owner := Nobody)
    case ReleaseEnter(c) => s.(owner := ReleaseIn(c, false))
    case ReleaseStop(c) =>
      if s.cam.streaming then s.(cam := Halted(s.cam), owner := ReleaseIn(c, true))
      else At(s, c, s.conns[c].(release := Finished)).(owner := Nobody)
    case ReleaseCount(c) =>
      At(s, c, s.conns[c].(release := Finished)).(cam := Counted(s.cam), owner := Nobody, counts := s.counts + 1)
    case DogWake =>
      s.(dog := if s.cam.lastUse != 0 && s.now - s.cam.lastUse >= cfg.window then WantsMutex
                else Asleep(s.now + Half(cfg)))
    case DogEnter => s.(owner := WatchdogIn(false))
    case DogStop =>
      if s.cam.streaming then s.(cam := Halted(s.cam), owner := WatchdogIn(true))
      else s.(owner := Nobody, dog := Asleep(s.now + Half(cfg)))
    case DogCount =>
      s.(cam := Counted(s.cam), owner := Nobody, dog := Asleep(s.now + Half(cfg)), counts := s.counts + 1)
    case Tick(d) => s.(now := s.now + d)
  }

  // ----------------------------------------------------------------- runs

  predicate Valid(cfg: Config, s: State, steps: seq<Step>)
    decreases |steps|
  {
    steps == [] || (Enabled(cfg, s, steps[0]) && Valid(cfg, Apply(cfg, s, steps[0]), steps[1..]))
  }

  /** The state a run ends in. */
  function Final(cfg: Config, s: State, steps: seq<Step>): State
    requires Valid(cfg, s, steps)
    decreases |steps|
  {
    if steps == [] then s else Final(cfg, Apply(cfg, s, steps[0]), steps[1..])
  }

  /** How often the stream went from on to off during a run, by whatever step. */
  function StreamOffs(cfg: Config, s: State, steps: seq<Step>): nat
    requires Valid(cfg, s, steps)
    decreases |steps|
  {
    if steps == [] then 0
    else
      var t := Apply(cfg, s, steps[0]);
      (if s.cam.streaming && !t.cam.streaming then 1 else 0) + StreamOffs(cfg, t, steps[1..])
  }

  /** How many closes were counted during a run. */
  function Counts(steps: seq<Step>): nat {
    if steps == [] then 0 else (if steps[0].ReleaseCount? || steps[0].DogCount? then 1 else 0) + Counts(steps[1..])
  }

  // ------------------------------------------------------------ invariant

  predicate ConnInv(s: State, k: Conn) {
    && k.countsAtAccept <= s.counts
    && k.gen0 == k.countsAtAccept % GEN_MODULUS
    && (k.used ==> s.cam.streaming || Counting(s.owner) || k.countsAtAccept < s.counts)
    && (k.used && k.release.Finished? ==> k.countsAtAccept < s.counts)
    && (!k.scope.NotYet? || k.release.Absent?)
    && (k.scope.Alive? ==> k.scoped && k.release.Absent?)
    && (k.scope.NotYet? ==> !k.scoped)
    && (k.release.Waiting? || k.release.Finished? ==> k.scope.Over? && k.scoped)
    && (k.request.FrameReq? || k.request.NoCamera? ==> !k.scoped)
    && (k.late ==> k.release.Finished?)
  }

  predicate OwnerInv(s: State) {
    match s.owner
    case Nobody => true
    case HandlerIn(c, stage) =>
      && c < |s.conns| && s.conns[c].served
      && s.conns[c].release != Finished
      && (stage in {Marking, Storing, Filming} ==> s.cam.streaming && !s.conns[c].scope.Over?)
      && (match s.conns[c].request
          case AuthReq => s.conns[c].scope.Alive?
          case TestReq => !s.conns[c].scope.NotYet?
          case FrameReq => s.conns[c].scope.NotYet?
          case _ => false)
    case PrewarmIn(c, marking) =>
      c < |s.conns| && s.conns[c].prewarm.Waiting? && (marking ==> s.cam.streaming)
    case ReleaseIn(c, counting) => c < |s.conns| && s.conns[c].release.Waiting? && (counting ==> !s.cam.streaming)
    case WatchdogIn(counting) => s.dog.WantsMutex? && (counting ==> !s.cam.streaming)
  }

  /** A lit stream has someone to answer for it. */
  predicate OpenerInv(cfg: Config, s: State) {
    s.cam.streaming ==>
      match s.opener
      case Unopened => false
      case ByHandler(c) =>
        && c < |s.conns|
        && (cfg.policy.Lazy? && !s.conns[c].request.FrameReq? ==>
              s.conns[c].scope.Alive? || s.conns[c].release.Waiting?)
      case ByPrewarm(c) =>
        && c < |s.conns| && cfg.policy.Lazy?
        && (s.counts - s.conns[c].countsAtAccept) % GEN_MODULUS == 0
        && s.counts >= s.conns[c].countsAtAccept
        && (s.conns[c].release.Finished? ==> s.conns[c].late)
  }

  /** An unlocked lit stream has a recorded last use, and the sleeping watchdog
      looks again no later than one and a half windows after it. */
  predicate DogInv(cfg: Config, s: State) {
    && (s.dog.NoDog? <==> cfg.window == 0)
    && s.cam.lastUse <= s.now && s.now > 0
    && (s.cam.streaming && !Bringing(s.owner) ==> s.cam.lastUse != 0)
    && (s.dog.Asleep? ==> s.dog.due <= s.now + Half(cfg) && s.now <= s.dog.due + cfg.slack)
    && (s.dog.Asleep? && s.cam.streaming && !Bringing(s.owner) ==>
          s.dog.due <= s.cam.lastUse + cfg.window + Half(cfg))
  }

  /** Between switching the stream on and recording the use. */
  predicate Bringing(o: Owner) {
    (o.HandlerIn? && o.stage.Marking?) || (o.PrewarmIn? && o.marking)
  }

  predicate Inv(cfg: Config, s: State) {
    && Sane(s.cam)
    && s.cam.gen == s.counts % GEN_MODULUS
    && (forall c :: 0 <= c < |s.conns| ==> ConnInv(s, s.conns[c]))
    && (forall c :: 0 <= c < |s.conns| ==> !cfg.policy.Lazy? ==> s.conns[c].prewarm.Absent?)
    && (forall c :: 0 <= c < |s.conns| ==>
          cfg.policy.Lazy? && s.conns[c].scope.Over? && s.conns[c].scoped ==> !s.conns[c].release.Absent?)
    && OwnerInv(s)
    && OpenerInv(cfg, s)
    && DogInv(cfg, s)
  }

  lemma InitInv(cfg: Config, now: nat)
    requires now > 0
    ensures Inv(cfg, Init(cfg, now))
  {
  }

  // Counting modulo 2^64.
  lemma NextGen(counts: nat)
    ensures (counts % GEN_MODULUS + 1) % GEN_MODULUS == (counts + 1) % GEN_MODULUS
  {
  }

  lemma SameGen(later: nat, earlier: nat)
    requires earlier <= later
    ensures later % GEN_MODULUS == earlier % GEN_MODULUS <==> (later - earlier) % GEN_MODULUS == 0
  {
  }

  lemma AcceptKeepsInv(cfg: Config, s: State, step: Step)
    requires Inv(cfg, s) && Enabled(cfg, s, step)
    requires step.Accept?
    ensures Inv(cfg, Apply(cfg, s, step))
  {
  }

  lemma PrewarmKeepsInv(cfg: Config, s: State, step: Step)
    requires Inv(cfg, s) && Enabled(cfg, s, step)
    requires step.PrewarmEnter? || step.PrewarmSkip? || step.PrewarmMark?
    ensures Inv(cfg, Apply(cfg, s, step))
  {
  }

  lemma PrewarmBringConns(cfg: Config, s: State, step: Step)
    requires Inv(cfg, s) && Enabled(cfg, s, step)
    requires step.PrewarmBring?
    ensures var t := Apply(cfg, s, step); forall c :: 0 <= c < |t.conns| ==> ConnInv(t, t.conns[c])
  {
  }

  lemma PrewarmBringKeepsInv(cfg: Config, s: State, step: Step)
    requires Inv(cfg, s) && Enabled(cfg, s, step)
    requires step.PrewarmBring?
    ensures Inv(cfg, Apply(cfg, s, step))
  {
    PrewarmBringConns(cfg, s, step);
    SameGen(s.counts, s.conns[step.c].countsAtAccept);
  }

  lemma ScopeKeepsInv(cfg: Config, s: State, step: Step)
    requires Inv(cfg, s) && Enabled(cfg, s, step)
    requires step.ScopeOpen? || step.Abandon?
    ensures Inv(cfg, Apply(cfg, s, step))
  {
  }

  lemma ScopeCloseKeepsInv(cfg: Config, s: State, step: Step)
    requires Inv(cfg, s) && Enabled(cfg, s, step)
    requires step.ScopeClose?
    ensures Inv(cfg, Apply(cfg, s, step))
  {
  }

  lemma EnterKeepsInv(cfg: Config, s: State, step: Step)
    requires Inv(cfg, s) && Enabled(cfg, s, step)
    requires step.HandlerEnter?
    ensures Inv(cfg, Apply(cfg, s, step))
  {
  }

  lemma LeaveKeepsInv(cfg: Config, s: State, step: Step)
    requires Inv(cfg, s) && Enabled(cfg, s, step)
    requires step.HandlerLeave?
    ensures Inv(cfg, Apply(cfg, s, step))
  {
  }

  lemma BringKeepsInv(cfg: Config, s: State, step: Step)
    requires Inv(cfg, s) && Enabled(cfg, s, step)
    requires step.HandlerBring?
    ensures Inv(cfg, Apply(cfg, s, step))
  {
  }

  lemma FrameKeepsInv(cfg: Config, s: State, step: Step)
    requires Inv(cfg, s) && Enabled(cfg, s, step)
    requires step.HandlerMark? || step.HandlerStore? || step.HandlerShoot?
    ensures Inv(cfg, Apply(cfg, s, step))
  {
  }

  lemma ReleaseKeepsInv(cfg: Config, s: State, step: Step)
    requires Inv(cfg, s) && Enabled(cfg, s, step)
    requires step.ReleaseEnter? || step.ReleaseStop?
    ensures Inv(cfg, Apply(cfg, s, step))
  {
  }

  lemma CountKeepsInv(cfg: Config, s: State, step: Step)
    requires Inv(cfg, s) && Enabled(cfg, s, step)
    requires step.ReleaseCount? || step.DogCount?
    ensures Inv(cfg, Apply(cfg, s, step))
  {
    NextGen(s.counts);
  }

  lemma DogKeepsInv(cfg: Config, s: State, step: Step)
    requires Inv(cfg, s) && Enabled(cfg, s, step)
    requires step.DogWake? || step.DogEnter? || step.DogStop?
    ensures Inv(cfg, Apply(cfg, s, step))
  {
  }

  lemma TickKeepsInv(cfg: Config, s: State, step: Step)
    requires Inv(cfg, s) && Enabled(cfg, s, step)
    requires step.Tick?
    ensures Inv(cfg, Apply(cfg, s, step))
  {
  }

  lemma StepKeepsInv(cfg: Config, s: State, step: Step)
    requires Inv(cfg, s) && Enabled(cfg, s, step)
    ensures Inv(cfg, Apply(cfg, s, step))
  {
    match step
    case Accept(_, _) => AcceptKeepsInv(cfg, s, step);
    case PrewarmEnter(_) => PrewarmKeepsInv(cfg, s, step);
    case PrewarmSkip(_) => PrewarmKeepsInv(cfg, s, step);
    case PrewarmBring(_, _) => PrewarmBringKeepsInv(cfg, s, step);
    case PrewarmMark(_) => PrewarmKeepsInv(cfg, s, step);
    case ScopeOpen(_) => ScopeKeepsInv(cfg, s, step);
    case Abandon(_) => ScopeKeepsInv(cfg, s, step);
    case ScopeClose(_) => ScopeCloseKeepsInv(cfg, s, step);
    case HandlerEnter(_) => EnterKeepsInv(cfg, s, step);
    case HandlerBring(_, _) => BringKeepsInv(cfg, s, step);
    case HandlerLeave(_) => LeaveKeepsInv(cfg, s, step);
    case HandlerMark(_) => FrameKeepsInv(cfg, s, step);
    case HandlerStore(_) => FrameKeepsInv(cfg, s, step);
    case HandlerShoot(_, _) => FrameKeepsInv(cfg, s, step);
    case Tick(_) => TickKeepsInv(cfg, s, step);
    case ReleaseEnter(_) => ReleaseKeepsInv(cfg, s, step);
    case ReleaseStop(_) => ReleaseKeepsInv(cfg, s, step);
    case ReleaseCount(_) => CountKeepsInv(cfg, s, step);
    case DogCount => CountKeepsInv(cfg, s, step);
    case _ => DogKeepsInv(cfg, s, step);
  }

  // ----------------------------------------------------- facts about runs

  lemma {:induction false} RunKeepsInv(cfg: Config, s: State, steps: seq<Step>)
    requires Inv(cfg, s) && Valid(cfg, s, steps)
    ensures Inv(cfg, Final(cfg, s, steps))
    decreases |steps|
  {
    if steps == [] {
    } else {
      StepKeepsInv(cfg, s, steps[0]);
      RunKeepsInv(cfg, Apply(cfg, s, steps[0]), steps[1..]);
    }
  }

  lemma {:induction false} Split(cfg: Config, s: State, a: seq<Step>, b: seq<Step>)
    requires Valid(cfg, s, a + b)
    ensures Valid(cfg, s, a) && Valid(cfg, Final(cfg, s, a), b)
    ensures Final(cfg, s, a + b) == Final(cfg, Final(cfg, s, a), b)
    ensures StreamOffs(cfg, s, a + b) == StreamOffs(cfg, s, a) + StreamOffs(cfg, Final(cfg, s, a), b)
    decreases |a|
  {
    if a == [] {
      assert a + b == b;
    } else {
      assert (a + b)[1..] == a[1..] + b;
      Split(cfg, Apply(cfg, s, a[0]), a[1..], b);
    }
  }

  lemma Cons(cfg: Config, s: State, step: Step, rest: seq<Step>)
    requires Enabled(cfg, s, step) && Valid(cfg, Apply(cfg, s, step), rest)
    ensures Valid(cfg, s, [step] + rest)
    ensures Final(cfg, s, [step] + rest) == Final(cfg, Apply(cfg, s, step), rest)
  {
    assert ([step] + rest)[1..] == rest;
  }

  lemma Two(cfg: Config, s: State, a: Step, b: Step) returns (t: State)
    requires Enabled(cfg, s, a) && Enabled(cfg, Apply(cfg, s, a), b)
    ensures Valid(cfg, s, [a, b]) && t == Final(cfg, s, [a, b]) == Apply(cfg, Apply(cfg, s, a), b)
  {
    t := Apply(cfg, Apply(cfg, s, a), b);
    Cons(cfg, Apply(cfg, s, a), b, []);
    Cons(cfg, s, a, [b]);
    assert [a] + [b] == [a, b];
  }

  lemma {:induction false} Join(cfg: Config, s: State, a: seq<Step>, b: seq<Step>)
    requires Valid(cfg, s, a) && Valid(cfg, Final(cfg, s, a), b)
    ensures Valid(cfg, s, a + b) && Final(cfg, s, a + b) == Final(cfg, Final(cfg, s, a), b)
    decreases |a|
  {
    if a == [] {
      assert a + b == b;
    } else {
      assert (a + b)[1..] == a[1..] + b;
      Join(cfg, Apply(cfg, s, a[0]), a[1..], b);
    }
  }

  predicate Reachable(cfg: Config, start: nat, steps: seq<Step>, s: State) {
    start > 0 && Valid(cfg, Init(cfg, start), steps) && Final(cfg, Init(cfg, start), steps) == s
  }

  lemma ReachableInv(cfg: Config, start: nat, steps: seq<Step>, s: State)
    requires Reachable(cfg, start, steps, s)
    ensures Inv(cfg, s)
  {
    InitInv(cfg, start);
    RunKeepsInv(cfg, Init(cfg, start), steps);
  }

  // ----------------------------------------------------- generation guard

  function Pending(o: Owner): nat { if Counting(o) then 1 else 0 }

  /** Only release workers and the watchdog switch the stream off; each time, the
      close is pending until they count it. */
  lemma StepCloses(cfg: Config, s: State, step: Step)
    requires Inv(cfg, s) && Enabled(cfg, s, step)
    ensures var t := Apply(cfg, s, step);
            && (s.cam.streaming && !t.cam.streaming ==> step.ReleaseStop? || step.DogStop?)
            && t.counts + Pending(t.owner) ==
                 s.counts + Pending(s.owner) + (if s.cam.streaming && !t.cam.streaming then 1 else 0)
            && t.counts == s.counts + (if step.ReleaseCount? || step.DogCount? then 1 else 0)
            && |s.conns| <= |t.conns|
            && forall c :: 0 <= c < |s.conns| ==>
                 t.conns[c].gen0 == s.conns[c].gen0 && t.conns[c].countsAtAccept == s.conns[c].countsAtAccept
  {
    SnapshotsStay(cfg, s, step);
  }

  /** No step changes a connection's snapshots. */
  lemma SnapshotsStay(cfg: Config, s: State, step: Step)
    requires Enabled(cfg, s, step)
    ensures var t := Apply(cfg, s, step);
            && |s.conns| <= |t.conns|
            && forall c :: 0 <= c < |s.conns| ==>
                 t.conns[c].gen0 == s.conns[c].gen0 && t.conns[c].countsAtAccept == s.conns[c].countsAtAccept
  {
  }

  lemma {:induction false} RunCloses(cfg: Config, s: State, steps: seq<Step>)
    requires Inv(cfg, s) && Valid(cfg, s, steps)
    ensures var t := Final(cfg, s, steps);
            && t.counts + Pending(t.owner) == s.counts + Pending(s.owner) + StreamOffs(cfg, s, steps)
            && t.counts == s.counts + Counts(steps)
            && |s.conns| <= |t.conns|
            && forall c :: 0 <= c < |s.conns| ==>
                 t.conns[c].gen0 == s.conns[c].gen0 && t.conns[c].countsAtAccept == s.conns[c].countsAtAccept
    decreases |steps|
  {
    if steps == [] {
    } else {
      StepKeepsInv(cfg, s, steps[0]);
      StepCloses(cfg, s, steps[0]);
      RunCloses(cfg, Apply(cfg, s, steps[0]), steps[1..]);
    }
  }

  /** In every run use_gen_ is, modulo 2^64, the number of STREAMOFFs, less one
      exactly while the last of them is not counted yet. */
  lemma GenCountsStreamOffs(cfg: Config, start: nat, steps: seq<Step>, s: State)
    requires Reachable(cfg, start, steps, s)
    ensures var offs := StreamOffs(cfg, Init(cfg, start), steps);
            offs >= Pending(s.owner) && s.cam.gen == (offs - Pending(s.owner)) % GEN_MODULUS
  {
    ReachableInv(cfg, start, steps, s);
    InitInv(cfg, start);
    RunCloses(cfg, Init(cfg, start), steps);
  }

  /** The check of a prewarm worker that has the mutex, n closes after its
      snapshot. */
  lemma GuardPasses(cfg: Config, s: State, c: nat, n: nat, b: Bring)
    requires Inv(cfg, s) && s.owner == PrewarmIn(c, false) && s.counts == s.conns[c].countsAtAccept + n
    ensures Enabled(cfg, s, PrewarmBring(c, b)) <==> n % GEN_MODULUS == 0
    ensures Enabled(cfg, s, PrewarmSkip(c)) <==> n % GEN_MODULUS != 0
    ensures n < GEN_MODULUS && Enabled(cfg, s, PrewarmBring(c, b)) ==> n == 0
  {
    assert ConnInv(s, s.conns[c]);
    SameGen(s.counts, s.conns[c].countsAtAccept);
  }

  /** From the accept of connection c on, its prewarm worker's check succeeds
      exactly while the closes counted since then are a multiple of 2^64. These are
      the STREAMOFFs since then, and one more if the snapshot was taken between a
      STREAMOFF and its count. */
  lemma GuardSince(cfg: Config, at: State, c: nat, between: seq<Step>, b: Bring)
    requires Inv(cfg, at) && c < |at.conns| && at.conns[c].countsAtAccept == at.counts
    requires Valid(cfg, at, between)
    ensures var s := Final(cfg, at, between);
            s.owner == PrewarmIn(c, false) ==>
              && (Enabled(cfg, s, PrewarmBring(c, b)) <==> Counts(between) % GEN_MODULUS == 0)
              && (Enabled(cfg, s, PrewarmSkip(c)) <==> Counts(between) % GEN_MODULUS != 0)
              && Counts(between) == StreamOffs(cfg, at, between) + Pending(at.owner)
              && (Counts(between) < GEN_MODULUS && Enabled(cfg, s, PrewarmBring(c, b)) ==> Counts(between) == 0)
  {
    RunCloses(cfg, at, between);
    RunKeepsInv(cfg, at, between);
    var s := Final(cfg, at, between);
    if s.owner == PrewarmIn(c, false) {
      GuardPasses(cfg, s, c, Counts(between), b);
    }
  }

  lemma AcceptedLast(cfg: Config, pre: State, accept: Step)
    requires Inv(cfg, pre) && accept.Accept?
    ensures Valid(cfg, pre, [accept])
    ensures var at := Final(cfg, pre, [accept]);
            && Inv(cfg, at) && at.owner == pre.owner
            && |at.conns| == |pre.conns| + 1 && at.conns[|pre.conns|].countsAtAccept == at.counts
  {
    AcceptKeepsInv(cfg, pre, accept);
    assert [accept][1..] == [];
  }

  lemma AcceptSplits(cfg: Config, start: nat, before: seq<Step>, accept: Step, between: seq<Step>, s: State)
    requires accept.Accept?
    requires Reachable(cfg, start, before + [accept] + between, s)
    ensures Valid(cfg, Init(cfg, start), before + [accept])
    ensures var at := Final(cfg, Init(cfg, start), before + [accept]);
            && Inv(cfg, at) && |at.conns| > 0 && at.conns[|at.conns| - 1].countsAtAccept == at.counts
            && Valid(cfg, at, between) && s == Final(cfg, at, between)
  {
    var init := Init(cfg, start);
    Split(cfg, init, before + [accept], between);
    Split(cfg, init, before, [accept]);
    var pre := Final(cfg, init, before);
    ReachableInv(cfg, start, before, pre);
    AcceptedLast(cfg, pre, accept);
  }

  /** The guard of prewarm_async, exactly. A connection is accepted after `before`;
      its worker has the mutex after `between`. It goes on to open precisely if the
      closes counted in `between` are a multiple of 2^64, and turns back precisely
      if they are not. So, short of 2^64 closes, when it opens there was no
      STREAMOFF since the snapshot; and when it turns back there was one, unless the
      snapshot fell between a STREAMOFF and its count. */
  lemma GenerationGuard(cfg: Config, start: nat, before: seq<Step>, accept: Step, between: seq<Step>, s: State, b: Bring)
    requires accept.Accept?
    requires Reachable(cfg, start, before + [accept] + between, s)
    ensures Valid(cfg, Init(cfg, start), before + [accept])
    ensures var at := Final(cfg, Init(cfg, start), before + [accept]);
            var c := |at.conns| - 1;
            && c >= 0 && Valid(cfg, at, between)
            && (s.owner == PrewarmIn(c, false) ==>
                  var counted, offs := Counts(between), StreamOffs(cfg, at, between);
                  && (Enabled(cfg, s, PrewarmBring(c, b)) <==> counted % GEN_MODULUS == 0)
                  && (Enabled(cfg, s, PrewarmSkip(c)) <==> counted % GEN_MODULUS != 0)
                  && counted == offs + Pending(at.owner)
                  && (counted < GEN_MODULUS && Enabled(cfg, s, PrewarmBring(c, b)) ==> offs == 0 && !Counting(at.owner))
                  && (Enabled(cfg, s, PrewarmSkip(c)) ==> offs > 0 || Counting(at.owner)))
  {
    AcceptSplits(cfg, start, before, accept, between, s);
    var at := Final(cfg, Init(cfg, start), before + [accept]);
    GuardSince(cfg, at, |at.conns| - 1, between, b);
  }

  // ------------------------------------------------------ lazy quiescence

  predicate ConnDone(k: Conn) {
    k.scope.Over? && !k.prewarm.Waiting? && !k.release.Waiting?
  }

  /** All handlers, prewarm workers and release workers are done. */
  predicate Quiescent(s: State) {
    s.owner.Nobody? && forall c :: 0 <= c < |s.conns| ==> ConnDone(s.conns[c])
  }

  /** A prewarm nobody closes after: its connection never created a request
      scope, or its release worker had already run while the handler never got
      past ensure_camera_open. (The last alternative needs 2^64 closes between
      accept and open.) */
  predicate Stranded(s: State, k: Conn) {
    || !k.scoped
    || (k.late && (!k.used || s.counts - k.countsAtAccept >= GEN_MODULUS))
  }

  /** What can keep the lamp lit once everything has come to rest under the lazy
      policy: a stranded prewarm, or an enrollment frame whose session was not
      finished since. */
  lemma QuiescentLitOnlyIf(cfg: Config, start: nat, steps: seq<Step>, s: State)
    requires cfg.policy.Lazy? && Reachable(cfg, start, steps, s)
    requires Quiescent(s) && s.cam.streaming
    ensures || (s.opener.ByPrewarm? && s.opener.op < |s.conns| && Stranded(s, s.conns[s.opener.op]))
            || (s.opener.ByHandler? && s.opener.oh < |s.conns| && s.conns[s.opener.oh].request.FrameReq?)
  {
    ReachableInv(cfg, start, steps, s);
    match s.opener
    case Unopened => assert false;
    case ByHandler(c) => assert ConnDone(s.conns[c]);
    case ByPrewarm(c) =>
      var k := s.conns[c];
      assert ConnDone(k) && ConnInv(s, k);
      if k.scoped {
        assert k.release.Finished?;
        if k.used && s.counts - k.countsAtAccept < GEN_MODULUS {
          assert false;
        }
      }
  }

  /** Same, as the promise the lazy policy makes: dark at rest. */
  lemma QuiescentDark(cfg: Config, start: nat, steps: seq<Step>, s: State)
    requires cfg.policy.Lazy? && Reachable(cfg, start, steps, s) && Quiescent(s)
    requires forall c :: 0 <= c < |s.conns| ==> !s.conns[c].request.FrameReq? && !Stranded(s, s.conns[c])
    ensures !s.cam.streaming
  {
    if s.cam.streaming {
      QuiescentLitOnlyIf(cfg, start, steps, s);
    }
  }

  /** A step that switches the stream on, or finds it on, without a release
      worker of its own to follow. */
  predicate Unbacked(s: State, step: Step) {
    || (step.PrewarmBring? && Up(s.cam, step.b))
    || (step.HandlerBring? && Up(s.cam, step.b) && step.c < |s.conns| && s.conns[step.c].request.FrameReq?)
  }

  /** Some prewarm or enrollment frame brought the camera up after the last time
      a release worker or the watchdog ran. */
  predicate LeftOn(cfg: Config, s: State, steps: seq<Step>)
    requires Valid(cfg, s, steps)
    decreases |steps|
  {
    steps != [] &&
    var t := Apply(cfg, s, steps[0]);
    || LeftOn(cfg, t, steps[1..])
    || (Unbacked(s, steps[0]) && forall i :: 1 <= i < |steps| ==> !steps[i].ReleaseStop? && !steps[i].DogStop?)
  }

  /** The stream stays on until a release worker or the watchdog runs. */
  lemma {:induction false} StaysOn(cfg: Config, s: State, steps: seq<Step>)
    requires Inv(cfg, s) && Valid(cfg, s, steps) && s.cam.streaming
    requires forall i :: 0 <= i < |steps| ==> !steps[i].ReleaseStop? && !steps[i].DogStop?
    ensures Final(cfg, s, steps).cam.streaming
    decreases |steps|
  {
    if steps == [] {
    } else {
      StepKeepsInv(cfg, s, steps[0]);
      StepCloses(cfg, s, steps[0]);
      StaysOn(cfg, Apply(cfg, s, steps[0]), steps[1..]);
    }
  }

  lemma {:induction false} LeftOnIsLit(cfg: Config, s: State, steps: seq<Step>)
    requires Inv(cfg, s) && Valid(cfg, s, steps)
    ensures LeftOn(cfg, s, steps) ==> Final(cfg, s, steps).cam.streaming
    decreases |steps|
  {
    if LeftOn(cfg, s, steps) {
      var t := Apply(cfg, s, steps[0]);
      StepKeepsInv(cfg, s, steps[0]);
      if LeftOn(cfg, t, steps[1..]) {
        LeftOnIsLit(cfg, t, steps[1..]);
      } else {
        StaysOn(cfg, t, steps[1..]);
      }
    }
  }

  predicate UnbackedOpener(s: State) {
    || s.opener.ByPrewarm?
    || (s.opener.ByHandler? && s.opener.oh < |s.conns| && s.conns[s.opener.oh].request.FrameReq?)
  }

  lemma LitStep(cfg: Config, s: State, step: Step)
    requires Inv(cfg, s) && Enabled(cfg, s, step)
    requires var t := Apply(cfg, s, step); t.cam.streaming && UnbackedOpener(t)
    ensures !step.ReleaseStop? && !step.DogStop?
    ensures Unbacked(s, step) || (s.cam.streaming && UnbackedOpener(s))
  {
  }

  /** If the stream is on at the end and was last started by a prewarm or an
      enrollment frame, that start is in the run with no close after it, unless
      it was so from the beginning and nothing closed at all. */
  lemma {:induction false} LitTraced(cfg: Config, s: State, steps: seq<Step>)
    requires Inv(cfg, s) && Valid(cfg, s, steps)
    requires var t := Final(cfg, s, steps); t.cam.streaming && UnbackedOpener(t)
    ensures || LeftOn(cfg, s, steps)
            || (s.cam.streaming && UnbackedOpener(s)
                && forall i :: 0 <= i < |steps| ==> !steps[i].ReleaseStop? && !steps[i].DogStop?)
    decreases |steps|
  {
    if steps == [] {
    } else {
      var t := Apply(cfg, s, steps[0]);
      StepKeepsInv(cfg, s, steps[0]);
      LitTraced(cfg, t, steps[1..]);
      if !LeftOn(cfg, t, steps[1..]) {
        LitStep(cfg, s, steps[0]);
        forall i | 1 <= i < |steps| ensures !steps[i].ReleaseStop? && !steps[i].DogStop? {
          assert steps[i] == steps[1..][i - 1];
        }
      }
    }
  }

  /** Exactly when the lamp is lit at rest under the lazy policy, read off the
      run alone. */
  lemma QuiescentLitIff(cfg: Config, start: nat, steps: seq<Step>, s: State)
    requires cfg.policy.Lazy? && Reachable(cfg, start, steps, s) && Quiescent(s)
    ensures s.cam.streaming <==> LeftOn(cfg, Init(cfg, start), steps)
  {
    InitInv(cfg, start);
    if s.cam.streaming {
      QuiescentLitOnlyIf(cfg, start, steps, s);
      LitTraced(cfg, Init(cfg, start), steps);
    }
    if LeftOn(cfg, Init(cfg, start), steps) {
      LeftOnIsLit(cfg, Init(cfg, start), steps);
    }
  }

  // -------------------------------------------------------------- watchdog

  /** Whenever time moves on with the mutex free, a lit stream was used within
      the last window and a half (plus the wakeup slack): an unused stream is
      off by lastUse + 1.5 * window. */
  lemma WatchdogBound(cfg: Config, start: nat, steps: seq<Step>, s: State, d: nat)
    requires cfg.window > 0 && Reachable(cfg, start, steps, s)
    requires Enabled(cfg, s, Tick(d)) && s.owner.Nobody?
    ensures var t := Apply(cfg, s, Tick(d));
            t.cam.streaming ==>
              && t.cam.lastUse != 0
              && t.now <= t.cam.lastUse + cfg.window + Half(cfg) + cfg.slack
              && 2 * (t.now - t.cam.lastUse - cfg.slack) <= 3 * cfg.window
  {
    ReachableInv(cfg, start, steps, s);
    StepKeepsInv(cfg, s, Tick(d));
  }

  /** A capture never runs without a stream, whatever the workers do meanwhile. */
  lemma CaptureHasStream(cfg: Config, start: nat, steps: seq<Step>, s: State, c: nat, shot: Shot)
    requires Reachable(cfg, start, steps, s)
    requires Enabled(cfg, s, HandlerShoot(c, shot)) || Enabled(cfg, s, HandlerStore(c))
    ensures s.cam.isOpen && s.cam.streaming && s.cam.lastUse != 0
  {
    ReachableInv(cfg, start, steps, s);
  }

  // --------------------------------------------------------- the two leaks

  /** A prewarm that runs with nothing else going on. */
  lemma PrewarmRuns(cfg: Config, s: State, c: nat) returns (t: State)
    requires c < |s.conns| && s.owner.Nobody? && s.conns[c].prewarm.Waiting?
    requires s.cam == Dark && s.conns[c].gen0 == 0
    ensures Valid(cfg, s, [PrewarmEnter(c), PrewarmBring(c, CameUp), PrewarmMark(c)])
    ensures t == Final(cfg, s, [PrewarmEnter(c), PrewarmBring(c, CameUp), PrewarmMark(c)])
    ensures t.cam.streaming && t.owner.Nobody? && |t.conns| == |s.conns|
    ensures t.conns[c] == s.conns[c].(prewarm := Finished, late := s.conns[c].release.Finished?)
    ensures forall i :: 0 <= i < |s.conns| && i != c ==> t.conns[i] == s.conns[i]
  {
    var s1 := Apply(cfg, s, PrewarmEnter(c));
    var s2 := Apply(cfg, s1, PrewarmBring(c, CameUp));
    t := Apply(cfg, s2, PrewarmMark(c));
    Cons(cfg, s2, PrewarmMark(c), []);
    Cons(cfg, s1, PrewarmBring(c, CameUp), [PrewarmMark(c)]);
    Cons(cfg, s, PrewarmEnter(c), [PrewarmBring(c, CameUp), PrewarmMark(c)]);
    assert [PrewarmEnter(c)] + [PrewarmBring(c, CameUp), PrewarmMark(c)]
        == [PrewarmEnter(c), PrewarmBring(c, CameUp), PrewarmMark(c)];
  }

  /** A scope that is opened and closed, and its release worker's first step. */
  lemma ScopeRuns(cfg: Config, s: State) returns (run: seq<Step>, t: State)
    requires cfg.policy.Lazy? && s.owner.Nobody? && |s.conns| == 1
    requires s.conns[0].request.AuthReq? && s.conns[0].scope.NotYet? && s.conns[0].release.Absent?
    ensures run == [ScopeOpen(0), ScopeClose(0), ReleaseEnter(0), ReleaseStop(0)]
    ensures Valid(cfg, s, run) && t == Final(cfg, s, run) && |t.conns| == 1
    ensures s.cam.streaming ==> Counting(t.owner)
    ensures !s.cam.streaming ==>
              && t == s.(conns := [s.conns[0].(scope := Over, scoped := true, release := Finished)])
  {
    var s2 := Two(cfg, s, ScopeOpen(0), ScopeClose(0));
    t := Two(cfg, s2, ReleaseEnter(0), ReleaseStop(0));
    run := [ScopeOpen(0), ScopeClose(0)] + [ReleaseEnter(0), ReleaseStop(0)];
    Join(cfg, s, [ScopeOpen(0), ScopeClose(0)], [ReleaseEnter(0), ReleaseStop(0)]);
  }

  /** The refused request up to the point where its release worker is done. */
  lemma RefusedRuns(cfg: Config, start: nat) returns (t: State)
    requires cfg.policy.Lazy?
    ensures var run := [Accept(true, AuthReq), ScopeOpen(0), ScopeClose(0), ReleaseEnter(0), ReleaseStop(0)];
            Valid(cfg, Init(cfg, start), run) && t == Final(cfg, Init(cfg, start), run)
    ensures t.cam == Dark && t.owner.Nobody? && |t.conns| == 1
    ensures t.conns[0] == Conn(AuthReq, 0, Waiting, Over, false, Finished, 0, true, false, false)
  {
    var s0 := Init(cfg, start);
    var s1 := Apply(cfg, s0, Accept(true, AuthReq));
    var run;
    run, t := ScopeRuns(cfg, s1);
    Cons(cfg, s0, Accept(true, AuthReq), run);
    assert [Accept(true, AuthReq)] + run
        == [Accept(true, AuthReq), ScopeOpen(0), ScopeClose(0), ReleaseEnter(0), ReleaseStop(0)];
  }

  /** An auth request that is refused early (wrong peer, not enrolled) creates
      its scope, its release worker finds nothing to stop, and the delayed
      prewarm then opens the stream: lit at rest, scope or no scope. */
  lemma LatePrewarmLeaks(cfg: Config, start: nat) returns (run: seq<Step>, s: State)
    requires cfg.policy.Lazy? && start > 0
    ensures Reachable(cfg, start, run, s) && Quiescent(s) && s.cam.streaming
    ensures |s.conns| == 1 && s.conns[0].scoped && Stranded(s, s.conns[0])
  {
    var t := RefusedRuns(cfg, start);
    s := PrewarmRuns(cfg, t, 0);
    var refused := [Accept(true, AuthReq), ScopeOpen(0), ScopeClose(0), ReleaseEnter(0), ReleaseStop(0)];
    var prewarm := [PrewarmEnter(0), PrewarmBring(0, CameUp), PrewarmMark(0)];
    Join(cfg, Init(cfg, start), refused, prewarm);
    run := refused + prewarm;
  }

  /** A request without a scope (one that cannot be parsed, or a `list`) on the
      auth socket leaves the prewarmed stream on. */
  lemma ScopelessLeaks(cfg: Config, start: nat) returns (run: seq<Step>, s: State)
    requires cfg.policy.Lazy? && start > 0
    ensures Reachable(cfg, start, run, s) && Quiescent(s) && s.cam.streaming
    ensures |s.conns| == 1 && !s.conns[0].scoped
  {
    var s0 := Init(cfg, start);
    var s1 := Apply(cfg, s0, Accept(true, NoCamera));
    var s2 := Apply(cfg, s1, Abandon(0));
    s := PrewarmRuns(cfg, s2, 0);
    run := [PrewarmEnter(0), PrewarmBring(0, CameUp), PrewarmMark(0)];
    Cons(cfg, s1, Abandon(0), run);
    run := [Abandon(0)] + run;
    Cons(cfg, s0, Accept(true, NoCamera), run);
    run := [Accept(true, NoCamera)] + run;
  }

  // ------------------------------------------- a snapshot in a close's gap

  lemma CountsNext(cfg: Config, s: State) returns (count: Step)
    requires Inv(cfg, s) && Counting(s.owner)
    ensures Enabled(cfg, s, count) && (count.ReleaseCount? || count.DogCount?)
    ensures var t := Apply(cfg, s, count);
            t.owner.Nobody? && |t.conns| == |s.conns| && !t.cam.streaming
            && forall c :: 0 <= c < |s.conns| ==> t.conns[c].prewarm == s.conns[c].prewarm
  {
    count := if s.owner.ReleaseIn? then ReleaseCount(s.owner.r) else DogCount;
  }

  /** The exception is real: accepted while a close is pending, a connection's
      prewarm turns back although the stream was not switched off since. */
  lemma SnapshotInGapSkips(cfg: Config, start: nat, before: seq<Step>, s: State, request: Request)
    returns (between: seq<Step>, t: State)
    requires cfg.policy.Lazy? && Reachable(cfg, start, before, s) && Counting(s.owner)
    ensures var accept := Accept(true, request);
            var at := Apply(cfg, s, accept);
            && Valid(cfg, at, between) && t == Final(cfg, at, between) && StreamOffs(cfg, at, between) == 0
            && Enabled(cfg, t, PrewarmSkip(|s.conns|))
  {
    ReachableInv(cfg, start, before, s);
    var accept := Accept(true, request);
    AcceptKeepsInv(cfg, s, accept);
    var c, at := |s.conns|, Apply(cfg, s, accept);
    var count := CountsNext(cfg, at);
    t := Two(cfg, at, count, PrewarmEnter(c));
    between := [count, PrewarmEnter(c)];
    RunCloses(cfg, at, between);
    GuardSince(cfg, at, c, between, CameUp);
  }

  /** And such a state is reached: a prewarmed auth request is refused, and its
      release worker has switched the stream off but not counted it. */
  lemma PendingReached(cfg: Config, start: nat) returns (run: seq<Step>, s: State)
    requires cfg.policy.Lazy? && start > 0
    ensures Reachable(cfg, start, run, s) && Counting(s.owner)
  {
    var s0 := Init(cfg, start);
    var s1 := Apply(cfg, s0, Accept(true, AuthReq));
    var t := PrewarmRuns(cfg, s1, 0);
    var prewarm := [PrewarmEnter(0), PrewarmBring(0, CameUp), PrewarmMark(0)];
    var close;
    close, s := ScopeRuns(cfg, t);
    Join(cfg, s1, prewarm, close);
    Cons(cfg, s0, Accept(true, AuthReq), prewarm + close);
    run := [Accept(true, AuthReq)] + (prewarm + close);
  }

  // ------------------------------------ the steps and the methods they come from

  lemma BringSteps(cfg: Config, s: State, c: nat, b: Bring) returns (t: State)
    requires Enabled(cfg, s, HandlerBring(c, b)) && Up(s.cam, b)
    ensures Valid(cfg, s, [HandlerBring(c, b), HandlerMark(c)]) && t == Final(cfg, s, [HandlerBring(c, b), HandlerMark(c)])
    ensures t.owner == HandlerIn(c, Storing) && c < |t.conns| && t.now == s.now
    ensures t.cam == EnsureOpen(s.cam, b, s.now)
  {
    t := Two(cfg, s, HandlerBring(c, b), HandlerMark(c));
  }

  /** Undisturbed, the steps of one handler frame add up to what
      Pipeline.ProcessOneFrame does to the shared state. */
  lemma FrameSteps(cfg: Config, s: State, c: nat, b: Bring, shot: Shot)
    requires Enabled(cfg, s, HandlerBring(c, b)) && Up(s.cam, b)
    ensures var run := [HandlerBring(c, b), HandlerMark(c), HandlerStore(c), HandlerShoot(c, shot)];
            && Valid(cfg, s, run)
            && Final(cfg, s, run).cam == Captured(Touch(EnsureOpen(s.cam, b, s.now), s.now), TookFrame(shot))
  {
    var first, second := [HandlerBring(c, b), HandlerMark(c)], [HandlerStore(c), HandlerShoot(c, shot)];
    var s2 := BringSteps(cfg, s, c, b);
    var s4 := Two(cfg, s2, HandlerStore(c), HandlerShoot(c, shot));
    Join(cfg, s, first, second);
    assert first + second == [HandlerBring(c, b), HandlerMark(c), HandlerStore(c), HandlerShoot(c, shot)];
  }

  /** Likewise the two ways a prewarm worker's section can go, and
      Pipeline.PrewarmWorker. */
  lemma PrewarmSteps(cfg: Config, s: State, c: nat, b: Bring)
    requires c < |s.conns| && s.owner == PrewarmIn(c, false)
    ensures s.cam.gen != s.conns[c].gen0 ==>
              Enabled(cfg, s, PrewarmSkip(c)) && Apply(cfg, s, PrewarmSkip(c)).cam == s.cam
    ensures s.cam.gen == s.conns[c].gen0 ==>
              var run := if Up(s.cam, b) then [PrewarmBring(c, b), PrewarmMark(c)] else [PrewarmBring(c, b)];
              Valid(cfg, s, run) && Final(cfg, s, run).cam == EnsureOpen(s.cam, b, s.now)
                && Final(cfg, s, run).owner.Nobody?
  {
    if s.cam.gen == s.conns[c].gen0 {
      var s1 := Apply(cfg, s, PrewarmBring(c, b));
      if Up(s.cam, b) {
        Cons(cfg, s1, PrewarmMark(c), []);
        Cons(cfg, s, PrewarmBring(c, b), [PrewarmMark(c)]);
        assert [PrewarmBring(c, b)] + [PrewarmMark(c)] == [PrewarmBring(c, b), PrewarmMark(c)];
      } else {
        Cons(cfg, s, PrewarmBring(c, b), []);
      }
    }
  }

  /** And a release worker's or the watchdog's section, and Pipeline.ReleaseCamera
      and Pipeline.WatchdogClose. */
  lemma CloseSteps(cfg: Config, s: State)
    requires match s.owner
             case ReleaseIn(c, counting) => c < |s.conns| && !counting
             case WatchdogIn(counting) => !counting
             case _ => false
    ensures var stop, count := if s.owner.ReleaseIn? then ReleaseStop(s.owner.r) else DogStop,
                               if s.owner.ReleaseIn? then ReleaseCount(s.owner.r) else DogCount;
            var run := if s.cam.streaming then [stop, count] else [stop];
            && Valid(cfg, s, run) && Final(cfg, s, run).cam == Released(s.cam) && Final(cfg, s, run).owner.Nobody?
  {
    var stop, count := if s.owner.ReleaseIn? then ReleaseStop(s.owner.r) else DogStop,
                       if s.owner.ReleaseIn? then ReleaseCount(s.owner.r) else DogCount;
    var s1 := Apply(cfg, s, stop);
    if s.cam.streaming {
      Cons(cfg, s1, count, []);
      Cons(cfg, s, stop, [count]);
      assert [stop] + [count] == [stop, count];
    } else {
      Cons(cfg, s, stop, []);
    }
  }
}
