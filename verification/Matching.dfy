/** The match loops of the auth and test handlers (daemon/handlers/auth.cpp,
    daemon/handlers/test.cpp). */
module Matching {
  import opened Vectors
  import opened Wrappers

  /** A UserEnrollment, its file's floats as reals. */
  datatype User = User(lbl: string, embedderId: nat, threshold: real, embeddings: seq<Embedding>)

  /** What process_one_frame gave for one turn of the loop. */
  datatype Turn = Threw | Shot(captured: bool, brightness: real, hasFace: bool, embedding: Option<Embedding>)

  datatype Reason =
    | Matched | NoFace | LowConfidence | NotEnrolled | CameraError | Timeout
    | InternalError | PeerDenied | EmbedderMismatch | AllOk

  datatype AuthReply = AuthReply(success: bool, reason: Reason, matchedLabel: string, confidence: real)

  // ------------------------------------------------------------ one frame

  /** The best similarity of e to the first n embeddings of u, from -1 up. */
  function BestUpto(u: User, e: Embedding, n: nat): real
    requires n <= |u.embeddings|
  {
    if n == 0 then -1.0 else MaxReal(BestUpto(u, e, n - 1), Dot(e, u.embeddings[n - 1]))
  }

  /** best_for_label */
  function BestFor(u: User, e: Embedding): real { BestUpto(u, e, |u.embeddings|) }

  predicate Accepts(u: User, e: Embedding) { BestFor(u, e) >= u.threshold }

  lemma {:induction false} BestIs(u: User, e: Embedding, n: nat)
    requires n <= |u.embeddings|
    ensures BestUpto(u, e, n) >= -1.0
    ensures forall i :: 0 <= i < n ==> BestUpto(u, e, n) >= Dot(e, u.embeddings[i])
    ensures BestUpto(u, e, n) == -1.0 || exists i :: 0 <= i < n && BestUpto(u, e, n) == Dot(e, u.embeddings[i])
    decreases n
  {
    if n > 0 {
      BestIs(u, e, n - 1);
    }
  }

  /** An enrollment accepts a face exactly if one of its embeddings is at least as
      similar as its threshold, or the threshold is -1 or less. */
  lemma AcceptsIff(u: User, e: Embedding)
    ensures Accepts(u, e) <==>
            u.threshold <= -1.0 || exists i :: 0 <= i < |u.embeddings| && Dot(e, u.embeddings[i]) >= u.threshold
  {
    BestIs(u, e, |u.embeddings|);
  }

  /** A face that is one of the enrolled embeddings is accepted by its own
      enrollment, if its threshold was picked from them; unless it is the zero
      vector, which only a threshold of 0 or less lets through. */
  lemma EnrolledFaceAccepted(u: User, e: Embedding, floor: real, margin: real)
    requires e in u.embeddings && UnitOrZero(e) && floor <= 1.0 && margin >= 0.0
    requires u.threshold == Threshold(u.embeddings, floor, margin)
    ensures Dot(e, e) == 1.0 ==> Accepts(u, e)
    ensures Dot(e, e) == 0.0 ==> (Accepts(u, e) <==> u.threshold <= 0.0)
  {
    BestIs(u, e, |u.embeddings|);
    ThresholdAtMostOne(u.embeddings, floor, margin);
    var i :| 0 <= i < |u.embeddings| && u.embeddings[i] == e;
    if Dot(e, e) == 0.0 {
      forall j | 0 <= j < |u.embeddings| ensures Dot(e, u.embeddings[j]) == 0.0 {
        ZeroDot(e, u.embeddings[j]);
      }
    }
  }

  /** With the threshold picked from its embeddings, an enrollment accepts a face
      exactly if its best similarity reaches the floor and, from two embeddings on,
      1 or the similarity of some pair of them less the margin. */
  lemma PickedAcceptsIff(u: User, e: Embedding, floor: real, margin: real)
    requires u.threshold == Threshold(u.embeddings, floor, margin)
    ensures Accepts(u, e) <==>
            && BestFor(u, e) >= floor
            && (|u.embeddings| >= 2 ==>
                  || BestFor(u, e) >= 1.0 - margin
                  || exists i, j :: 0 <= i < j < |u.embeddings|
                                    && BestFor(u, e) >= Dot(u.embeddings[i], u.embeddings[j]) - margin)
  {
    MinSimIs(u.embeddings);
  }

  /** faces_seen, captures_seen, best_sim_overall and best_label. */
  datatype Tally = Tally(faces: nat, captures: nat, best: real, lbl: string)

  function Better(t: Tally, u: User, e: Embedding): Tally {
    if BestFor(u, e) > t.best then t.(best := BestFor(u, e), lbl := u.lbl) else t
  }

  /** The tally after users i, i+1, .. have all been tried in vain. */
  function Tried(users: seq<User>, e: Embedding, i: nat, t: Tally): Tally
    requires i <= |users|
    decreases |users| - i
  {
    if i == |users| then t else Tried(users, e, i + 1, Better(t, users[i], e))
  }

  /** The first user, from i on, that accepts e; |users| if none does. */
  function FirstAccepting(users: seq<User>, e: Embedding, i: nat): (k: nat)
    requires i <= |users|
    ensures i <= k <= |users|
    ensures k < |users| ==> Accepts(users[k], e)
    ensures forall j :: i <= j < k ==> !Accepts(users[j], e)
    decreases |users| - i
  {
    if i == |users| || Accepts(users[i], e) then i else FirstAccepting(users, e, i + 1)
  }

  method BestForLabel(u: User, e: Embedding) returns (best: real)
    ensures best == BestFor(u, e)
  {
    best := -1.0;
    var i := 0;
    while i < |u.embeddings|
      invariant 0 <= i <= |u.embeddings| && best == BestUpto(u, e, i)
    {
      var s := CosineSimNormed(e, u.embeddings[i], |e|);
      if s > best {
        best := s;
      }
      i := i + 1;
    }
  }

  // -------------------------------------------------------- the auth loop

  /** A captured frame bright enough and with a face in it. */
  predicate FaceSeen(f: Turn, dark: real) {
    f.Shot? && f.captured && f.brightness >= dark && f.hasFace
  }

  predicate Usable(f: Turn, dark: real) { FaceSeen(f, dark) && f.embedding.Some? }

  /** Frame f ends the loop with a match. */
  predicate Hit(f: Turn, users: seq<User>, dark: real) {
    Usable(f, dark) && exists u :: u in users && Accepts(u, f.embedding.value)
  }

  /** The first frame that ends the loop; |frames| if the deadline does. */
  function FirstStop(frames: seq<Turn>, users: seq<User>, dark: real, k: nat): (i: nat)
    requires k <= |frames|
    ensures k <= i <= |frames|
    ensures i < |frames| ==> frames[i].Threw? || Hit(frames[i], users, dark)
    ensures forall j :: k <= j < i ==> !frames[j].Threw? && !Hit(frames[j], users, dark)
    decreases |frames| - k
  {
    if k == |frames| || frames[k].Threw? || Hit(frames[k], users, dark) then k
    else FirstStop(frames, users, dark, k + 1)
  }

  /** The tally after one frame that does not end the loop. */
  function Count(f: Turn, users: seq<User>, dark: real, t: Tally): Tally {
    if !f.Shot? || !f.captured then t
    else
      var t1 := t.(captures := t.captures + 1);
      if !FaceSeen(f, dark) then t1
      else
        var t2 := t1.(faces := t1.faces + 1);
        if f.embedding.None? then t2 else Tried(users, f.embedding.value, 0, t2)
  }

  function Counts(frames: seq<Turn>, users: seq<User>, dark: real, n: nat): Tally
    requires n <= |frames|
  {
    if n == 0 then Tally(0, 0, -1.0, "")
    else Count(frames[n - 1], users, dark, Counts(frames, users, dark, n - 1))
  }

  function Exhausted(t: Tally): AuthReply {
    AuthReply(false, if t.faces > 0 then LowConfidence else if t.captures > 0 then NoFace else Timeout,
              t.lbl, if t.best > 0.0 then t.best else 0.0)
  }

  function MatchIn(f: Turn, users: seq<User>, dark: real): AuthReply
    requires Hit(f, users, dark)
  {
    var e := f.embedding.value;
    var k := FirstAccepting(users, e, 0);
    AuthReply(true, Matched, users[k].lbl, BestFor(users[k], e))
  }

  /** What the capture loop answers. */
  function Verdict(frames: seq<Turn>, users: seq<User>, dark: real): AuthReply {
    var i := FirstStop(frames, users, dark, 0);
    if i == |frames| then Exhausted(Counts(frames, users, dark, i))
    else if frames[i].Threw? then AuthReply(false, CameraError, "", 0.0)
    else MatchIn(frames[i], users, dark)
  }

  function Loaded(users: seq<User>, id: nat): seq<User> {
    if users == [] then []
    else if users[0].embedderId != id then Loaded(users[1..], id)
    else [users[0]] + Loaded(users[1..], id)
  }

  /** handle_auth, given what the store returns for the requested uid and the
      frames the camera delivers before the deadline. */
  function Answer(backends: bool, peer: nat, uid: nat, stored: seq<User>, id: nat, frames: seq<Turn>, dark: real): AuthReply {
    if !backends then AuthReply(false, InternalError, "", 0.0)
    else if peer != 0 && peer != uid then AuthReply(false, PeerDenied, "", 0.0)
    else if stored == [] then AuthReply(false, NotEnrolled, "", 0.0)
    else if Loaded(stored, id) == [] then AuthReply(false, EmbedderMismatch, "", 0.0)
    else Verdict(frames, Loaded(stored, id), dark)
  }

  method MatchUsers(users: seq<User>, e: Embedding, t: Tally) returns (reply: Option<AuthReply>, t': Tally)
    ensures var k := FirstAccepting(users, e, 0);
            if k < |users| then reply == Some(AuthReply(true, Matched, users[k].lbl, BestFor(users[k], e)))
            else reply == None && t' == Tried(users, e, 0, t)
  {
    t' := t;
    var i := 0;
    while i < |users|
      invariant 0 <= i <= |users|
      invariant FirstAccepting(users, e, 0) == FirstAccepting(users, e, i)
      invariant Tried(users, e, 0, t) == Tried(users, e, i, t')
    {
      var b := BestForLabel(users[i], e);
      if b > t'.best {
        t' := t'.(best := b, lbl := users[i].lbl);
      }
      if b >= users[i].threshold {
        return Some(AuthReply(true, Matched, users[i].lbl, b)), t';
      }
      i := i + 1;
    }
    reply := None;
  }

  /** One turn of the loop, for a frame that process_one_frame returned. */
  method TryFrame(f: Turn, users: seq<User>, dark: real, t: Tally) returns (reply: Option<AuthReply>, t': Tally)
    requires f.Shot?
    ensures if Hit(f, users, dark) then reply == Some(MatchIn(f, users, dark))
            else reply == None && t' == Count(f, users, dark, t)
  {
    reply, t' := None, t;
    if !f.captured {
      return;
    }
    t' := t'.(captures := t'.captures + 1);
    if f.brightness < dark || !f.hasFace {
      return;
    }
    t' := t'.(faces := t'.faces + 1);
    if f.embedding.Some? {
      HitIff(f, users, dark);
      reply, t' := MatchUsers(users, f.embedding.value, t');
    }
  }

  method HandleAuth(backends: bool, peer: nat, uid: nat, stored: seq<User>, id: nat, frames: seq<Turn>, dark: real)
    returns (r: AuthReply)
    ensures r == Answer(backends, peer, uid, stored, id, frames, dark)
  {
    if !backends {
      return AuthReply(false, InternalError, "", 0.0);
    }
    if !(peer == 0 || peer == uid) {
      return AuthReply(false, PeerDenied, "", 0.0);
    }
    if stored == [] {
      return AuthReply(false, NotEnrolled, "", 0.0);
    }
    var users := Loaded(stored, id);
    if users == [] {
      return AuthReply(false, EmbedderMismatch, "", 0.0);
    }
    r := CaptureLoop(frames, users, dark);
  }

  method CaptureLoop(frames: seq<Turn>, users: seq<User>, dark: real) returns (r: AuthReply)
    ensures r == Verdict(frames, users, dark)
  {
    var t := Tally(0, 0, -1.0, "");
    var i := 0;
    while i < |frames|
      invariant 0 <= i <= |frames|
      invariant FirstStop(frames, users, dark, 0) == FirstStop(frames, users, dark, i)
      invariant t == Counts(frames, users, dark, i)
    {
      if frames[i].Threw? {
        return AuthReply(false, CameraError, "", 0.0);
      }
      var reply;
      reply, t := TryFrame(frames[i], users, dark, t);
      if reply.Some? {
        return reply.value;
      }
      i := i + 1;
    }
    return Exhausted(t);
  }

  lemma HitIff(f: Turn, users: seq<User>, dark: real)
    requires Usable(f, dark)
    ensures Hit(f, users, dark) <==> FirstAccepting(users, f.embedding.value, 0) < |users|
  {
    var k := FirstAccepting(users, f.embedding.value, 0);
    if k < |users| {
      assert users[k] in users;
    }
  }

  // ------------------------------------------------ what the answer means

  lemma {:induction false} LoadedIs(users: seq<User>, id: nat)
    ensures forall u :: u in Loaded(users, id) <==> u in users && u.embedderId == id
    decreases |users|
  {
    if users == [] {
    } else {
      LoadedIs(users[1..], id);
      assert users == [users[0]] + users[1..];
    }
  }

  /** Frame i is captured, bright enough, with a face and its embedding, which
      some enrollment made with the loaded embedder accepts, and the camera has
      not failed before. */
  predicate Reaches(stored: seq<User>, id: nat, frames: seq<Turn>, dark: real, i: nat)
    requires i < |frames|
  {
    var f := frames[i];
    && f.Shot? && f.captured && f.brightness >= dark && f.hasFace && f.embedding.Some?
    && (exists u :: u in stored && u.embedderId == id && Accepts(u, f.embedding.value))
    && forall j :: 0 <= j < i ==> !frames[j].Threw?
  }

  /** Enrollment k is the first, of those made with the loaded embedder, to accept e. */
  predicate FirstToAccept(stored: seq<User>, id: nat, e: Embedding, k: nat)
    requires k < |stored|
  {
    && stored[k].embedderId == id && Accepts(stored[k], e)
    && forall j :: 0 <= j < k && stored[j].embedderId == id ==> !Accepts(stored[j], e)
  }

  lemma {:induction false} FirstOfLoaded(stored: seq<User>, id: nat, e: Embedding, f: nat) returns (k: nat)
    requires f < |Loaded(stored, id)| && Accepts(Loaded(stored, id)[f], e)
    requires forall j :: 0 <= j < f ==> !Accepts(Loaded(stored, id)[j], e)
    ensures k < |stored| && stored[k] == Loaded(stored, id)[f] && FirstToAccept(stored, id, e, k)
    decreases |stored|
  {
    if stored[0].embedderId != id {
      k := FirstOfLoaded(stored[1..], id, e, f);
      k := k + 1;
    } else if f == 0 {
      k := 0;
    } else {
      var all, rest := Loaded(stored, id), Loaded(stored[1..], id);
      assert all[0] == stored[0] && forall j :: 0 <= j < |rest| ==> rest[j] == all[j + 1];
      k := FirstOfLoaded(stored[1..], id, e, f - 1);
      k := k + 1;
    }
  }

  /** Some frame reaches. */
  predicate SomeReaches(stored: seq<User>, id: nat, frames: seq<Turn>, dark: real) {
    exists i :: 0 <= i < |frames| && Reaches(stored, id, frames, dark, i)
  }

  /** The capture loop stops at the first frame that reaches or throws. */
  lemma StopIs(stored: seq<User>, id: nat, frames: seq<Turn>, dark: real)
    ensures var stop := FirstStop(frames, Loaded(stored, id), dark, 0);
            && (SomeReaches(stored, id, frames, dark) <==> stop < |frames| && !frames[stop].Threw?)
            && (stop < |frames| && !frames[stop].Threw? ==> Reaches(stored, id, frames, dark, stop))
            && (forall i :: 0 <= i < stop ==> !frames[i].Threw? && !Reaches(stored, id, frames, dark, i))
  {
    var users := Loaded(stored, id);
    LoadedIs(stored, id);
    var stop := FirstStop(frames, users, dark, 0);
    forall i | 0 <= i < |frames| && Reaches(stored, id, frames, dark, i)
      ensures stop <= i && !frames[stop].Threw?
    {
      var u :| u in stored && u.embedderId == id && Accepts(u, frames[i].embedding.value);
      assert u in users;
      assert Hit(frames[i], users, dark);
    }
    if stop < |frames| && !frames[stop].Threw? {
      var u :| u in users && Accepts(u, frames[stop].embedding.value);
      assert u in stored && u.embedderId == id;
      assert Reaches(stored, id, frames, dark, stop);
    }
  }

  /** Success, exactly: an authorised peer, and a frame that reaches. The label
      is that of the first enrollment to accept the first such frame, the
      confidence its best similarity. */
  lemma SuccessIff(backends: bool, peer: nat, uid: nat, stored: seq<User>, id: nat, frames: seq<Turn>, dark: real)
    ensures var r := Answer(backends, peer, uid, stored, id, frames, dark);
            && (r.success <==> backends && (peer == 0 || peer == uid) && SomeReaches(stored, id, frames, dark))
            && (r.success <==> r.reason == Matched)
            && (r.success ==> exists i, k ::
                  && 0 <= i < |frames| && 0 <= k < |stored| && Reaches(stored, id, frames, dark, i)
                  && (forall j :: 0 <= j < i ==> !Reaches(stored, id, frames, dark, j))
                  && FirstToAccept(stored, id, frames[i].embedding.value, k)
                  && r.matchedLabel == stored[k].lbl && r.confidence == BestFor(stored[k], frames[i].embedding.value))
  {
    var users := Loaded(stored, id);
    LoadedIs(stored, id);
    StopIs(stored, id, frames, dark);
    if backends && (peer == 0 || peer == uid) {
      var stop := FirstStop(frames, users, dark, 0);
      if stop < |frames| && !frames[stop].Threw? {
        var e := frames[stop].embedding.value;
        HitIff(frames[stop], users, dark);
        var k := FirstOfLoaded(stored, id, e, FirstAccepting(users, e, 0));
        assert stored[k] in stored && users != [];
      }
    }
  }

  /** The best similarity of e to the enrollment is below 1, and below the similarity
      of every two of its embeddings, by more than the margin. */
  predicate Stranger(u: User, e: Embedding, margin: real) {
    && BestFor(u, e) < 1.0 - margin
    && forall i, j :: 0 <= i < j < |u.embeddings| ==> BestFor(u, e) < Dot(u.embeddings[i], u.embeddings[j]) - margin
  }

  /** Where thresholds were picked from two or more embeddings, strangers to all of
      them are refused, however many frames they show. */
  lemma StrangersRefused(backends: bool, peer: nat, uid: nat, stored: seq<User>, id: nat, frames: seq<Turn>, dark: real,
                         floor: real, margin: real)
    requires forall u :: u in stored && u.embedderId == id ==>
               |u.embeddings| >= 2 && u.threshold == Threshold(u.embeddings, floor, margin)
    requires forall i, u ::
               0 <= i < |frames| && frames[i].Shot? && frames[i].embedding.Some? && u in stored && u.embedderId == id ==>
               Stranger(u, frames[i].embedding.value, margin)
    ensures !Answer(backends, peer, uid, stored, id, frames, dark).success
  {
    SuccessIff(backends, peer, uid, stored, id, frames, dark);
    if i :| 0 <= i < |frames| && Reaches(stored, id, frames, dark, i) {
      var e := frames[i].embedding.value;
      var u :| u in stored && u.embedderId == id && Accepts(u, e);
      PickedAcceptsIff(u, e, floor, margin);
    }
  }

  lemma {:induction false} FacesPositive(frames: seq<Turn>, dark: real, n: nat)
    requires n <= |frames|
    ensures Faces(frames, dark, n) > 0 <==> exists i :: 0 <= i < n && FaceSeen(frames[i], dark)
    decreases n
  {
    if n > 0 {
      FacesPositive(frames, dark, n - 1);
    }
  }

  lemma {:induction false} CapturesPositive(frames: seq<Turn>, n: nat)
    requires n <= |frames|
    ensures Captures(frames, n) > 0 <==> exists i :: 0 <= i < n && frames[i].Shot? && frames[i].captured
    decreases n
  {
    if n > 0 {
      CapturesPositive(frames, n - 1);
    }
  }

  /** Why a request is refused before the camera is used. */
  lemma RefusedIff(backends: bool, peer: nat, uid: nat, stored: seq<User>, id: nat, frames: seq<Turn>, dark: real)
    ensures var reason := Answer(backends, peer, uid, stored, id, frames, dark).reason;
            var allowed := backends && (peer == 0 || peer == uid);
            && (reason == InternalError <==> !backends)
            && (reason == PeerDenied <==> backends && peer != 0 && peer != uid)
            && (reason == NotEnrolled <==> allowed && stored == [])
            && (reason == EmbedderMismatch <==> allowed && stored != [] && forall u :: u in stored ==> u.embedderId != id)
  {
    LoadedIs(stored, id);
    if stored != [] && Loaded(stored, id) == [] {
      forall u | u in stored ensures u.embedderId != id {
        assert u !in Loaded(stored, id);
      }
    }
    if Loaded(stored, id) != [] {
      assert Loaded(stored, id)[0] in stored && Loaded(stored, id)[0].embedderId == id;
    }
  }

  /** And why after. */
  lemma FailedIff(peer: nat, uid: nat, stored: seq<User>, id: nat, frames: seq<Turn>, dark: real)
    requires (peer == 0 || peer == uid) && exists u :: u in stored && u.embedderId == id
    ensures var reason := Answer(true, peer, uid, stored, id, frames, dark).reason;
            var reached := SomeReaches(stored, id, frames, dark);
            var threw := exists i :: 0 <= i < |frames| && frames[i].Threw?;
            var face := exists i :: 0 <= i < |frames| && FaceSeen(frames[i], dark);
            var shot := exists i :: 0 <= i < |frames| && frames[i].Shot? && frames[i].captured;
            && (reason == Matched <==> reached)
            && (reason == CameraError <==> !reached && threw)
            && (reason == LowConfidence <==> !reached && !threw && face)
            && (reason == NoFace <==> !reached && !threw && !face && shot)
            && (reason == Timeout <==> !reached && !threw && !shot)
  {
    var users := Loaded(stored, id);
    LoadedIs(stored, id);
    var u :| u in stored && u.embedderId == id;
    assert u in users;
    StopIs(stored, id, frames, dark);
    var stop := FirstStop(frames, users, dark, 0);
    if stop == |frames| {
      CountsIs(frames, users, dark, stop);
      FacesPositive(frames, dark, stop);
      CapturesPositive(frames, stop);
    }
  }

  /** best is the greatest similarity (from -1 up) any usable frame among the
      first n has to any of the users, and lbl names the first that has it. */
  predicate IsBest(frames: seq<Turn>, users: seq<User>, dark: real, n: nat, t: Tally)
    requires n <= |frames|
  {
    && t.best >= -1.0
    && (forall i, k :: 0 <= i < n && Usable(frames[i], dark) && 0 <= k < |users| ==>
          BestFor(users[k], frames[i].embedding.value) <= t.best)
    && (t.best == -1.0 ==> t.lbl == "")
    && (t.best > -1.0 ==> exists i, k ::
          && 0 <= i < n && Usable(frames[i], dark) && 0 <= k < |users|
          && BestFor(users[k], frames[i].embedding.value) == t.best && users[k].lbl == t.lbl
          && FirstBest(frames, users, dark, i, k, t.best))
  }

  /** No usable frame before frame i, and no user before user k on frame i, is as
      similar. */
  predicate FirstBest(frames: seq<Turn>, users: seq<User>, dark: real, i: nat, k: nat, best: real)
    requires i < |frames| && k < |users| && Usable(frames[i], dark)
  {
    && (forall j, m :: 0 <= j < i && Usable(frames[j], dark) && 0 <= m < |users| ==>
          BestFor(users[m], frames[j].embedding.value) < best)
    && (forall m :: 0 <= m < k ==> BestFor(users[m], frames[i].embedding.value) < best)
  }

  lemma {:induction false} TriedIs(users: seq<User>, e: Embedding, i: nat, t: Tally)
    requires i <= |users|
    ensures var r := Tried(users, e, i, t);
            && r.faces == t.faces && r.captures == t.captures && r.best >= t.best
            && (forall k :: i <= k < |users| ==> BestFor(users[k], e) <= r.best)
            && (r == t || (r.best > t.best && exists k ::
                  && i <= k < |users| && BestFor(users[k], e) == r.best && users[k].lbl == r.lbl
                  && forall m :: i <= m < k ==> BestFor(users[m], e) < r.best))
    decreases |users| - i
  {
    if i < |users| {
      TriedIs(users, e, i + 1, Better(t, users[i], e));
    }
  }

  function Faces(frames: seq<Turn>, dark: real, n: nat): nat
    requires n <= |frames|
  {
    if n == 0 then 0 else Faces(frames, dark, n - 1) + if FaceSeen(frames[n - 1], dark) then 1 else 0
  }

  function Captures(frames: seq<Turn>, n: nat): nat
    requires n <= |frames|
  {
    if n == 0 then 0 else Captures(frames, n - 1) + if frames[n - 1].Shot? && frames[n - 1].captured then 1 else 0
  }

  lemma BestKept(frames: seq<Turn>, users: seq<User>, dark: real, n: nat, t: Tally, r: Tally)
    requires n < |frames| && IsBest(frames, users, dark, n, t) && r.best == t.best && r.lbl == t.lbl
    requires Usable(frames[n], dark) ==> forall k :: 0 <= k < |users| ==> BestFor(users[k], frames[n].embedding.value) <= r.best
    ensures IsBest(frames, users, dark, n + 1, r)
  {
  }

  lemma BestRaised(frames: seq<Turn>, users: seq<User>, dark: real, n: nat, t: Tally, r: Tally, k: nat)
    requires n < |frames| && IsBest(frames, users, dark, n, t) && r.best > t.best && Usable(frames[n], dark)
    requires k < |users| && BestFor(users[k], frames[n].embedding.value) == r.best && users[k].lbl == r.lbl
    requires forall m :: 0 <= m < |users| ==> BestFor(users[m], frames[n].embedding.value) <= r.best
    requires forall m :: 0 <= m < k ==> BestFor(users[m], frames[n].embedding.value) < r.best
    ensures IsBest(frames, users, dark, n + 1, r)
  {
    assert FirstBest(frames, users, dark, n, k, r.best);
  }

  lemma BestStep(frames: seq<Turn>, users: seq<User>, dark: real, n: nat, t: Tally)
    requires n < |frames| && IsBest(frames, users, dark, n, t)
    ensures IsBest(frames, users, dark, n + 1, Count(frames[n], users, dark, t))
  {
    var f := frames[n];
    var r := Count(f, users, dark, t);
    if Usable(f, dark) {
      var e := f.embedding.value;
      TriedIs(users, e, 0, t.(captures := t.captures + 1, faces := t.faces + 1));
      if r.best > t.best {
        var k :| 0 <= k < |users| && BestFor(users[k], e) == r.best && users[k].lbl == r.lbl
                 && forall m :: 0 <= m < k ==> BestFor(users[m], e) < r.best;
        BestRaised(frames, users, dark, n, t, r, k);
      } else {
        BestKept(frames, users, dark, n, t, r);
      }
    } else {
      BestKept(frames, users, dark, n, t, r);
    }
  }

  lemma {:induction false} BestSeen(frames: seq<Turn>, users: seq<User>, dark: real, n: nat)
    requires n <= |frames|
    ensures IsBest(frames, users, dark, n, Counts(frames, users, dark, n))
    decreases n
  {
    if n > 0 {
      BestSeen(frames, users, dark, n - 1);
      BestStep(frames, users, dark, n - 1, Counts(frames, users, dark, n - 1));
    }
  }

  lemma {:induction false} CountsIs(frames: seq<Turn>, users: seq<User>, dark: real, n: nat)
    requires n <= |frames|
    ensures Counts(frames, users, dark, n).faces == Faces(frames, dark, n)
    ensures Counts(frames, users, dark, n).captures == Captures(frames, n)
    decreases n
  {
    if n > 0 {
      CountsIs(frames, users, dark, n - 1);
      var t, f := Counts(frames, users, dark, n - 1), frames[n - 1];
      if Usable(f, dark) {
        TriedIs(users, f.embedding.value, 0, t.(captures := t.captures + 1, faces := t.faces + 1));
      }
    }
  }

  /** When no frame reaches and the camera does not fail, the confidence is the
      larger of 0 and the best similarity seen, the label that of the first
      enrollment to have it. */
  lemma FailureMeans(peer: nat, uid: nat, stored: seq<User>, id: nat, frames: seq<Turn>, dark: real)
    requires (peer == 0 || peer == uid) && Loaded(stored, id) != []
    requires forall i :: 0 <= i < |frames| ==> !frames[i].Threw?
    ensures var r := Answer(true, peer, uid, stored, id, frames, dark);
            !r.success ==>
              exists t :: IsBest(frames, Loaded(stored, id), dark, |frames|, t) && r.matchedLabel == t.lbl
                          && r.confidence == MaxReal(0.0, t.best)
  {
    var users := Loaded(stored, id);
    if FirstStop(frames, users, dark, 0) == |frames| {
      BestSeen(frames, users, dark, |frames|);
      assert IsBest(frames, users, dark, |frames|, Counts(frames, users, dark, |frames|));
    }
  }

  // --------------------------------------------------------- handle_test

  datatype Best = Best(sim: real, lbl: string)

  function BestOfUser(u: User, e: Embedding, n: nat, b: Best): Best
    requires n <= |u.embeddings|
  {
    if n == 0 then b
    else
      var p := BestOfUser(u, e, n - 1, b);
      var s := Dot(e, u.embeddings[n - 1]);
      if s > p.sim then Best(s, u.lbl) else p
  }

  function BestOf(users: seq<User>, id: nat, e: Embedding, n: nat): Best
    requires n <= |users|
  {
    if n == 0 then Best(-1.0, "")
    else
      var p := BestOf(users, id, e, n - 1);
      if users[n - 1].embedderId != id then p else BestOfUser(users[n - 1], e, |users[n - 1].embeddings|, p)
  }

  /** best_match, confidence and would_auth for a face with an embedding. */
  datatype TestReply = TestReply(bestMatch: string, confidence: real, wouldAuth: bool)

  function TestAnswer(users: seq<User>, id: nat, e: Embedding, score: real): TestReply {
    var b := BestOf(users, id, e, |users|);
    if b.sim > 0.0 then
      TestReply(b.lbl, b.sim, exists u :: u in users && u.lbl == b.lbl && b.sim >= u.threshold)
    else TestReply("", score, false)
  }

  method HandleTest(users: seq<User>, id: nat, e: Embedding, score: real) returns (r: TestReply)
    ensures r == TestAnswer(users, id, e, score)
  {
    r := TestReply("", score, false);
    var best, bestLabel := -1.0, "";
    var i := 0;
    while i < |users|
      invariant 0 <= i <= |users| && Best(best, bestLabel) == BestOf(users, id, e, i)
    {
      if users[i].embedderId != id {
        i := i + 1;
        continue;
      }
      ghost var b := Best(best, bestLabel);
      var j := 0;
      while j < |users[i].embeddings|
        invariant 0 <= j <= |users[i].embeddings| && Best(best, bestLabel) == BestOfUser(users[i], e, j, b)
      {
        var s := CosineSimNormed(e, users[i].embeddings[j], |e|);
        if s > best {
          best, bestLabel := s, users[i].lbl;
        }
        j := j + 1;
      }
      i := i + 1;
    }
    if best > 0.0 {
      r := r.(bestMatch := bestLabel, confidence := best);
      i := 0;
      while i < |users|
        invariant 0 <= i <= |users|
        invariant forall k :: 0 <= k < i ==> !(users[k].lbl == bestLabel && best >= users[k].threshold)
        invariant r == TestReply(bestLabel, best, false)
      {
        if users[i].lbl == bestLabel && best >= users[i].threshold {
          assert users[i] in users;
          return r.(wouldAuth := true);
        }
        i := i + 1;
      }
    }
  }

  /** Labels of one directory are file names: no two enrollments share one. */
  predicate UniqueLabels(users: seq<User>) {
    forall i, j :: 0 <= i < j < |users| ==> users[i].lbl != users[j].lbl
  }

  lemma {:induction false} BestOfUserIs(u: User, e: Embedding, n: nat, b: Best)
    requires n <= |u.embeddings| && b.sim >= -1.0
    ensures var r := BestOfUser(u, e, n, b);
            && r.sim == MaxReal(b.sim, BestUpto(u, e, n))
            && (if BestUpto(u, e, n) > b.sim then r.lbl == u.lbl else r == b)
    decreases n
  {
    if n > 0 {
      BestOfUserIs(u, e, n - 1, b);
    }
  }

  /** The test handler's best is the best of the enrollments made with the loaded
      embedder, and above -1 it carries the label of one that attains it. */
  lemma {:induction false} BestOfIs(users: seq<User>, id: nat, e: Embedding, n: nat)
    requires n <= |users|
    ensures var b := BestOf(users, id, e, n);
            && b.sim >= -1.0
            && (forall k :: 0 <= k < n && users[k].embedderId == id ==> BestFor(users[k], e) <= b.sim)
            && (b.sim == -1.0 || exists k ::
                  0 <= k < n && users[k].embedderId == id && BestFor(users[k], e) == b.sim && users[k].lbl == b.lbl)
    decreases n
  {
    if n > 0 {
      BestOfIs(users, id, e, n - 1);
      var p := BestOf(users, id, e, n - 1);
      if users[n - 1].embedderId == id {
        BestOfUserIs(users[n - 1], e, |users[n - 1].embeddings|, p);
      }
    }
  }

  /** would_auth, exactly: the best-matching enrollment of the loaded embedder
      has a positive similarity that reaches its own threshold. */
  lemma WouldAuthIff(users: seq<User>, id: nat, e: Embedding, score: real)
    requires UniqueLabels(users)
    ensures TestAnswer(users, id, e, score).wouldAuth <==>
            exists k :: 0 <= k < |users| && users[k].embedderId == id && users[k].lbl == BestOf(users, id, e, |users|).lbl
              && BestFor(users[k], e) > 0.0 && Accepts(users[k], e)
              && forall j :: 0 <= j < |users| && users[j].embedderId == id ==> BestFor(users[j], e) <= BestFor(users[k], e)
  {
    BestOfIs(users, id, e, |users|);
    var b := BestOf(users, id, e, |users|);
    if b.sim > 0.0 {
      var k :| 0 <= k < |users| && users[k].embedderId == id && BestFor(users[k], e) == b.sim && users[k].lbl == b.lbl;
      forall u | u in users && u.lbl == b.lbl ensures u == users[k] {
        var m :| 0 <= m < |users| && users[m] == u;
      }
      assert users[k] in users;
    }
  }

  /** Some enrollment of the loaded embedder accepts the face: what the auth loop
      asks of a frame. */
  predicate AuthAccepts(users: seq<User>, id: nat, e: Embedding) {
    exists u :: u in Loaded(users, id) && Accepts(u, e)
  }

  /** What `test` calls acceptable, `auth` accepts on the same frame. */
  lemma TestImpliesAuth(users: seq<User>, id: nat, e: Embedding, score: real)
    requires UniqueLabels(users) && TestAnswer(users, id, e, score).wouldAuth
    ensures AuthAccepts(users, id, e)
  {
    WouldAuthIff(users, id, e, score);
    LoadedIs(users, id);
    var k :| 0 <= k < |users| && users[k].embedderId == id && Accepts(users[k], e);
    assert users[k] in Loaded(users, id);
  }

  /** The enrollment the test handler's search ends on: of those made with the loaded
      embedder, the first with the greatest similarity; -1 if there is none. */
  function Winner(users: seq<User>, id: nat, e: Embedding, n: nat): (w: int)
    requires n <= |users|
    ensures -1 <= w < n
  {
    if n == 0 then -1
    else
      var w := Winner(users, id, e, n - 1);
      if users[n - 1].embedderId != id then w
      else if w == -1 || BestFor(users[n - 1], e) > BestFor(users[w], e) then n - 1
      else w
  }

  lemma {:induction false} WinnerIs(users: seq<User>, id: nat, e: Embedding, n: nat)
    requires n <= |users|
    ensures var w, b := Winner(users, id, e, n), BestOf(users, id, e, n);
            && (w == -1 ==> b == Best(-1.0, "") && forall k :: 0 <= k < n ==> users[k].embedderId != id)
            && (w != -1 ==>
                  && users[w].embedderId == id && b.sim == BestFor(users[w], e) >= -1.0
                  && (b.sim > -1.0 ==> b.lbl == users[w].lbl)
                  && (forall k :: 0 <= k < n && users[k].embedderId == id ==> BestFor(users[k], e) <= b.sim)
                  && (forall k :: 0 <= k < w && users[k].embedderId == id ==> BestFor(users[k], e) < b.sim))
    decreases n
  {
    if n > 0 {
      WinnerIs(users, id, e, n - 1);
      var u := users[n - 1];
      BestIs(u, e, |u.embeddings|);
      if u.embedderId == id {
        BestOfUserIs(u, e, |u.embeddings|, BestOf(users, id, e, n - 1));
      }
    }
  }

  /** would_auth, exactly: there is a winner, with positive similarity that reaches
      its own threshold. */
  lemma WinnerDecides(users: seq<User>, id: nat, e: Embedding, score: real)
    requires UniqueLabels(users)
    ensures var w := Winner(users, id, e, |users|);
            TestAnswer(users, id, e, score).wouldAuth <==> w != -1 && BestFor(users[w], e) > 0.0 && Accepts(users[w], e)
  {
    WinnerIs(users, id, e, |users|);
    var w, b := Winner(users, id, e, |users|), BestOf(users, id, e, |users|);
    if b.sim > 0.0 {
      forall u | u in users && u.lbl == b.lbl ensures u == users[w] {
        var m :| 0 <= m < |users| && users[m] == u;
      }
      assert users[w] in users;
    }
  }

  /** What test reports: the label and similarity of the first enrollment of the
      loaded embedder that is the most similar, if that is positive; else no label
      and the detection's score. */
  lemma TestReports(users: seq<User>, id: nat, e: Embedding, score: real)
    ensures var r := TestAnswer(users, id, e, score);
            if exists k :: 0 <= k < |users| && users[k].embedderId == id && BestFor(users[k], e) > 0.0 then
              exists w ::
                && 0 <= w < |users| && users[w].embedderId == id
                && r.bestMatch == users[w].lbl && r.confidence == BestFor(users[w], e)
                && (forall k :: 0 <= k < |users| && users[k].embedderId == id ==> BestFor(users[k], e) <= BestFor(users[w], e))
                && (forall k :: 0 <= k < w && users[k].embedderId == id ==> BestFor(users[k], e) < BestFor(users[w], e))
            else r == TestReply("", score, false)
  {
    WinnerIs(users, id, e, |users|);
  }

  /** Given that auth accepts the face, test says so too exactly if the winner has
      positive similarity at or above its own threshold. */
  lemma TestAgreesIff(users: seq<User>, id: nat, e: Embedding, score: real)
    requires UniqueLabels(users) && AuthAccepts(users, id, e)
    ensures var w := Winner(users, id, e, |users|);
            && w != -1 && users[w] in Loaded(users, id)
            && (TestAnswer(users, id, e, score).wouldAuth <==>
                  BestFor(users[w], e) > 0.0 && BestFor(users[w], e) >= users[w].threshold)
  {
    LoadedIs(users, id);
    WinnerIs(users, id, e, |users|);
    WinnerDecides(users, id, e, score);
    var u :| u in Loaded(users, id) && Accepts(u, e);
    var k :| 0 <= k < |users| && users[k] == u;
    assert users[k].embedderId == id;
    assert Winner(users, id, e, |users|) != -1;
    assert users[Winner(users, id, e, |users|)] in users;
  }

  /** In particular whenever all enrollments of the loaded embedder share one
      positive threshold, however many they are. */
  lemma SharedThreshold(users: seq<User>, id: nat, e: Embedding, score: real, threshold: real)
    requires UniqueLabels(users) && threshold > 0.0
    requires forall u :: u in Loaded(users, id) ==> u.threshold == threshold
    ensures TestAnswer(users, id, e, score).wouldAuth <==> AuthAccepts(users, id, e)
  {
    if AuthAccepts(users, id, e) {
      LoadedIs(users, id);
      WinnerIs(users, id, e, |users|);
      TestAgreesIff(users, id, e, score);
      var u :| u in Loaded(users, id) && Accepts(u, e);
      var k :| 0 <= k < |users| && users[k] == u;
      assert BestFor(users[k], e) <= BestFor(users[Winner(users, id, e, |users|)], e);
    }
    if TestAnswer(users, id, e, score).wouldAuth {
      TestImpliesAuth(users, id, e, score);
    }
  }

  /** With different thresholds it can fail: the more similar enrollment may have
      the higher one. */
  lemma AuthWithoutTest(a: User, b: User, e: Embedding, score: real)
    requires a.lbl != b.lbl && a.embedderId == b.embedderId
    requires BestFor(a, e) > BestFor(b, e) > 0.0 && !Accepts(a, e) && Accepts(b, e)
    ensures AuthAccepts([a, b], a.embedderId, e)
    ensures !TestAnswer([a, b], a.embedderId, e, score).wouldAuth
  {
    var users := [a, b];
    LoadedIs(users, a.embedderId);
    WouldAuthIff(users, a.embedderId, e, score);
    assert users[0] == a && users[1] == b && b in users;
    assert b in Loaded(users, a.embedderId);
  }
}
