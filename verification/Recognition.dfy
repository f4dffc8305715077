/** From an enrollment session through the store to an authentication: the parts of
    the daemon put together. */
module Recognition {
  import opened Vectors
  import opened Wrappers
  import Enroll = EnrollSessions
  import Auth = Matching
  import Store = StoreProtocol
  import StoreState
  import Fa01

  /** What a finish saved, as the match loops see it. */
  function Enrolled(r: Enroll.Record): Auth.User { Auth.User(r.lbl, r.embedderId, r.threshold, r.embeddings) }

  function FaceOf(e: Embedding, brightness: real): Auth.Turn { Auth.Shot(true, brightness, true, Some(e)) }

  /** A face accepted in a finished session is recognised among any enrollments that
      include what was saved. */
  lemma RecordAuthenticates(c: Enroll.Config, run: seq<Enroll.Event>, k: nat, e: Embedding,
                            stored: seq<Auth.User>, frames: seq<Auth.Turn>, i: nat, brightness: real)
    requires c.reaps && k < |run| < Enroll.COUNTER_RANGE && Enroll.Out(c, run, k).reply.Done?
    requires e in Enroll.Accepted(c, run, run[k].session, k) && Dot(e, e) == 1.0
    requires Enroll.Out(c, run, k).saved.Some? && Enrolled(Enroll.Out(c, run, k).saved.value) in stored
    requires i < |frames| && frames[i] == FaceOf(e, brightness) && brightness >= c.dark
    requires forall j :: 0 <= j < i ==> !frames[j].Threw?
    ensures forall peer, uid :: peer == 0 || peer == uid ==>
              Auth.Answer(true, peer, uid, stored, c.embedderId, frames, c.dark).success
  {
    var start := Enroll.FinishSavesAccepted(c, run, k);
    var u := Enrolled(Enroll.Out(c, run, k).saved.value);
    Auth.EnrolledFaceAccepted(u, e, Enroll.DEFAULT_FLOOR, Enroll.DEFAULT_MARGIN);
    assert Auth.Reaches(stored, c.embedderId, frames, c.dark, i);
    forall peer, uid | peer == 0 || peer == uid
      ensures Auth.Answer(true, peer, uid, stored, c.embedderId, frames, c.dark).success
    {
      Auth.SuccessIff(true, peer, uid, stored, c.embedderId, frames, c.dark);
    }
  }

  // -------------------------------------------------------- through the file

  /** The reals that bit patterns stand for. */
  predicate Reads(v: seq<real>, bits: seq<Fa01.u32>, val: Fa01.u32 -> real) {
    |v| == |bits| && forall k :: 0 <= k < |v| ==> v[k] == val(bits[k])
  }

  predicate AllRead(vs: seq<Embedding>, file: seq<seq<Fa01.u32>>, val: Fa01.u32 -> real) {
    |vs| == |file| && forall j :: 0 <= j < |vs| ==> Reads(vs[j], file[j], val)
  }

  /** u is the enrollment in file f, its floats as reals. */
  predicate UserOf(u: Auth.User, f: Fa01.Enrollment, val: Fa01.u32 -> real) {
    u.embedderId == f.embedderId && u.threshold == val(f.threshold) && AllRead(u.embeddings, f.embeddings, val)
  }

  predicate UsersOf(us: seq<Auth.User>, items: seq<StoreState.Item>, val: Fa01.u32 -> real) {
    |us| == |items| && forall i :: 0 <= i < |us| ==> us[i].lbl == items[i].lbl && UserOf(us[i], items[i].file, val)
  }

  lemma ReadsAlike(v: seq<Embedding>, w: seq<Embedding>, file: seq<seq<Fa01.u32>>, val: Fa01.u32 -> real)
    requires AllRead(v, file, val) && AllRead(w, file, val)
    ensures v == w
  {
    forall j | 0 <= j < |v| ensures v[j] == w[j] {
      assert Reads(v[j], file[j], val) && Reads(w[j], file[j], val);
    }
  }

  lemma ItemIsUser(users: seq<Auth.User>, items: seq<StoreState.Item>, r: Enroll.Record, f: Fa01.Enrollment, created: Fa01.u64,
                   val: Fa01.u32 -> real)
    requires UsersOf(users, items, val) && UserOf(Enrolled(r), f, val)
    requires StoreState.Item(r.lbl, f.(created := created)) in items
    ensures Enrolled(r) in users
  {
    var i :| 0 <= i < |items| && items[i] == StoreState.Item(r.lbl, f.(created := created));
    ReadsAlike(users[i].embeddings, r.embeddings, f.embeddings, val);
    assert users[i] == Enrolled(r);
  }

  /** A save of record r, as file f, is about to rename its temporary file in state
      s of the store; it returns, and stored is what a for_uid that ends later gives,
      with nobody having touched the file. */
  ghost predicate SavedAndRead(r: Enroll.Record, f: Fa01.Enrollment, clock: Fa01.u64, val: Fa01.u32 -> real,
                               s: Store.State, t: nat, mid: seq<Store.Step>, after: seq<Store.Step>, read: Store.Step,
                               stored: seq<Auth.User>)
  {
    && UserOf(Enrolled(r), f, val)
    && Store.SectionOk(s) && Store.Enabled(s, Store.Rename(t))
    && s.threads[t].uid == r.uid && s.threads[t].op == Store.Save(r.lbl) && r.lbl != ""
    && Store.DirOf(s, r.uid)[StoreState.TmpNameOf(r.lbl)].bytes == Fa01.Encode(f, clock)
    && var s1 := Store.Apply(s, Store.Rename(t));
    && Store.SavedThenRead(s1, t, r.uid, r.lbl, mid, after, read)
    && UsersOf(stored, Store.Answer(Store.Final(s1, mid + [Store.Erase(t)] + after), read, r.uid), val)
  }

  lemma SavedIsStored(r: Enroll.Record, f: Fa01.Enrollment, clock: Fa01.u64, val: Fa01.u32 -> real,
                      s: Store.State, t: nat, mid: seq<Store.Step>, after: seq<Store.Step>, read: Store.Step,
                      stored: seq<Auth.User>)
    requires SavedAndRead(r, f, clock, val, s, t, mid, after, read, stored)
    requires 1 <= |r.embeddings| <= Fa01.MAX_EMBEDDINGS
    ensures Enrolled(r) in stored
  {
    forall j | 0 <= j < |f.embeddings| ensures |f.embeddings[j]| == Fa01.EMB_DIM {
      assert Reads(r.embeddings[j], f.embeddings[j], val);
    }
    Store.ReadAfterSave(s, t, mid, after, read, f, clock);
    var z := Store.Final(Store.Apply(s, Store.Rename(t)), mid + [Store.Erase(t)] + after);
    ItemIsUser(stored, Store.Answer(z, read, r.uid), r, f, Fa01.Created(f, clock), val);
  }

  /** Enroll, save, load, authenticate. A session's finish answered Done, and a save
      of its record (file f, whose floats are exactly the record's numbers) went
      through the store's protocol among whatever other readers and mutators. Then
      any face accepted in that session, seen again bright enough before the camera
      fails, authenticates the user on what any for_uid ending after the save
      returned gives, until somebody touches the file: whatever else is enrolled and
      seen, as long as the same embedder is loaded. The face's embedding must have
      norm 1, as every non-zero normalised one has, and no more than 1000 of them
      may have been saved, or the file does not load. */
  lemma AcceptedFaceAuthenticates(c: Enroll.Config, run: seq<Enroll.Event>, k: nat, e: Embedding,
                                  stored: seq<Auth.User>, frames: seq<Auth.Turn>, i: nat, brightness: real)
    requires c.reaps && k < |run| < Enroll.COUNTER_RANGE && Enroll.Out(c, run, k).reply.Done?
    requires e in Enroll.Accepted(c, run, run[k].session, k) && Dot(e, e) == 1.0
    requires i < |frames| && frames[i] == FaceOf(e, brightness) && brightness >= c.dark
    requires forall j :: 0 <= j < i ==> !frames[j].Threw?
    ensures Enroll.Out(c, run, k).saved.Some?
    ensures var r := Enroll.Out(c, run, k).saved.value;
            forall f, clock, val, s, t, mid, after, read, peer, uid ::
              && SavedAndRead(r, f, clock, val, s, t, mid, after, read, stored) && |r.embeddings| <= Fa01.MAX_EMBEDDINGS
              && (peer == 0 || peer == uid) ==>
                Auth.Answer(true, peer, uid, stored, c.embedderId, frames, c.dark).success
  {
    var start := Enroll.FinishSavesAccepted(c, run, k);
    var r := Enroll.Out(c, run, k).saved.value;
    assert Enroll.MinFrames(run[start]) >= 1;
    forall f, clock, val, s, t, mid, after, read, peer, uid |
      && SavedAndRead(r, f, clock, val, s, t, mid, after, read, stored) && |r.embeddings| <= Fa01.MAX_EMBEDDINGS
      && (peer == 0 || peer == uid)
      ensures Auth.Answer(true, peer, uid, stored, c.embedderId, frames, c.dark).success
    {
      SavedIsStored(r, f, clock, val, s, t, mid, after, read, stored);
      RecordAuthenticates(c, run, k, e, stored, frames, i, brightness);
    }
  }
}
