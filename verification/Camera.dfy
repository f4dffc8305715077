/** The V4L2 capture device and the Camera object that drives it
    (daemon/camera.cpp).

    The kernel side is the value `Device`: which mmap buffers it holds, whether
    it streams, and a script of error codes the driver injects, one per ioctl
    (0 = none; an exhausted script injects nothing). Calls interrupted by a
    signal are repeated by xioctl and do not show. */
module V4l2 {

  const EINVAL: nat := 22
  const EBUSY: nat := 16
  const EAGAIN: nat := 11
  const MAX_ATTEMPTS: nat := 6

  datatype Device = Device(queued: seq<bool>, on: bool, faults: seq<nat>)

  /** Device state after an ioctl, and its errno (0 = success). */
  datatype Reply = Reply(dev: Device, errno: nat)

  function Fault(d: Device): nat { if d.faults == [] then 0 else d.faults[0] }

  function Rest(d: Device): Device { if d.faults == [] then d else d.(faults := d.faults[1..]) }

  /** VIDIOC_QBUF: a buffer the driver already holds, or does not have, is
      EINVAL. */
  function QBuf(d: Device, i: nat): Reply {
    var r := Rest(d);
    if Fault(d) != 0 then Reply(r, Fault(d))
    else if i >= |d.queued| || d.queued[i] then Reply(r, EINVAL)
    else Reply(r.(queued := d.queued[i := true]), 0)
  }

  function StreamOn(d: Device): Reply {
    var r := Rest(d);
    if Fault(d) != 0 then Reply(r, Fault(d)) else Reply(r.(on := true), 0)
  }

  /** VIDIOC_STREAMOFF returns every buffer to the application. The camera object
      does not look at its result. */
  function StreamOff(d: Device): Reply {
    var r := Rest(d);
    if Fault(d) != 0 then Reply(r, Fault(d))
    else Reply(r.(queued := seq(|r.queued|, _ => false), on := false), 0)
  }

  /** VIDIOC_DQBUF handing out buffer i (the driver's choice). */
  function DqBuf(d: Device, i: nat): Reply {
    var r := Rest(d);
    if Fault(d) != 0 then Reply(r, Fault(d))
    else if !d.on || i >= |d.queued| || !d.queued[i] then Reply(r, EAGAIN)
    else Reply(r.(queued := d.queued[i := false]), 0)
  }

  predicate AllQueued(d: Device) { forall i :: 0 <= i < |d.queued| ==> d.queued[i] }

  predicate NoneQueued(d: Device) { forall i :: 0 <= i < |d.queued| ==> !d.queued[i] }

  function CountQueued(q: seq<bool>): nat {
    if q == [] then 0 else (if q[0] then 1 else 0) + CountQueued(q[1..])
  }

  lemma {:induction false} CountUpdate(q: seq<bool>, i: nat, b: bool)
    requires i < |q|
    ensures CountQueued(q[i := b]) + (if q[i] then 1 else 0) == CountQueued(q) + (if b then 1 else 0)
  {
    if i == 0 {
      assert q[0 := b][1..] == q[1..];
    } else {
      assert q[i := b][1..] == q[1..][i - 1 := b];
      CountUpdate(q[1..], i - 1, b);
    }
  }

  // ------------------------------------------------ specification of a start

  /** Queue buffers i, i+1, .. n-1, stopping at the first error. */
  function QueueFrom(d: Device, i: nat, n: nat): Reply
    decreases n - i
  {
    if i >= n then Reply(d, 0)
    else
      var r := QBuf(d, i);
      if r.errno != 0 then r else QueueFrom(r.dev, i + 1, n)
  }

  function TryOnce(d: Device, n: nat): Reply {
    var r := QueueFrom(d, 0, n);
    if r.errno != 0 then r else StreamOn(r.dev)
  }

  predicate Retryable(e: nat) { e == EBUSY || e == EINVAL }

  /** Up to `left` attempts, each failed one that is worth retrying followed by
      STREAMOFF. attempts: how many were made. off: what the last STREAMOFF
      returned. */
  datatype Start = Start(dev: Device, errno: nat, attempts: nat, off: nat)

  function StartWithin(d: Device, n: nat, left: nat): Start
    requires left > 0
    decreases left
  {
    var r := TryOnce(d, n);
    if r.errno == 0 || !Retryable(r.errno) then Start(r.dev, r.errno, 1, 0)
    else
      var off := StreamOff(r.dev);
      if left == 1 then Start(off.dev, r.errno, 1, off.errno)
      else
        var s := StartWithin(off.dev, n, left - 1);
        s.(attempts := s.attempts + 1)
  }

  // ---------------------------------------------------- what a start promises

  lemma {:induction false} QueueFromKeeps(d: Device, i: nat, n: nat)
    requires i <= n
    ensures var r := QueueFrom(d, i, n);
            && |r.dev.queued| == |d.queued| && r.dev.on == d.on
            && (forall k :: 0 <= k < i && k < |d.queued| ==> r.dev.queued[k] == d.queued[k])
            && (r.errno == 0 ==> n <= |d.queued| || i == n)
            && (r.errno == 0 ==> forall k :: i <= k < n && k < |d.queued| ==> r.dev.queued[k] && !d.queued[k])
    decreases n - i
  {
    if i < n {
      var r := QBuf(d, i);
      if r.errno == 0 {
        QueueFromKeeps(r.dev, i + 1, n);
        var z := QueueFrom(d, i, n);
        forall k | z.errno == 0 && i <= k < n && k < |d.queued| ensures z.dev.queued[k] && !d.queued[k] {
          if k > i {
            assert r.dev.queued[k] == d.queued[k];
          }
        }
      }
    }
  }

  /** A successful attempt started from no queued buffer at all and ends with
      every buffer queued and the stream on. */
  lemma TrySucceeds(d: Device, n: nat)
    requires n == |d.queued|
    ensures var r := TryOnce(d, n);
            && |r.dev.queued| == n
            && (r.errno == 0 ==> NoneQueued(d) && AllQueued(r.dev) && r.dev.on)
            && (r.errno != 0 ==> r.dev.on == d.on)
  {
    QueueFromKeeps(d, 0, n);
  }

  /** start_stream makes between one and six attempts; when it succeeds every
      buffer is queued and the device streams, and when it fails on a device
      that was not streaming it leaves it so. */
  lemma {:induction false} StartOutcome(d: Device, n: nat, left: nat)
    requires left > 0 && n == |d.queued|
    ensures var s := StartWithin(d, n, left);
            && 1 <= s.attempts <= left
            && |s.dev.queued| == n
            && (s.errno == 0 ==> AllQueued(s.dev) && s.dev.on)
            && (s.errno != 0 && !d.on ==> !s.dev.on)
            && (s.errno != 0 && s.attempts < left ==> !Retryable(s.errno))
            && (s.errno != 0 && Retryable(s.errno) && s.off == 0 ==> NoneQueued(s.dev) && !s.dev.on)
    decreases left
  {
    TrySucceeds(d, n);
    var r := TryOnce(d, n);
    if r.errno != 0 && Retryable(r.errno) && left > 1 {
      StartOutcome(StreamOff(r.dev).dev, n, left - 1);
    }
  }

  lemma {:induction false} QueueClean(d: Device, i: nat)
    requires d.faults == [] && i <= |d.queued|
    requires forall k :: i <= k < |d.queued| ==> !d.queued[k]
    ensures var r := QueueFrom(d, i, |d.queued|);
            r.errno == 0 && r.dev.faults == []
    decreases |d.queued| - i
  {
    if i < |d.queued| {
      QueueClean(QBuf(d, i).dev, i + 1);
    }
  }

  lemma {:induction false} QueueDirty(d: Device, i: nat, dirty: nat)
    requires d.faults == [] && i <= dirty < |d.queued| && d.queued[dirty]
    ensures var r := QueueFrom(d, i, |d.queued|);
            r.errno == EINVAL && r.dev.faults == []
    decreases |d.queued| - i
  {
    if !d.queued[i] {
      QueueDirty(QBuf(d, i).dev, i + 1, dirty);
    }
  }

  /** With a driver that injects no error, any mix of queued and dequeued
      buffers comes up: at the first attempt exactly if none was queued, at the
      second otherwise. */
  lemma StartRecovers(d: Device)
    requires d.faults == []
    ensures var s := StartWithin(d, |d.queued|, MAX_ATTEMPTS);
            && s.errno == 0 && s.attempts <= 2
            && (s.attempts == 1 <==> NoneQueued(d))
  {
    if NoneQueued(d) {
      QueueClean(d, 0);
    } else {
      var dirty :| 0 <= dirty < |d.queued| && d.queued[dirty];
      QueueDirty(d, 0, dirty);
      var off := StreamOff(TryOnce(d, |d.queued|).dev).dev;
      QueueFromKeeps(d, 0, |d.queued|);
      QueueClean(off, 0);
    }
  }

  /** The device before attempt j, if all attempts before it failed and were worth
      retrying. */
  function Before(d: Device, n: nat, j: nat): Device {
    if j == 0 then d else StreamOff(TryOnce(Before(d, n, j - 1), n).dev).dev
  }

  /** Attempt j fails with EBUSY or EINVAL. */
  predicate Busy(d: Device, n: nat, j: nat) { TryOnce(Before(d, n, j), n).errno in {16, 22} }

  lemma {:induction false} BeforeNext(d: Device, n: nat, j: nat)
    ensures Before(StreamOff(TryOnce(d, n).dev).dev, n, j) == Before(d, n, j + 1)
    decreases j
  {
    if j > 0 {
      BeforeNext(d, n, j - 1);
    }
  }

  /** The attempts after the first are those of a start on the device it left. */
  lemma BusyNext(d: Device, d': Device, n: nat)
    requires d' == StreamOff(TryOnce(d, n).dev).dev
    ensures forall j: nat :: Before(d', n, j) == Before(d, n, j + 1) && (Busy(d', n, j) <==> Busy(d, n, j + 1))
  {
    forall j: nat ensures Before(d', n, j) == Before(d, n, j + 1) {
      BeforeNext(d, n, j);
    }
  }

  lemma StartNext(d: Device, d': Device, n: nat, left: nat)
    requires left > 1 && Busy(d, n, 0) && d' == StreamOff(TryOnce(d, n).dev).dev
    ensures var s := StartWithin(d', n, left - 1);
            StartWithin(d, n, left) == s.(attempts := s.attempts + 1)
  {
  }

  lemma {:induction false} RetriesUpTo(d: Device, n: nat, left: nat, k: nat)
    requires k < left && (forall j :: 0 <= j < k ==> Busy(d, n, j)) && !Busy(d, n, k)
    ensures var s, r := StartWithin(d, n, left), TryOnce(Before(d, n, k), n);
            s.attempts == k + 1 && s.errno == r.errno && s.dev == r.dev
    decreases k
  {
    if k > 0 {
      var d' := StreamOff(TryOnce(d, n).dev).dev;
      assert Busy(d, n, 0);
      BusyNext(d, d', n);
      StartNext(d, d', n, left);
      RetriesUpTo(d', n, left - 1, k - 1);
    }
  }

  lemma {:induction false} RetriesOut(d: Device, n: nat, left: nat)
    requires 0 < left && forall j :: 0 <= j < left ==> Busy(d, n, j)
    ensures var s := StartWithin(d, n, left);
            s.attempts == left && s.errno == TryOnce(Before(d, n, left - 1), n).errno
    decreases left
  {
    assert Busy(d, n, 0);
    if left > 1 {
      var d' := StreamOff(TryOnce(d, n).dev).dev;
      BusyNext(d, d', n);
      RetriesOut(d', n, left - 1);
    }
  }

  /** Of six attempts the first that is not EBUSY or EINVAL decides, and the sixth
      if all are. */
  lemma StartDecides(d: Device, n: nat, k: nat)
    requires k < 6 && (forall j :: 0 <= j < k ==> Busy(d, n, j)) && (k < 5 ==> !Busy(d, n, k))
    ensures var s := StartWithin(d, n, MAX_ATTEMPTS);
            s.attempts == k + 1 && s.errno == TryOnce(Before(d, n, k), n).errno
  {
    if Busy(d, n, k) {
      RetriesOut(d, n, 6);
    } else {
      RetriesUpTo(d, n, 6, k);
    }
  }

  lemma {:induction false} BeforeSize(d: Device, j: nat)
    ensures |Before(d, |d.queued|, j).queued| == |d.queued|
    decreases j
  {
    if j > 0 {
      BeforeSize(d, j - 1);
      QueueFromKeeps(Before(d, |d.queued|, j - 1), 0, |d.queued|);
    }
  }

  /** An attempt on a driver that accepts everything fails, with EINVAL, exactly if
      a buffer is still queued; and then the next succeeds. */
  lemma TryAccepting(d: Device)
    requires d.faults == []
    ensures var n := |d.queued|;
            var next := StreamOff(TryOnce(d, n).dev).dev;
            && TryOnce(d, n).errno == (if NoneQueued(d) then 0 else EINVAL)
            && (!NoneQueued(d) ==> TryOnce(next, n).errno == 0)
  {
    var n := |d.queued|;
    if NoneQueued(d) {
      QueueClean(d, 0);
    } else {
      var dirty :| 0 <= dirty < n && d.queued[dirty];
      QueueDirty(d, 0, dirty);
      QueueFromKeeps(d, 0, n);
      QueueClean(StreamOff(TryOnce(d, n).dev).dev, 0);
    }
  }

  /** When the first k attempts find the device busy and the driver then accepts
      everything, the next attempt succeeds; unless the driver had refused the last
      STREAMOFF too and still holds buffers, which takes one attempt more. */
  lemma StartRecoversAfter(d: Device, k: nat)
    requires k < 6 && (forall j :: 0 <= j < k ==> Busy(d, |d.queued|, j)) && Before(d, |d.queued|, k).faults == []
    ensures var s := StartWithin(d, |d.queued|, MAX_ATTEMPTS);
            if NoneQueued(Before(d, |d.queued|, k)) then s.errno == 0 && s.attempts == k + 1
            else if k < 5 then s.errno == 0 && s.attempts == k + 2
            else s.errno == EINVAL && s.attempts == 6
  {
    var n := |d.queued|;
    BeforeSize(d, k);
    TryAccepting(Before(d, n, k));
    StartDecides(d, n, if NoneQueued(Before(d, n, k)) || k == 5 then k else k + 1);
  }

  // ------------------------------------------------------------- the object

  /** How the bring-up ioctls of Camera::open went, up to start_stream. */
  datatype Bringup =
    | NoDevice            // open(2) failed
    | Refused             // wrong capabilities or format: closed again
    | DiedEarly           // an ioctl before the buffers existed failed: descriptor kept
    | DiedMapping(n: nat) // QUERYBUF or mmap failed: descriptor and buffer table kept
    | Mapped(dev: Device) // REQBUFS answered with this queue; refused if it has fewer than two buffers

  predicate Usable(up: Bringup) { up.Mapped? && |up.dev.queued| >= 2 }

  datatype Frame = NoFrame | Image(buffer: nat) | Died

  class Camera {
    var fd: int
    var streaming: bool
    var buffers: nat          // buffers_.size()
    var dev: Device

    ghost predicate Valid()
      reads this
    {
      && (streaming ==> fd >= 0 && dev.on)
      && buffers <= |dev.queued|
      && (fd < 0 ==> buffers == 0)
    }

    constructor ()
      ensures Valid() && fd == -1 && !streaming && buffers == 0
    {
      fd, streaming, buffers, dev := -1, false, 0, Device([], false, []);
    }

    /** try_once: queue every buffer, then STREAMON. */
    method Attempt() returns (err: nat)
      requires Valid() && !streaming
      modifies this`dev
      ensures dev == TryOnce(old(dev), buffers).dev && err == TryOnce(old(dev), buffers).errno
      ensures Valid()
    {
      ghost var d0 := dev;
      var i := 0;
      while i < buffers
        invariant 0 <= i <= buffers <= |dev.queued|
        invariant QueueFrom(d0, 0, buffers) == QueueFrom(dev, i, buffers)
      {
        var r := QBuf(dev, i);
        dev := r.dev;
        if r.errno != 0 {
          err := r.errno;
          return;
        }
        i := i + 1;
      }
      var r := StreamOn(dev);
      dev := r.dev;
      err := r.errno;
    }

    /** err = 0: returned normally; otherwise the errno of the exception. */
    method StartStream() returns (err: nat)
      requires Valid() && fd >= 0
      modifies this`dev, this`streaming
      ensures Valid()
      ensures old(streaming) ==> err == 0 && dev == old(dev) && streaming
      ensures !old(streaming) ==>
                var s := StartWithin(old(dev), buffers, MAX_ATTEMPTS);
                dev == s.dev && err == s.errno && (streaming <==> err == 0)
    {
      if streaming {
        return 0;
      }
      ghost var d0 := dev;
      err := 0;
      var attempt := 0;
      while attempt < MAX_ATTEMPTS
        invariant 0 <= attempt <= MAX_ATTEMPTS
        invariant Valid() && !streaming
        invariant attempt < MAX_ATTEMPTS ==>
                    var s, t := StartWithin(d0, buffers, MAX_ATTEMPTS), StartWithin(dev, buffers, MAX_ATTEMPTS - attempt);
                    s.dev == t.dev && s.errno == t.errno && s.attempts == t.attempts + attempt
        invariant attempt == MAX_ATTEMPTS ==>
                    var s := StartWithin(d0, buffers, MAX_ATTEMPTS); dev == s.dev && err == s.errno
        invariant attempt > 0 ==> err != 0
      {
        ghost var d := dev;
        err := Attempt();
        if err == 0 {
          QueueFromKeeps(d, 0, buffers);
          streaming := true;
          return;
        }
        if !Retryable(err) {
          break;
        }
        dev := StreamOff(dev).dev;
        attempt := attempt + 1;
      }
    }

    /** The camera object takes the stream for stopped whatever STREAMOFF says: the
        device itself is off exactly if the driver accepted it. */
    method StopStream()
      requires Valid()
      modifies this`dev, this`streaming
      ensures Valid() && !streaming
      ensures dev == if old(streaming) && fd >= 0 then StreamOff(old(dev)).dev else old(dev)
      ensures old(streaming) ==> (dev.on <==> Fault(old(dev)) != 0) && (!dev.on ==> NoneQueued(dev))
    {
      if !streaming || fd < 0 {
        return;
      }
      dev := StreamOff(dev).dev;
      streaming := false;
    }

    /** ok: returned normally. newFd is what open(2) returned. */
    method Open(up: Bringup, newFd: nat) returns (ok: bool)
      requires Valid()
      modifies this
      ensures Valid()
      ensures old(fd) >= 0 ==> ok && fd == old(fd) && streaming == old(streaming) && dev == old(dev) && buffers == old(buffers)
      ensures old(fd) < 0 ==>
                && (ok <==> Usable(up) && StartWithin(up.dev, |up.dev.queued|, MAX_ATTEMPTS).errno == 0)
                && (fd >= 0 <==> up.DiedEarly? || up.DiedMapping? || Usable(up))
                && (streaming <==> ok)
                && (ok ==> AllQueued(dev) && buffers == |dev.queued| >= 2)
    {
      if fd >= 0 {
        return true;
      }
      match up
      case NoDevice => ok := false;
      case Refused => ok := false;
      case DiedEarly =>
        fd, ok := newFd, false;
      case DiedMapping(n) =>
        fd, buffers, ok := newFd, n, false;
        dev := Device(seq(n, _ => false), false, []);
      case Mapped(d) =>
        if |d.queued| < 2 {
          return false;
        }
        fd, buffers, dev := newFd, |d.queued|, d;
        var err := StartStream();
        ok := err == 0;
        StartOutcome(d, |d.queued|, MAX_ATTEMPTS);
    }

    method Close()
      requires Valid()
      modifies this
      ensures Valid() && fd < 0 && !streaming && buffers == 0
      ensures old(streaming) ==> (dev.on <==> Fault(old(dev)) != 0) && (!dev.on ==> NoneQueued(dev))
    {
      if fd < 0 {
        return;
      }
      StopStream();
      buffers := 0;
      fd := -1;
    }

    /** ready: select() saw a frame before the timeout. pick: the buffer the
        driver hands out. A capture that returns, with or without a frame,
        leaves as many buffers queued as it found; only an ioctl error between
        taking a buffer and giving it back loses one. */
    method Capture(ready: bool, pick: nat) returns (f: Frame)
      requires Valid()
      modifies this`dev
      ensures Valid() && |dev.queued| == |old(dev).queued|
      ensures !(old(fd) >= 0 && old(streaming)) ==> f == Died && dev == old(dev)
      ensures old(fd) >= 0 && old(streaming) && !ready ==> f == NoFrame && dev == old(dev)
      ensures f.Image? ==> f.buffer == pick && pick < |dev.queued| && old(dev).queued[pick] && dev.queued == old(dev).queued
      ensures old(fd) >= 0 && old(streaming) && ready ==>
                var r := DqBuf(old(dev), pick);
                var q := QBuf(r.dev, pick);
                f == if r.errno == 0 && q.errno == 0 then Image(pick) else Died
      ensures !f.Died? ==> CountQueued(dev.queued) == CountQueued(old(dev).queued)
      ensures f.Died? ==>
                || dev.queued == old(dev).queued
                || (CountQueued(dev.queued) == CountQueued(old(dev).queued) - 1
                    && DqBuf(old(dev), pick).errno == 0 && QBuf(DqBuf(old(dev), pick).dev, pick).errno != 0)
    {
      if fd < 0 || !streaming {
        return Died;
      }
      if !ready {
        return NoFrame;
      }
      ghost var d0 := dev;
      var r := DqBuf(dev, pick);
      dev := r.dev;
      if r.errno != 0 {
        return Died;
      }
      CountUpdate(d0.queued, pick, false);
      r := QBuf(dev, pick);
      dev := r.dev;
      if r.errno != 0 {
        return Died;
      }
      assert dev.queued == d0.queued;
      return Image(pick);
    }
  }
}
