/** The part of the capture pipeline that several threads share, and what each
    critical section does to it (daemon/pipeline.cpp). The imperative class
    `Pipeline.Pipeline` and the interleaving model `CameraProtocol` are both
    written in terms of these functions. */
module PipelineState {

  // use_gen_ is a 64-bit unsigned counter.
  const GEN_MODULUS: nat := 0x1_0000_0000_0000_0000

  datatype Policy = Warm | IdleKeep | Lazy

  /** How the device answered when asked to come up. A failed full open may
      leave the descriptor behind (the ioctl error paths throw without closing
      it), so a failure has two shapes. */
  datatype Bring = CameUp | FailedShut | FailedHalfOpen

  /** is_open(), is_streaming(), frames_since_open_, use_gen_, last_use_ns_. */
  datatype Cam = Cam(isOpen: bool, streaming: bool, frames: nat, gen: nat, lastUse: nat)

  const Dark := Cam(false, false, 0, 0, 0)

  /** ensure_camera_open returned normally. */
  predicate Up(c: Cam, b: Bring) {
    (c.isOpen && c.streaming) || b.CameUp?
  }

  /** ensure_camera_open up to, but not including, the store to last_use_ns_. */
  function BringUp(c: Cam, b: Bring): Cam {
    if !c.isOpen then
      match b
      case CameUp => c.(isOpen := true, streaming := true, frames := 0)
      case FailedShut => c
      case FailedHalfOpen => c.(isOpen := true)
    else if !c.streaming then
      if b.CameUp? then c.(streaming := true, frames := 0) else c
    else c
  }

  function Touch(c: Cam, now: nat): Cam {
    c.(lastUse := now)
  }

  /** The whole of ensure_camera_open: an exception skips the store. */
  function EnsureOpen(c: Cam, b: Bring, now: nat): Cam {
    if Up(c, b) then Touch(BringUp(c, b), now) else BringUp(c, b)
  }

  /** The stream stopped, the close not counted yet. */
  function Halted(c: Cam): Cam { c.(streaming := false, frames := 0) }

  /** use_gen_.fetch_add(1) */
  function Counted(c: Cam): Cam { c.(gen := (c.gen + 1) % GEN_MODULUS) }

  /** release_camera: stop the stream if it is on, and count the close. */
  function Released(c: Cam): Cam {
    if c.streaming then Counted(Halted(c)) else c
  }

  /** One capture inside process_one_frame. */
  function Captured(c: Cam, gotFrame: bool): Cam {
    if gotFrame then c.(frames := c.frames + 1) else c
  }

  /** Holds of the camera in every state the daemon can be in. */
  predicate Sane(c: Cam) {
    && (c.streaming ==> c.isOpen)
    && (!c.streaming ==> c.frames == 0)
    && c.gen < GEN_MODULUS
  }

  /** A close leaves the lamp dark, forgets the frame count and moves the
      generation on by exactly one (mod 2^64) precisely when it had something
      to stop. */
  lemma ReleasedIsDark(c: Cam)
    requires Sane(c)
    ensures var r := Released(c);
            && !r.streaming && r.frames == 0 && r.isOpen == c.isOpen && r.lastUse == c.lastUse
            && (r.gen != c.gen <==> c.streaming)
            && Sane(r) && Released(r) == r
  {
  }

  /** Bringing up is idempotent, never moves the generation, and restarts the
      frame count exactly when it starts the stream. */
  lemma EnsureOpenFacts(c: Cam, b: Bring, now: nat)
    requires Sane(c)
    ensures var e := EnsureOpen(c, b, now);
            && Sane(e) && e.gen == c.gen
            && (e.streaming <==> Up(c, b))
            && e.frames == (if c.streaming then c.frames else 0)
            && e.lastUse == (if Up(c, b) then now else c.lastUse)
            && (e.streaming ==> forall b' :: EnsureOpen(e, b', now) == e)
  {
  }
}
