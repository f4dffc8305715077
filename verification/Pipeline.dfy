/** The Pipeline object of daemon/pipeline.cpp: what each of its methods, and
    each body its detached workers run under the mutex, does to the shared
    state. Every contract ties the new state to the functions of PipelineState
    that the interleaving model CameraProtocol is built from. */
module Pipeline {
  import opened PipelineState
  import opened Wrappers
  import V4l2

  /** What the foreign parts of process_one_frame produce for one image, and
      whether the detector or the embedder throws instead. */
  datatype Analysis<Det, Emb> = Analysis(
    brightness: real, detections: seq<Det>, quality: real, embedding: Emb, detectorThrows: bool, embedderThrows: bool)

  datatype FrameOutcome<Det, Emb> = FrameOutcome(
    captured: bool, hasFace: bool, brightness: real,
    detection: Option<Det>, embedding: Option<Emb>, quality: real)

  /** What process_one_frame reports for a captured image, given how many frames
      the stream has delivered (this one included). */
  function Report<Det, Emb>(frames: nat, warmup: int, dark: real, a: Analysis<Det, Emb>, embed: bool)
    : (o: FrameOutcome<Det, Emb>)
    ensures o.captured
    ensures o.hasFace <==> frames > warmup && a.brightness >= dark && |a.detections| > 0
    ensures o.detection == (if o.hasFace then Some(a.detections[0]) else None)
    ensures o.embedding == (if o.hasFace && embed then Some(a.embedding) else None)
    ensures o.brightness == if frames > warmup then a.brightness else 0.0
    ensures o.quality == if o.hasFace then a.quality else 0.0
  {
    var base := FrameOutcome(true, false, 0.0, None, None, 0.0);
    if frames <= warmup then base
    else if a.brightness < dark || |a.detections| == 0 then base.(brightness := a.brightness)
    else FrameOutcome(true, true, a.brightness, Some(a.detections[0]),
                      if embed then Some(a.embedding) else None, a.quality)
  }

  /** The models throw on this image. */
  predicate Breaks<Det, Emb>(frames: nat, warmup: int, dark: real, a: Analysis<Det, Emb>, embed: bool) {
    frames > warmup && a.brightness >= dark && (a.detectorThrows || (|a.detections| > 0 && embed && a.embedderThrows))
  }

  class Pipeline {
    const camera: V4l2.Camera
    const warmupFrames: int
    const darkThreshold: real
    var framesSinceOpen: nat
    var useGen: nat
    var lastUse: nat

    function View(): Cam
      reads this, camera
    {
      Cam(camera.fd >= 0, camera.streaming, framesSinceOpen, useGen, lastUse)
    }

    ghost predicate Valid()
      reads this, camera
    {
      camera.Valid() && Sane(View())
    }

    constructor (camera: V4l2.Camera, warmupFrames: int, darkThreshold: real)
      requires camera.Valid() && camera.fd < 0
      ensures Valid() && View() == Dark
      ensures this.camera == camera
      ensures this.warmupFrames == warmupFrames && this.darkThreshold == darkThreshold
    {
      this.camera := camera;
      this.warmupFrames, this.darkThreshold := warmupFrames, darkThreshold;
      framesSinceOpen, useGen, lastUse := 0, 0, 0;
    }

    /** b says how the bring-up went; Up(old view, b) is "returned normally". */
    method EnsureCameraOpen(up: V4l2.Bringup, newFd: nat, now: nat) returns (b: Bring)
      requires Valid()
      modifies this, camera
      ensures Valid() && View() == EnsureOpen(old(View()), b, now)
      ensures Up(old(View()), b) <==> camera.streaming
      ensures old(camera.fd) >= 0 && !old(camera.streaming) ==>
                (b.CameUp? <==> V4l2.StartWithin(old(camera.dev), old(camera.buffers), V4l2.MAX_ATTEMPTS).errno == 0)
      ensures old(camera.fd) < 0 ==>
                (b.CameUp? <==> V4l2.Usable(up) && V4l2.StartWithin(up.dev, |up.dev.queued|, V4l2.MAX_ATTEMPTS).errno == 0)
    {
      b := CameUp;
      if camera.fd < 0 {
        var ok := camera.Open(up, newFd);
        if !ok {
          b := if camera.fd >= 0 then FailedHalfOpen else FailedShut;
          return;
        }
        framesSinceOpen := 0;
      } else if !camera.streaming {
        var err := camera.StartStream();
        if err != 0 {
          b := FailedShut;
          return;
        }
        framesSinceOpen := 0;
      }
      lastUse := now;
    }

    method ReleaseCamera()
      requires Valid()
      modifies this`framesSinceOpen, this`useGen, camera
      ensures Valid() && View() == Released(old(View()))
      ensures old(camera.streaming) ==> (camera.dev.on <==> V4l2.Fault(old(camera.dev)) != 0)
      ensures old(camera.streaming) && !camera.dev.on ==> V4l2.NoneQueued(camera.dev)
      ensures !old(camera.streaming) ==> camera.dev == old(camera.dev)
    {
      ReleasedIsDark(View());
      if !camera.streaming {
        return;
      }
      camera.StopStream();
      framesSinceOpen := 0;
      useGen := (useGen + 1) % GEN_MODULUS;
    }

    /** What the detached prewarm worker does once it has the mutex. */
    method PrewarmWorker(gen0: nat, up: V4l2.Bringup, newFd: nat, now: nat) returns (b: Bring)
      requires Valid()
      modifies this, camera
      ensures Valid()
      ensures View() == if old(useGen) != gen0 then old(View()) else EnsureOpen(old(View()), b, now)
    {
      b := FailedShut;
      if useGen != gen0 {
        return;
      }
      b := EnsureCameraOpen(up, newFd, now);
    }

    /** The watchdog's section: the same close as a release worker's. */
    method WatchdogClose()
      requires Valid()
      modifies this`framesSinceOpen, this`useGen, camera
      ensures Valid() && View() == Released(old(View()))
    {
      ReleasedIsDark(View());
      if camera.streaming {
        camera.StopStream();
        framesSinceOpen := 0;
        useGen := (useGen + 1) % GEN_MODULUS;
      }
    }

    /** process_one_frame. The clock is read at the end of the bring-up
        (openedAt) and again just before the capture (storedAt). thrown: it did not
        return. */
    method ProcessOneFrame<Det, Emb>(up: V4l2.Bringup, newFd: nat, openedAt: nat, storedAt: nat,
        ready: bool, pick: nat, analysis: Analysis<Det, Emb>, embed: bool)
      returns (thrown: bool, out: FrameOutcome<Det, Emb>, b: Bring, f: V4l2.Frame)
      requires Valid()
      modifies this, camera
      ensures Valid()
      ensures !Up(old(View()), b) ==> thrown && View() == EnsureOpen(old(View()), b, openedAt)
      ensures Up(old(View()), b) ==>
                && (thrown <==> f.Died? || (f.Image? && Breaks(View().frames, warmupFrames, darkThreshold, analysis, embed)))
                && View() == Captured(Touch(EnsureOpen(old(View()), b, openedAt), storedAt), f.Image?)
      ensures !thrown && !f.Image? ==> out == FrameOutcome(false, false, 0.0, None, None, 0.0)
      ensures !thrown && f.Image? ==> out == Report(View().frames, warmupFrames, darkThreshold, analysis, embed)
    {
      out := FrameOutcome(false, false, 0.0, None, None, 0.0);
      thrown, f := true, V4l2.Died;
      b := EnsureCameraOpen(up, newFd, openedAt);
      if !camera.streaming {
        return;
      }
      lastUse := storedAt;
      f := camera.Capture(ready, pick);
      if f.Died? {
        return;
      }
      thrown := false;
      if f.NoFrame? {
        return;
      }
      out := out.(captured := true);
      framesSinceOpen := framesSinceOpen + 1;
      if framesSinceOpen <= warmupFrames {
        return;
      }
      out := out.(brightness := analysis.brightness);
      if out.brightness < darkThreshold {
        return;
      }
      if analysis.detectorThrows {
        thrown := true;
        return;
      }
      if |analysis.detections| == 0 {
        return;
      }
      out := out.(hasFace := true, detection := Some(analysis.detections[0]), quality := analysis.quality);
      if embed {
        if analysis.embedderThrows {
          thrown := true;
          return;
        }
        out := out.(embedding := Some(analysis.embedding));
      }
    }
  }
}
