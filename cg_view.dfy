/** The client game's per-frame view bookkeeping: the viewport rectangle, the
    announcer-sound queue and its rate limit, zooming, powerup wear-off
    warnings, frame timing and the test-model frame and skin steps. */
module CgView {
  import opened QShared

  // From the client game's header (Quake III values).
  const MAX_SOUNDBUFFER: int := 20
  const POWERUP_BLINKS: int := 5
  const POWERUP_BLINK_TIME: int := 1000

  /** The gap CG_PlayBufferedSounds leaves after each announcer sound. */
  const ANNOUNCER_GAP: int := 750

  // ---------------------------------------------------------------------------
  // CG_CalcVrect arithmetic.

  /** The view size: full screen at intermission, otherwise cg_viewsize held to
      30..100, with the value to write back to the cvar when it was out of range. */
  function ViewSize(intermission: bool, viewsize: int): (r: (int, Option<string>))
    ensures 30 <= r.0 <= 100
    ensures intermission ==> r == (100, None)
    ensures !intermission && 30 <= viewsize <= 100 ==> r == (viewsize, None)
    ensures !intermission && viewsize < 30 ==> r == (30, Some("30"))
    ensures !intermission && viewsize > 100 ==> r == (100, Some("100"))
  {
    if intermission then (100, None)
    else if viewsize < 30 then (30, Some("30"))
    else if viewsize > 100 then (100, Some("100"))
    else (viewsize, None)
  }

  /** x & ~1 on a two's-complement int: the even number at or just below x. */
  function ClearLowBit(x: int): (r: int)
    ensures r % 2 == 0 && r <= x < r + 2
  {
    x - x % 2
  }

  /** A side of the view: vid * size / 100, made even. */
  function Extent(vid: int, size: int): int
  {
    ClearLowBit(CDiv(vid * size, 100))
  }

  /** The offset that centres a side of the given extent. */
  function Offset(vid: int, extent: int): int
  {
    CDiv(vid - extent, 2)
  }

  /** For a real screen the view is an even-sized rectangle that fits on the
      screen, is centred on it, and is the whole screen, give or take the
      rounding, at size 100. */
  lemma VrectFits(vid: int, size: int)
    requires vid >= 0 && 30 <= size <= 100
    ensures var w := Extent(vid, size); var x := Offset(vid, w);
      && w % 2 == 0 && 0 <= w <= vid
      && vid * size / 100 - 1 <= w <= vid * size / 100
      && 0 <= x && x + w <= vid
      && vid - w - 1 <= 2 * x <= vid - w
      && (size == 100 ==> vid - 1 <= w)
  {
    assert 0 <= vid * size <= vid * 100;
  }

  // ---------------------------------------------------------------------------
  // Powerup wear-off warnings.

  /** CG_PowerupTimerSounds plays the wear-off sound for a powerup running out at
      time t: it is still active, has less than the blink period left, and the
      whole number of blink intervals left changed since the last frame. */
  predicate WearOffSound(t: int, time: int, oldTime: int)
  {
    && t > time
    && t - time < POWERUP_BLINKS * POWERUP_BLINK_TIME
    && CDiv(t - time, POWERUP_BLINK_TIME) != CDiv(t - oldTime, POWERUP_BLINK_TIME)
  }

  /** While time runs forward, the sound plays exactly when a whole blink interval
      boundary of the remaining time was crossed since the last frame. */
  lemma WearOffSoundAtBoundary(t: int, time: int, oldTime: int)
    requires oldTime <= time < t && t - time < POWERUP_BLINKS * POWERUP_BLINK_TIME
    ensures WearOffSound(t, time, oldTime) <==>
      exists m :: t - time < m * POWERUP_BLINK_TIME <= t - oldTime
  {
    var a := t - time;
    var b := t - oldTime;
    var qa := a / POWERUP_BLINK_TIME;
    var qb := b / POWERUP_BLINK_TIME;
    assert CDiv(a, POWERUP_BLINK_TIME) == qa && CDiv(b, POWERUP_BLINK_TIME) == qb;
    if qa != qb {
      assert qa < qb;
      assert a < (qa + 1) * POWERUP_BLINK_TIME <= qb * POWERUP_BLINK_TIME <= b;
    }
    if exists m :: a < m * POWERUP_BLINK_TIME <= b {
      var m :| a < m * POWERUP_BLINK_TIME <= b;
      assert qa * POWERUP_BLINK_TIME <= a;
      assert qa < m;
      assert m <= qb;
    }
  }

  /** No time passing means no warning. */
  lemma NoWearOffWithoutTime(t: int, time: int)
    ensures !WearOffSound(t, time, time)
  {
  }

  /** The indices of the powerups that get a wear-off sound, in order. */
  function WearingOff(powerups: seq<int>, n: nat, time: int, oldTime: int): (r: seq<nat>)
    requires n <= |powerups|
    ensures forall k :: 0 <= k < |r| ==> r[k] < n && WearOffSound(powerups[r[k]], time, oldTime)
    ensures forall i :: 0 <= i < n && WearOffSound(powerups[i], time, oldTime) ==> i in r
  {
    if n == 0 then []
    else
      var prev := WearingOff(powerups, n - 1, time, oldTime);
      prev + (if WearOffSound(powerups[n - 1], time, oldTime) then [n - 1] else [])
  }

  /** One more powerup adds its index exactly when its wear-off sound plays. */
  lemma WearingOffStep(powerups: seq<int>, i: nat, time: int, oldTime: int)
    requires i < |powerups|
    ensures WearingOff(powerups, i + 1, time, oldTime)
      == WearingOff(powerups, i, time, oldTime) + (if WearOffSound(powerups[i], time, oldTime) then [i] else [])
  {
  }

  // ---------------------------------------------------------------------------
  // The announcer-sound ring, on values.

  /** i % MAX_SOUNDBUFFER for 0 <= i < 2 * MAX_SOUNDBUFFER, without the division. */
  function Wrap(i: int): (r: int)
    requires 0 <= i < 2 * MAX_SOUNDBUFFER
    ensures 0 <= r < MAX_SOUNDBUFFER && r == i % MAX_SOUNDBUFFER
  {
    if i < MAX_SOUNDBUFFER then i else i - MAX_SOUNDBUFFER
  }

  /** The number of sounds waiting from slot out up to slot in, around the ring. */
  function Span(inIdx: int, out: int): (n: nat)
    requires 0 <= inIdx < MAX_SOUNDBUFFER && 0 <= out < MAX_SOUNDBUFFER
    ensures n < MAX_SOUNDBUFFER && Wrap(out + n) == inIdx
  {
    Wrap(inIdx - out + MAX_SOUNDBUFFER)
  }

  /** The n sounds of the ring buf starting at slot out, oldest first. */
  ghost function Ring(buf: seq<int>, out: int, n: nat): (r: seq<int>)
    requires |buf| == MAX_SOUNDBUFFER && 0 <= out < MAX_SOUNDBUFFER && n <= MAX_SOUNDBUFFER
    ensures |r| == n
    ensures forall k :: 0 <= k < n ==> r[k] == buf[Wrap(out + k)]
  {
    seq(n, k requires 0 <= k < n => buf[Wrap(out + k)])
  }

  /** No slot of q holds the null sound handle. */
  predicate NonZero(q: seq<int>) {
    forall k :: 0 <= k < |q| ==> q[k] != 0
  }

  /** Writing at In and advancing In, while the ring has room: the sound is
      appended. */
  lemma RingPushRoom(buf: seq<int>, inIdx: int, out: int, sfx: int)
    requires |buf| == MAX_SOUNDBUFFER && 0 <= inIdx < MAX_SOUNDBUFFER && 0 <= out < MAX_SOUNDBUFFER
    requires Span(inIdx, out) < MAX_SOUNDBUFFER - 1
    ensures Wrap(inIdx + 1) != out
    ensures Ring(buf[inIdx := sfx], out, Span(Wrap(inIdx + 1), out)) == Ring(buf, out, Span(inIdx, out)) + [sfx]
  {
    var n := Span(inIdx, out);
    var q := Ring(buf, out, n);
    var q' := Ring(buf[inIdx := sfx], out, Span(Wrap(inIdx + 1), out));
    assert |q'| == n + 1;
    forall k | 0 <= k < n ensures q'[k] == q[k] {
    }
    assert q' == q + [sfx];
  }

  /** Writing at In and advancing In and Out when In runs into Out: the oldest
      sound is lost and the new one appended. */
  lemma RingPushFull(buf: seq<int>, inIdx: int, out: int, sfx: int)
    requires |buf| == MAX_SOUNDBUFFER && 0 <= inIdx < MAX_SOUNDBUFFER && 0 <= out < MAX_SOUNDBUFFER
    requires Span(inIdx, out) == MAX_SOUNDBUFFER - 1
    ensures Wrap(inIdx + 1) == out
    ensures var q := Ring(buf, out, Span(inIdx, out));
      Ring(buf[inIdx := sfx], Wrap(out + 1), Span(Wrap(inIdx + 1), Wrap(out + 1))) == q[1..] + [sfx]
  {
    var n := Span(inIdx, out);
    var out' := Wrap(out + 1);
    var q := Ring(buf, out, n);
    var q' := Ring(buf[inIdx := sfx], out', Span(Wrap(inIdx + 1), out'));
    assert |q'| == n;
    forall k | 0 <= k < n - 1 ensures q'[k] == q[k + 1] {
      assert Wrap(out' + k) == Wrap(out + k + 1);
    }
    assert q' == q[1..] + [sfx];
  }

  /** Writing at In and advancing In (and Out, when In runs into it) appends to
      the ring, losing the oldest sound only when 19 were already waiting. */
  lemma RingPush(buf: seq<int>, inIdx: int, out: int, sfx: int, buf': seq<int>, in': int, out': int)
    requires |buf| == MAX_SOUNDBUFFER && 0 <= inIdx < MAX_SOUNDBUFFER && 0 <= out < MAX_SOUNDBUFFER
    requires buf' == buf[inIdx := sfx] && in' == Wrap(inIdx + 1)
    requires out' == if in' == out then Wrap(out + 1) else out
    ensures var q := Ring(buf, out, Span(inIdx, out));
      var q' := Ring(buf', out', Span(in', out'));
      && (|q| < MAX_SOUNDBUFFER - 1 ==> q' == q + [sfx])
      && (|q| == MAX_SOUNDBUFFER - 1 ==> q' == q[1..] + [sfx])
      && (NonZero(q) && sfx != 0 ==> NonZero(q'))
  {
    if Span(inIdx, out) < MAX_SOUNDBUFFER - 1 {
      RingPushRoom(buf, inIdx, out, sfx);
    } else {
      RingPushFull(buf, inIdx, out, sfx);
    }
  }

  /** Clearing the slot at Out and advancing Out takes the oldest sound off. */
  lemma RingPop(buf: seq<int>, inIdx: int, out: int)
    requires |buf| == MAX_SOUNDBUFFER && 0 <= inIdx < MAX_SOUNDBUFFER && 0 <= out < MAX_SOUNDBUFFER
    requires inIdx != out
    ensures var q := Ring(buf, out, Span(inIdx, out));
      var q' := Ring(buf[out := 0], Wrap(out + 1), Span(inIdx, Wrap(out + 1)));
      && q[0] == buf[out]
      && q' == q[1..]
      && (NonZero(q) ==> NonZero(q'))
  {
    var n := Span(inIdx, out);
    var out' := Wrap(out + 1);
    var q := Ring(buf, out, n);
    var q' := Ring(buf[out := 0], out', Span(inIdx, out'));
    assert |q'| == n - 1;
    forall k | 0 <= k < n - 1 ensures q'[k] == q[k + 1] {
      assert Wrap(out' + k) == Wrap(out + k + 1);
    }
    assert q' == q[1..];
  }

  /** The game state cg, reduced to the fields these operations read and write. */
  class ViewState {
    var time: int
    var oldTime: int
    var frametime: int
    var soundBuffer: array<int>
    var soundBufferIn: int
    var soundBufferOut: int
    var soundTime: int
    var zoomed: bool
    var zoomTime: int
    var refdefX: int
    var refdefY: int
    var refdefWidth: int
    var refdefHeight: int
    var testModelFrame: int
    var testModelSkin: int

    /** Both ring indices are slots of the sound buffer. */
    ghost predicate Valid()
      reads this
    {
      soundBuffer.Length == MAX_SOUNDBUFFER
      && 0 <= soundBufferIn < MAX_SOUNDBUFFER && 0 <= soundBufferOut < MAX_SOUNDBUFFER
    }

    /** The number of sounds waiting: from Out up to In, around the ring. */
    ghost function Pending(): nat
      reads this
      requires Valid()
    {
      Span(soundBufferIn, soundBufferOut)
    }

    /** The sounds waiting, oldest first. */
    ghost function Queued(): seq<int>
      reads this, soundBuffer
      requires Valid()
    {
      Ring(soundBuffer[..], soundBufferOut, Pending())
    }

    /** Every waiting sound is a real sound handle. */
    ghost predicate QueueValid()
      reads this, soundBuffer
    {
      Valid() && NonZero(Queued())
    }

    constructor ()
      ensures QueueValid() && Queued() == [] && fresh(soundBuffer)
      ensures soundBufferIn == 0 && soundBufferOut == 0
      ensures time == oldTime == soundTime == 0 && !zoomed
    {
      soundBuffer := new int[MAX_SOUNDBUFFER](_ => 0);
      soundBufferIn, soundBufferOut, soundTime := 0, 0, 0;
      time, oldTime, frametime := 0, 0, 0;
      zoomed, zoomTime := false, 0;
      refdefX, refdefY, refdefWidth, refdefHeight := 0, 0, 0, 0;
      testModelFrame, testModelSkin := 0, 0;
    }

    /** CG_AddBufferedSound with the head index kept inside the ring: queues sfx,
        dropping the oldest waiting sound when the ring is full (19 waiting). */
    method AddBufferedSound(sfx: int)
      requires QueueValid()
      modifies this`soundBufferIn, this`soundBufferOut, soundBuffer
      ensures QueueValid()
      ensures sfx == 0 ==>
        && soundBufferIn == old(soundBufferIn) && soundBufferOut == old(soundBufferOut)
        && soundBuffer[..] == old(soundBuffer[..])
      ensures sfx != 0 ==>
        && soundBuffer[..] == old(soundBuffer[..])[old(soundBufferIn) := sfx]
        && soundBufferIn == Wrap(old(soundBufferIn) + 1)
        && soundBufferOut == if soundBufferIn == old(soundBufferOut)
             then Wrap(old(soundBufferOut) + 1) else old(soundBufferOut)
      ensures sfx != 0 && |old(Queued())| < MAX_SOUNDBUFFER - 1 ==> Queued() == old(Queued()) + [sfx]
      ensures sfx != 0 && |old(Queued())| == MAX_SOUNDBUFFER - 1 ==> Queued() == old(Queued())[1..] + [sfx]
    {
      if sfx == 0 {
        return;
      }
      ghost var buf := soundBuffer[..];
      ghost var inIdx, out := soundBufferIn, soundBufferOut;
      ghost var q := Queued();
      soundBuffer[soundBufferIn] := sfx;
      var nextIn := Wrap(soundBufferIn + 1);
      var nextOut := if nextIn == soundBufferOut then Wrap(soundBufferOut + 1) else soundBufferOut;
      soundBufferIn, soundBufferOut := nextIn, nextOut;
      RingPush(buf, inIdx, out, sfx, soundBuffer[..], soundBufferIn, soundBufferOut);
      assert Queued() == Ring(soundBuffer[..], soundBufferOut, Span(soundBufferIn, soundBufferOut));
      assert q == Ring(buf, out, Span(inIdx, out));
    }

    /** CG_AddBufferedSound as written: when In catches up with Out, Out is
        incremented without wrapping, so it can reach MAX_SOUNDBUFFER. */
    method AddBufferedSoundAsWritten(sfx: int)
      requires soundBuffer.Length == MAX_SOUNDBUFFER
      requires 0 <= soundBufferIn < MAX_SOUNDBUFFER && 0 <= soundBufferOut <= MAX_SOUNDBUFFER
      modifies this`soundBufferIn, this`soundBufferOut, soundBuffer
      ensures 0 <= soundBufferIn < MAX_SOUNDBUFFER && 0 <= soundBufferOut <= MAX_SOUNDBUFFER
      ensures sfx == 0 ==>
        && soundBufferIn == old(soundBufferIn) && soundBufferOut == old(soundBufferOut)
        && soundBuffer[..] == old(soundBuffer[..])
      ensures sfx != 0 ==>
        && soundBuffer[..] == old(soundBuffer[..])[old(soundBufferIn) := sfx]
        && soundBufferIn == (old(soundBufferIn) + 1) % MAX_SOUNDBUFFER
        && soundBufferOut == if soundBufferIn == old(soundBufferOut)
             then old(soundBufferOut) + 1 else old(soundBufferOut)
    {
      if sfx == 0 {
        return;
      }
      soundBuffer[soundBufferIn] := sfx;
      soundBufferIn := (soundBufferIn + 1) % MAX_SOUNDBUFFER;
      if soundBufferIn == soundBufferOut {
        soundBufferOut := soundBufferOut + 1;
      }
    }

    /** CG_PlayBufferedSounds: at most one sound, and only once the gap since the
        last one has passed; the slot is cleared and the gap restarts. */
    method PlayBufferedSounds() returns (played: Option<int>)
      requires QueueValid()
      modifies this`soundBufferOut, this`soundTime, soundBuffer
      ensures QueueValid()
      ensures played.Some? <==> old(soundTime) < time && old(Queued()) != []
      ensures played.Some? ==>
        && played.value == old(Queued())[0]
        && Queued() == old(Queued())[1..]
        && soundBuffer[..] == old(soundBuffer[..])[old(soundBufferOut) := 0]
        && soundBufferOut == (old(soundBufferOut) + 1) % MAX_SOUNDBUFFER
        && soundTime == time + ANNOUNCER_GAP
      ensures played.None? ==>
        && soundBufferOut == old(soundBufferOut) && soundTime == old(soundTime)
        && soundBuffer[..] == old(soundBuffer[..])
    {
      played := None;
      if soundTime < time {
        ghost var buf := soundBuffer[..];
        ghost var out := soundBufferOut;
        if soundBufferOut != soundBufferIn {
          RingPop(buf, soundBufferIn, out);
        }
        if soundBufferOut != soundBufferIn && soundBuffer[soundBufferOut] != 0 {
          played := Some(soundBuffer[soundBufferOut]);
          soundBuffer[soundBufferOut] := 0;
          assert soundBuffer[..] == buf[out := 0];
          soundBufferOut := Wrap(soundBufferOut + 1);
          soundTime := time + ANNOUNCER_GAP;
        }
      }
    }

    /** CG_CalcVrect */
    method CalcVrect(intermission: bool, viewsize: int, vidWidth: int, vidHeight: int)
      returns (cvarWrite: Option<string>)
      modifies this`refdefX, this`refdefY, this`refdefWidth, this`refdefHeight
      ensures var size := ViewSize(intermission, viewsize).0;
        && cvarWrite == ViewSize(intermission, viewsize).1
        && refdefWidth == Extent(vidWidth, size) && refdefHeight == Extent(vidHeight, size)
        && refdefX == Offset(vidWidth, refdefWidth) && refdefY == Offset(vidHeight, refdefHeight)
    {
      var size: int;
      cvarWrite := None;
      if intermission {
        size := 100;
      } else if viewsize < 30 {
        cvarWrite := Some("30");
        size := 30;
      } else if viewsize > 100 {
        cvarWrite := Some("100");
        size := 100;
      } else {
        size := viewsize;
      }
      refdefWidth := CDiv(vidWidth * size, 100);
      refdefWidth := ClearLowBit(refdefWidth);
      refdefHeight := CDiv(vidHeight * size, 100);
      refdefHeight := ClearLowBit(refdefHeight);
      refdefX := CDiv(vidWidth - refdefWidth, 2);
      refdefY := CDiv(vidHeight - refdefHeight, 2);
    }

    /** CG_ZoomDown_f: zooms in; zoomTime moves only when the state changes, so a
        second call changes nothing. */
    method ZoomDown()
      modifies this`zoomed, this`zoomTime
      ensures zoomed
      ensures zoomTime == if old(zoomed) then old(zoomTime) else time
    {
      if zoomed {
        return;
      }
      zoomed := true;
      zoomTime := time;
    }

    /** CG_ZoomUp_f: the mirror image of ZoomDown. */
    method ZoomUp()
      modifies this`zoomed, this`zoomTime
      ensures !zoomed
      ensures zoomTime == if old(zoomed) then time else old(zoomTime)
    {
      if !zoomed {
        return;
      }
      zoomed := false;
      zoomTime := time;
    }

    /** CG_PowerupTimerSounds: the powerups, in index order, whose wear-off sound
        is started this frame. */
    method PowerupTimerSounds(powerups: seq<int>) returns (warned: seq<nat>)
      ensures warned == WearingOff(powerups, |powerups|, time, oldTime)
    {
      warned := [];
      var i := 0;
      while i < |powerups|
        invariant 0 <= i <= |powerups|
        invariant warned == WearingOff(powerups, i, time, oldTime)
      {
        WearingOffStep(powerups, i, time, oldTime);
        var t := powerups[i];
        if t <= time {
          i := i + 1;
          continue;
        }
        if t - time >= POWERUP_BLINKS * POWERUP_BLINK_TIME {
          i := i + 1;
          continue;
        }
        if CDiv(t - time, POWERUP_BLINK_TIME) != CDiv(t - oldTime, POWERUP_BLINK_TIME) {
          warned := warned + [i];
        }
        i := i + 1;
      }
    }

    /** The frame timing in CG_DrawActiveFrame, done once per frame (not again
        for the right eye of a stereo pair). */
    method UpdateFrameTime(stereoRight: bool)
      modifies this`frametime, this`oldTime
      ensures stereoRight ==> frametime == old(frametime) && oldTime == old(oldTime)
      ensures !stereoRight ==>
        && oldTime == time && frametime >= 0
        && frametime == if time >= old(oldTime) then time - old(oldTime) else 0
    {
      if !stereoRight {
        frametime := time - oldTime;
        if frametime < 0 {
          frametime := 0;
        }
        oldTime := time;
      }
    }

    /** CG_TestModelPrevFrame_f: one frame back, never below 0. */
    method TestModelPrevFrame()
      modifies this`testModelFrame
      ensures testModelFrame >= 0
      ensures testModelFrame == if old(testModelFrame) >= 1 then old(testModelFrame) - 1 else 0
    {
      testModelFrame := testModelFrame - 1;
      if testModelFrame < 0 {
        testModelFrame := 0;
      }
    }

    /** CG_TestModelPrevSkin_f: one skin back, never below 0. */
    method TestModelPrevSkin()
      modifies this`testModelSkin
      ensures testModelSkin >= 0
      ensures testModelSkin == if old(testModelSkin) >= 1 then old(testModelSkin) - 1 else 0
    {
      testModelSkin := testModelSkin - 1;
      if testModelSkin < 0 {
        testModelSkin := 0;
      }
    }
  }

  /** Starting from an empty queue, 39 announcer sounds buffered with none played
      in between leave the as-written Out index at MAX_SOUNDBUFFER, one past the
      last slot; CG_PlayBufferedSounds then reads soundBuffer[MAX_SOUNDBUFFER]. */
  method OutIndexOverrun() returns (out: int)
    ensures out == MAX_SOUNDBUFFER
  {
    var v := new ViewState();
    var j := 0;
    while j < 39
      invariant 0 <= j <= 39
      invariant fresh(v.soundBuffer) && v.soundBuffer.Length == MAX_SOUNDBUFFER
      invariant j < 20 ==> v.soundBufferIn == j && v.soundBufferOut == 0
      invariant j >= 20 ==> v.soundBufferIn == j - 20 && v.soundBufferOut == j - 19
    {
      v.AddBufferedSoundAsWritten(1);
      j := j + 1;
    }
    out := v.soundBufferOut;
  }
}
