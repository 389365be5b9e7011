/** The animation timer: turns the elapsed time of one subscription to the
    frame loop into normalised progress and emits `tick`, `stop`, `loop` and
    `bounce`. */
module Timer {
  import opened Progress
  import opened Events
  import opened FrameSource

  // The state flags. FORWARD and BACKWARD are declared by the timer but it
  // never uses them: the direction is kept in a separate boolean.
  const IDLE: int := 0
  const PLAYONCE: int := 1
  const LOOP: int := 2
  const BOUNCE: int := 4
  const FORWARD: int := 8
  const BACKWARD: int := 16
  const PAUSED: int := 32

  /** The first argument of `on`: an event name (registered only together
      with a callback), a mapping of names to callbacks, or anything else,
      which only draws a warning. */
  datatype OnTarget =
    | EventName(name: string)
    | EventMap(entries: seq<(string, HandlerId)>)
    | Unbindable

  class AnimationTimer {
    /** Duration of one pass, in milliseconds. */
    var duration: nat
    /** IDLE, PLAYONCE, LOOP or BOUNCE, with PAUSED added by each `Pause`
        and subtracted by each `Resume`. */
    var state: int
    var forwards: bool
    /** The fractional progress seen on the previous loop or bounce frame. */
    var lastTick: real
    /** The most recent subscription; never cleared once assigned. */
    var handle: Subscription?
    /** Registered callbacks, at most one per event name. */
    var fn: map<string, HandlerId>
    /** Every event triggered so far, in order. */
    var events: seq<Event>
    /** For each `stop` emitted, the state at that moment and whether the
        subscription it concerns was still registered: a `stop` callback
        sees the timer already IDLE and the subscription already stopped. */
    ghost var stopLog: seq<(int, bool)>

    ghost predicate Valid()
      reads this
    {
      duration > 0 && 0.0 <= lastTick < 1.0
    }

    /** A new timer: one second, idle, no callbacks, no subscription. The
        direction and last tick are undefined until a session starts; they
        are given arbitrary valid values here. */
    constructor ()
      ensures Valid()
      ensures duration == 1000 && state == IDLE && handle == null
      ensures fn == map[] && events == [] && stopLog == []
    {
      duration := 1000;
      state := IDLE;
      forwards := true;
      lastTick := 0.0;
      handle := null;
      fn := map[];
      events := [];
      stopLog := [];
    }

    /** Sets the duration. Takes effect on the next frame, also in a session
        already running. */
    method Duration(ms: nat)
      requires Valid() && ms > 0
      modifies this
      ensures Valid() && duration == ms
      ensures state == old(state) && forwards == old(forwards) && lastTick == old(lastTick)
      ensures handle == old(handle) && fn == old(fn) && events == old(events)
      ensures stopLog == old(stopLog)
    {
      duration := ms;
    }

    /** Registers callbacks: one name with a callback, or a whole mapping;
        any other input leaves the registrations as they were. */
    method On(target: OnTarget, callback: Option<HandlerId>)
      requires Valid()
      modifies this
      ensures Valid()
      ensures target.EventName? && callback.Some? ==> fn == old(fn)[target.name := callback.value]
      ensures target.EventMap? ==> fn == Bind(old(fn), target.entries)
      ensures target.Unbindable? || (target.EventName? && callback.None?) ==> fn == old(fn)
      ensures duration == old(duration) && state == old(state) && forwards == old(forwards)
      ensures lastTick == old(lastTick) && handle == old(handle) && events == old(events)
      ensures stopLog == old(stopLog)
    {
      if target.EventName? && callback.Some? {
        fn := fn[target.name := callback.value];
      } else if target.EventMap? {
        var entries := target.entries;
        var i := 0;
        while i < |entries|
          invariant 0 <= i <= |entries|
          invariant fn == Bind(old(fn), entries[..i])
          modifies this`fn
        {
          assert entries[..i + 1][..i] == entries[..i];
          fn := fn[entries[i].0 := entries[i].1];
          i := i + 1;
        }
        assert entries[..|entries|] == entries;
      }
    }

    /** Emits an event; the callback registered under its name, if any, is
        the one invoked. */
    method Trigger(e: Event) returns (callee: Option<HandlerId>)
      modifies this
      ensures events == old(events) + [e]
      ensures callee == Callee(fn, Name(e))
      ensures duration == old(duration) && state == old(state) && forwards == old(forwards)
      ensures lastTick == old(lastTick) && handle == old(handle) && fn == old(fn)
      ensures stopLog == old(stopLog)
    {
      events := events + [e];
      callee := if Name(e) in fn then Some(fn[Name(e)]) else None;
    }

    /** Emits `stop` on behalf of subscription `s`, recording the state and
        `s`'s registration at that moment. */
    method EmitStop(s: Subscription)
      modifies this
      ensures events == old(events) + [Event.Stop]
      ensures stopLog == old(stopLog) + [(state, s.registered)]
      ensures duration == old(duration) && state == old(state) && forwards == old(forwards)
      ensures lastTick == old(lastTick) && handle == old(handle) && fn == old(fn)
    {
      var callee := Trigger(Event.Stop);
      stopLog := stopLog + [(state, s.registered)];
    }

    /** The prelude shared by the five start operations: reset the last tick,
        set mode and direction, and subscribe a fresh handler. A subscription
        installed earlier is not stopped. */
    method Start(mode: int, forward: bool, handler: Handler)
      requires Valid()
      modifies this
      ensures Valid()
      ensures lastTick == 0.0 && state == mode && forwards == forward
      ensures fresh(handle) && handle.handler == handler && handle.registered && !handle.paused
      ensures old(handle) != null ==> unchanged(old(handle))
      ensures duration == old(duration) && fn == old(fn) && events == old(events)
      ensures stopLog == old(stopLog)
    {
      lastTick := 0.0;
      state := mode;
      forwards := forward;
      handle := new Subscription(handler);
    }

    /** Plays through once, stopping at 1. */
    method Play()
      requires Valid()
      modifies this
      ensures Valid()
      ensures lastTick == 0.0 && state == PLAYONCE && forwards
      ensures fresh(handle) && handle.handler == PlayOnceFrames && handle.registered && !handle.paused
      ensures old(handle) != null ==> unchanged(old(handle))
      ensures duration == old(duration) && fn == old(fn) && events == old(events)
      ensures stopLog == old(stopLog)
    {
      Start(PLAYONCE, true, PlayOnceFrames);
    }

    /** Plays through once backwards, stopping at 0. */
    method Reverse()
      requires Valid()
      modifies this
      ensures Valid()
      ensures lastTick == 0.0 && state == PLAYONCE && !forwards
      ensures fresh(handle) && handle.handler == PlayOnceFrames && handle.registered && !handle.paused
      ensures old(handle) != null ==> unchanged(old(handle))
      ensures duration == old(duration) && fn == old(fn) && events == old(events)
      ensures stopLog == old(stopLog)
    {
      Start(PLAYONCE, false, PlayOnceFrames);
    }

    /** Plays from 0 to 1 repeatedly, once per duration. */
    method Loop()
      requires Valid()
      modifies this
      ensures Valid()
      ensures lastTick == 0.0 && state == LOOP && forwards
      ensures fresh(handle) && handle.handler == LoopFrames && handle.registered && !handle.paused
      ensures old(handle) != null ==> unchanged(old(handle))
      ensures duration == old(duration) && fn == old(fn) && events == old(events)
      ensures stopLog == old(stopLog)
    {
      Start(LOOP, true, LoopFrames);
    }

    /** Plays from 1 to 0 repeatedly, once per duration. */
    method LoopReverse()
      requires Valid()
      modifies this
      ensures Valid()
      ensures lastTick == 0.0 && state == LOOP && !forwards
      ensures fresh(handle) && handle.handler == LoopFrames && handle.registered && !handle.paused
      ensures old(handle) != null ==> unchanged(old(handle))
      ensures duration == old(duration) && fn == old(fn) && events == old(events)
      ensures stopLog == old(stopLog)
    {
      Start(LOOP, false, LoopFrames);
    }

    /** Alternates between forwards and backwards passes, one per duration. */
    method Bounce()
      requires Valid()
      modifies this
      ensures Valid()
      ensures lastTick == 0.0 && state == BOUNCE && forwards
      ensures fresh(handle) && handle.handler == BounceFrames && handle.registered && !handle.paused
      ensures old(handle) != null ==> unchanged(old(handle))
      ensures duration == old(duration) && fn == old(fn) && events == old(events)
      ensures stopLog == old(stopLog)
    {
      Start(BOUNCE, true, BounceFrames);
    }

    /** Stops immediately. The state becomes IDLE in any case; `stop` is
        emitted whenever a subscription was ever installed, also when it has
        already been stopped. */
    method Stop()
      requires Valid()
      modifies this, handle
      ensures Valid() && state == IDLE && handle == old(handle)
      ensures events == old(events) + if handle != null then [Event.Stop] else []
      ensures stopLog == old(stopLog) + if handle != null then [(IDLE, false)] else []
      ensures handle != null ==> !handle.registered && handle.paused == old(handle.paused)
      ensures duration == old(duration) && forwards == old(forwards)
      ensures lastTick == old(lastTick) && fn == old(fn)
    {
      state := IDLE;
      if handle != null {
        handle.Stop();
        EmitStop(handle);
      }
    }

    /** Pauses: adds PAUSED to the state and suspends the subscription. */
    method Pause()
      requires Valid()
      modifies this, handle
      ensures Valid() && state == old(state) + PAUSED && handle == old(handle)
      ensures handle != null ==> handle.paused && handle.registered == old(handle.registered)
      ensures duration == old(duration) && forwards == old(forwards) && lastTick == old(lastTick)
      ensures fn == old(fn) && events == old(events)
      ensures stopLog == old(stopLog)
    {
      state := state + PAUSED;
      if handle != null {
        handle.Pause();
      }
    }

    /** Resumes: subtracts PAUSED from the state and resumes the
        subscription. */
    method Resume()
      requires Valid()
      modifies this, handle
      ensures Valid() && state == old(state) - PAUSED && handle == old(handle)
      ensures handle != null ==> !handle.paused && handle.registered == old(handle.registered)
      ensures duration == old(duration) && forwards == old(forwards) && lastTick == old(lastTick)
      ensures fn == old(fn) && events == old(events)
      ensures stopLog == old(stopLog)
    {
      state := state - PAUSED;
      if handle != null {
        handle.Resume();
      }
    }

    /** The raw state value, flags and all. */
    function State(): (s: int)
      reads this
      ensures s == state
    {
      state
    }

    // -------------------------------------------------------------------
    // Per-frame handlers. `stop` is the subscription delivering the frame,
    // which need not be the current `handle`.

    /** One play-once frame: a `tick`; on reaching the duration, the state
        becomes IDLE and the subscription is stopped before `stop` is
        emitted, as the handler's last step. */
    method PlayOnceHandler(elapsed: real, delta: real, stop: Subscription)
      requires Valid()
      modifies this, stop
      ensures Valid()
      ensures events == old(events) + OnceFrame(duration as real, forwards, elapsed, delta)
      ensures stopLog == old(stopLog) + if elapsed >= duration as real then [(IDLE, false)] else []
      ensures state == if elapsed >= duration as real then IDLE else old(state)
      ensures stop.registered == (old(stop.registered) && elapsed < duration as real)
      ensures stop.paused == old(stop.paused)
      ensures duration == old(duration) && forwards == old(forwards) && lastTick == old(lastTick)
      ensures handle == old(handle) && fn == old(fn)
    {
      var percent := RawOnce(elapsed, duration as real);
      var callee := Trigger(Event.Tick(Directed(percent, forwards), delta));
      if percent == 1.0 {
        state := IDLE;
        stop.Stop();
        EmitStop(stop);
      }
    }

    /** One loop frame: `loop` on a wrap, then the `tick`. Never ends the
        session. */
    method LoopHandler(elapsed: real, delta: real)
      requires Valid() && 0.0 <= elapsed
      modifies this
      ensures Valid()
      ensures events == old(events) + LoopFrame(duration as real, forwards, old(lastTick), elapsed, delta)
      ensures lastTick == Frac(elapsed / duration as real)
      ensures state == old(state) && forwards == old(forwards) && duration == old(duration)
      ensures handle == old(handle) && fn == old(fn)
      ensures stopLog == old(stopLog)
    {
      var percent := Frac(elapsed / duration as real);
      var callee;
      if percent < lastTick {
        callee := Trigger(Event.Loop);
      }
      lastTick := percent;
      callee := Trigger(Event.Tick(Directed(percent, forwards), delta));
    }

    /** One bounce frame: on a wrap, `bounce` and a change of direction; then
        the `tick` in the current direction. Never ends the session. */
    method BounceHandler(elapsed: real, delta: real)
      requires Valid() && 0.0 <= elapsed
      modifies this
      ensures Valid()
      ensures events == old(events) + BounceFrame(duration as real, old(forwards), old(lastTick), elapsed, delta)
      ensures forwards == (old(forwards) != Wraps(duration as real, old(lastTick), elapsed))
      ensures lastTick == Frac(elapsed / duration as real)
      ensures state == old(state) && duration == old(duration)
      ensures handle == old(handle) && fn == old(fn)
      ensures stopLog == old(stopLog)
    {
      var percent := Frac(elapsed / duration as real);
      var callee;
      if percent < lastTick {
        callee := Trigger(Event.Bounce);
        forwards := !forwards;
      }
      lastTick := percent;
      callee := Trigger(Event.Tick(Directed(percent, forwards), delta));
    }
  }
}
