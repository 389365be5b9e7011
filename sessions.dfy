/** Whole playback sessions: a timer driven by a sequence of frames from the
    frame loop. The run functions say which events a session emits; the
    oracles restate what the timer's test suite checks of those events; the
    lemmas show every run meets them; the session methods drive a real
    `AnimationTimer` and are proved to emit exactly the run. */
module Sessions {
  import opened Progress
  import opened Events
  import opened FrameSource
  import opened Timer

  /** A frame from the frame loop: time since the session started and time
      since the previous frame, in milliseconds. */
  datatype Frame = Frame(elapsed: real, delta: real)

  /** Elapsed times strictly increase from frame to frame. */
  predicate Increasing(fs: seq<Frame>)
    decreases |fs|
  {
    |fs| <= 1 || (fs[0].elapsed < fs[1].elapsed && Increasing(fs[1..]))
  }

  /** Elapsed times strictly increase, each step by less than `d`. */
  predicate Paced(d: real, fs: seq<Frame>)
    decreases |fs|
  {
    |fs| <= 1 || (fs[0].elapsed < fs[1].elapsed < fs[0].elapsed + d && Paced(d, fs[1..]))
  }

  predicate NonNegative(fs: seq<Frame>)
  {
    forall i :: 0 <= i < |fs| ==> 0.0 <= fs[i].elapsed
  }

  /** Some frame reaches the duration. */
  predicate Reaches(d: real, fs: seq<Frame>)
  {
    exists i :: 0 <= i < |fs| && fs[i].elapsed >= d
  }

  /** The elapsed time of the last frame, or `prev` when there is none. */
  function Until(prev: real, fs: seq<Frame>): (last: real)
  {
    if fs == [] then prev else fs[|fs| - 1].elapsed
  }

  // ---------------------------------------------------------------------
  // The events of a session, frame by frame

  /** A play-once session: frames are delivered until the one that reaches
      the duration, whose `stop` ends the subscription. */
  function PlayRun(d: real, forwards: bool, fs: seq<Frame>): (trace: seq<Event>)
    requires d > 0.0
    decreases |fs|
  {
    if fs == [] then []
    else
      OnceFrame(d, forwards, fs[0].elapsed, fs[0].delta)
      + if fs[0].elapsed >= d then [] else PlayRun(d, forwards, fs[1..])
  }

  /** A loop session from a given last tick. */
  function LoopRun(d: real, forwards: bool, lastTick: real, fs: seq<Frame>): (trace: seq<Event>)
    requires d > 0.0
    decreases |fs|
  {
    if fs == [] then []
    else
      LoopFrame(d, forwards, lastTick, fs[0].elapsed, fs[0].delta)
      + LoopRun(d, forwards, Frac(fs[0].elapsed / d), fs[1..])
  }

  /** A bounce session from a given direction and last tick. */
  function BounceRun(d: real, forwards: bool, lastTick: real, fs: seq<Frame>): (trace: seq<Event>)
    requires d > 0.0
    decreases |fs|
  {
    if fs == [] then []
    else
      var flipped := forwards != Wraps(d, lastTick, fs[0].elapsed);
      BounceFrame(d, forwards, lastTick, fs[0].elapsed, fs[0].delta)
      + BounceRun(d, flipped, Frac(fs[0].elapsed / d), fs[1..])
  }

  /** A play-once session neither loops nor bounces. */
  lemma {:induction false} PlayRunKeepsMode(d: real, forwards: bool, fs: seq<Frame>)
    requires d > 0.0
    ensures Loop !in PlayRun(d, forwards, fs) && Bounce !in PlayRun(d, forwards, fs)
    decreases |fs|
  {
    if fs != [] && fs[0].elapsed < d {
      PlayRunKeepsMode(d, forwards, fs[1..]);
    }
  }

  /** A loop session never ends itself and never bounces: one or two events
      per frame. */
  lemma {:induction false} LoopRunKeepsMode(d: real, forwards: bool, lastTick: real, fs: seq<Frame>)
    requires d > 0.0
    ensures var trace := LoopRun(d, forwards, lastTick, fs);
      |fs| <= |trace| <= 2 * |fs| && Stop !in trace && Bounce !in trace
    decreases |fs|
  {
    if fs != [] {
      LoopRunKeepsMode(d, forwards, Frac(fs[0].elapsed / d), fs[1..]);
    }
  }

  /** A bounce session never ends itself and never loops: one or two events
      per frame. */
  lemma {:induction false} BounceRunKeepsMode(d: real, forwards: bool, lastTick: real, fs: seq<Frame>)
    requires d > 0.0
    ensures var trace := BounceRun(d, forwards, lastTick, fs);
      |fs| <= |trace| <= 2 * |fs| && Stop !in trace && Loop !in trace
    decreases |fs|
  {
    if fs != [] {
      var flipped := forwards != Wraps(d, lastTick, fs[0].elapsed);
      BounceRunKeepsMode(d, flipped, Frac(fs[0].elapsed / d), fs[1..]);
    }
  }

  // ---------------------------------------------------------------------
  // What the test suite checks of the events, as predicates

  /** Play-once tests: each `tick` lies in [0, 1] and beyond the previous
      one in the direction of play. */
  predicate PlayOracle(trace: seq<Event>, forwards: bool, lastTick: real)
    decreases |trace|
  {
    if trace == [] then true
    else match trace[0]
      case Tick(p, _) =>
        0.0 <= p <= 1.0 && (if forwards then lastTick < p else p < lastTick)
        && PlayOracle(trace[1..], forwards, p)
      case _ => PlayOracle(trace[1..], forwards, lastTick)
  }

  /** Loop tests: a `tick` moves on in the direction of play, except the
      first one after a `loop`, which moves back. */
  predicate LoopOracle(trace: seq<Event>, forwards: bool, lastTick: real, hasLooped: bool)
    decreases |trace|
  {
    if trace == [] then true
    else match trace[0]
      case Tick(p, _) =>
        (if forwards != hasLooped then lastTick < p else p < lastTick)
        && LoopOracle(trace[1..], forwards, p, false)
      case Loop => LoopOracle(trace[1..], forwards, lastTick, true)
      case _ => LoopOracle(trace[1..], forwards, lastTick, hasLooped)
  }

  /** Bounce test: ticks rise while going forwards and fall while going
      backwards; each `bounce` turns round and restarts the comparison. */
  predicate BounceOracle(trace: seq<Event>, goingForwards: bool, lastTick: real)
    decreases |trace|
  {
    if trace == [] then true
    else match trace[0]
      case Tick(p, _) =>
        (if goingForwards then lastTick < p else p < lastTick)
        && BounceOracle(trace[1..], goingForwards, p)
      case Bounce =>
        BounceOracle(trace[1..], !goingForwards, if goingForwards then 2.0 else -1.0)
      case _ => BounceOracle(trace[1..], goingForwards, lastTick)
  }

  // ---------------------------------------------------------------------
  // Play once

  /** Ticks of a play-once session stay in [0, 1] and move strictly in the
      direction of play. */
  lemma {:induction false} PlayRunOrdered(d: real, forwards: bool, lastTick: real, fs: seq<Frame>)
    requires d > 0.0 && Increasing(fs)
    requires fs != [] ==> 0.0 <= fs[0].elapsed
    requires fs != [] ==>
      var first := Directed(RawOnce(fs[0].elapsed, d), forwards);
      if forwards then lastTick < first else first < lastTick
    ensures PlayOracle(PlayRun(d, forwards, fs), forwards, lastTick)
    decreases |fs|
  {
    if fs != [] {
      var e := fs[0].elapsed;
      var p := Directed(RawOnce(e, d), forwards);
      var trace := PlayRun(d, forwards, fs);
      var rest := if e >= d then [] else PlayRun(d, forwards, fs[1..]);
      assert trace == [Tick(p, fs[0].delta)] + (if e >= d then [Stop] else []) + rest;
      if e >= d {
        assert trace[1..] == [Stop];
        assert PlayOracle(trace[1..][1..], forwards, p);
      } else {
        if fs[1..] != [] {
          RawOnceRises(e, fs[1].elapsed, d);
          DirectedOrder(RawOnce(e, d), RawOnce(fs[1].elapsed, d), forwards);
        }
        PlayRunOrdered(d, forwards, p, fs[1..]);
        assert trace[1..] == rest;
      }
    }
  }

  /** A play-once session emits `stop` exactly when some frame reaches the
      duration, and then once; until then it emits one `tick` per frame. */
  lemma {:induction false} PlayRunStops(d: real, forwards: bool, fs: seq<Frame>)
    requires d > 0.0
    ensures Count(PlayRun(d, forwards, fs), Stop) == if Reaches(d, fs) then 1 else 0
    ensures !Reaches(d, fs) ==> |PlayRun(d, forwards, fs)| == |fs|
    decreases |fs|
  {
    if fs != [] {
      var e := fs[0].elapsed;
      var head := OnceFrame(d, forwards, e, fs[0].delta);
      PlayRunStep(d, forwards, fs, 0);
      ReachesStep(d, fs, 0);
      assert fs[0..] == fs;
      if e < d {
        var rest := PlayRun(d, forwards, fs[1..]);
        PlayRunStops(d, forwards, fs[1..]);
        CountAppend(head, rest, Stop);
      }
    }
  }

  /** `trace` ends with a `tick` of `last` followed by `stop`. */
  predicate EndsStopped(trace: seq<Event>, last: real)
  {
    |trace| >= 2 && trace[|trace| - 1] == Stop
    && trace[|trace| - 2].Tick? && trace[|trace| - 2].progress == last
  }

  lemma EndsStoppedAfter(head: seq<Event>, rest: seq<Event>, last: real)
    requires EndsStopped(rest, last)
    ensures EndsStopped(head + rest, last)
  {
    var trace := head + rest;
    assert trace[|trace| - 1] == rest[|rest| - 1] && trace[|trace| - 2] == rest[|rest| - 2];
  }

  /** The `stop` of a play-once session is its last event, right after a
      `tick` of 1 (0 when playing backwards). */
  lemma {:induction false} PlayRunEnds(d: real, forwards: bool, fs: seq<Frame>)
    requires d > 0.0 && Reaches(d, fs)
    ensures EndsStopped(PlayRun(d, forwards, fs), if forwards then 1.0 else 0.0)
    decreases |fs|
  {
    var e := fs[0].elapsed;
    var head := OnceFrame(d, forwards, e, fs[0].delta);
    if e >= d {
      assert PlayRun(d, forwards, fs) == head;
    } else {
      ReachesStep(d, fs, 0);
      assert fs[0..] == fs;
      PlayRunEnds(d, forwards, fs[1..]);
      EndsStoppedAfter(head, PlayRun(d, forwards, fs[1..]), if forwards then 1.0 else 0.0);
    }
  }

  // ---------------------------------------------------------------------
  // Loop and bounce: counting wraps

  /** Turns the order of two frames into facts about their wrap. */
  lemma StepWrap(d: real, prev: real, e: real)
    requires d > 0.0 && 0.0 <= prev <= e < prev + d
    ensures (e / d).Floor == (prev / d).Floor || (e / d).Floor == (prev / d).Floor + 1
    ensures Wraps(d, Frac(prev / d), e) <==> (e / d).Floor == (prev / d).Floor + 1
    ensures prev < e && !Wraps(d, Frac(prev / d), e) ==> Frac(prev / d) < Frac(e / d)
  {
    Scaled(prev, e, d);
    WrapDetected(prev / d, e / d);
  }

  /** The number of `loop` events is the number of whole durations elapsed
      since `prev`, provided no step is as long as the duration. */
  lemma {:induction false} LoopRunCount(d: real, forwards: bool, prev: real, fs: seq<Frame>)
    requires d > 0.0 && 0.0 <= prev && Paced(d, fs)
    requires fs != [] ==> prev <= fs[0].elapsed < prev + d
    ensures Count(LoopRun(d, forwards, Frac(prev / d), fs), Loop) == (Until(prev, fs) / d).Floor - (prev / d).Floor
    decreases |fs|
  {
    if fs != [] {
      var e := fs[0].elapsed;
      var head := LoopFrame(d, forwards, Frac(prev / d), e, fs[0].delta);
      var rest := LoopRun(d, forwards, Frac(e / d), fs[1..]);
      StepWrap(d, prev, e);
      assert LoopRun(d, forwards, Frac(prev / d), fs) == head + rest;
      assert Count(head, Loop) == if (e / d).Floor == (prev / d).Floor + 1 then 1 else 0;
      CountAppend(head, rest, Loop);
      LoopRunCount(d, forwards, e, fs[1..]);
      assert Until(e, fs[1..]) == Until(prev, fs);
    }
  }

  /** The same count for `bounce` events, whatever the direction. */
  lemma {:induction false} BounceRunCount(d: real, forwards: bool, prev: real, fs: seq<Frame>)
    requires d > 0.0 && 0.0 <= prev && Paced(d, fs)
    requires fs != [] ==> prev <= fs[0].elapsed < prev + d
    ensures Count(BounceRun(d, forwards, Frac(prev / d), fs), Bounce) == (Until(prev, fs) / d).Floor - (prev / d).Floor
    decreases |fs|
  {
    if fs != [] {
      var e := fs[0].elapsed;
      var flipped := forwards != Wraps(d, Frac(prev / d), e);
      var head := BounceFrame(d, forwards, Frac(prev / d), e, fs[0].delta);
      var rest := BounceRun(d, flipped, Frac(e / d), fs[1..]);
      StepWrap(d, prev, e);
      assert BounceRun(d, forwards, Frac(prev / d), fs) == head + rest;
      assert Count(head, Bounce) == if (e / d).Floor == (prev / d).Floor + 1 then 1 else 0;
      CountAppend(head, rest, Bounce);
      BounceRunCount(d, flipped, e, fs[1..]);
      assert Until(e, fs[1..]) == Until(prev, fs);
    }
  }

  /** A session starts with no whole pass behind it. */
  lemma StartOfSession(d: real)
    requires d > 0.0
    ensures Frac(0.0 / d) == 0.0 && (0.0 / d).Floor == 0
  {
  }

  /** Between 400 ms and 440 ms into a 100 ms animation, four passes are
      complete. */
  lemma FourPasses(last: real)
    requires 400.0 <= last <= 440.0
    ensures (last / 100.0).Floor == 4
  {
    assert 4.0 <= last / 100.0 < 5.0;
  }

  /** The looping tests' scenario: duration 100 ms, stopped at 440 ms after a
      last frame no earlier than 400 ms, gives four loops. */
  lemma FourLoopsBy440(forwards: bool, fs: seq<Frame>)
    requires fs != [] && Paced(100.0, fs) && 0.0 <= fs[0].elapsed < 100.0
    requires 400.0 <= fs[|fs| - 1].elapsed <= 440.0
    ensures Count(LoopRun(100.0, forwards, 0.0, fs), Loop) == 4
  {
    StartOfSession(100.0);
    FourPasses(fs[|fs| - 1].elapsed);
    LoopRunCount(100.0, forwards, 0.0, fs);
  }

  /** The bouncing test's scenario, the same timing: four bounces. */
  lemma FourBouncesBy440(forwards: bool, fs: seq<Frame>)
    requires fs != [] && Paced(100.0, fs) && 0.0 <= fs[0].elapsed < 100.0
    requires 400.0 <= fs[|fs| - 1].elapsed <= 440.0
    ensures Count(BounceRun(100.0, forwards, 0.0, fs), Bounce) == 4
  {
    StartOfSession(100.0);
    FourPasses(fs[|fs| - 1].elapsed);
    BounceRunCount(100.0, forwards, 0.0, fs);
  }

  // ---------------------------------------------------------------------
  // Loop and bounce: order of ticks

  /** The relation between the tests' last seen tick and the timer's state:
      either the last tick shown is the timer's, or the session has just
      started and the tests' initial value lies outside [0, 1]. */
  predicate InStep(d: real, forwards: bool, prev: real, shown: real, fs: seq<Frame>)
    requires d > 0.0
  {
    (shown == Directed(Frac(prev / d), forwards) && (fs != [] ==> prev < fs[0].elapsed))
    || (Frac(prev / d) == 0.0 && if forwards then shown < 0.0 else shown > 1.0)
  }

  /** Loop ticks move on in the direction of play and jump back exactly on
      the frame of a `loop`. */
  lemma {:induction false} LoopRunOrdered(d: real, forwards: bool, prev: real, shown: real, fs: seq<Frame>)
    requires d > 0.0 && 0.0 <= prev && Paced(d, fs)
    requires fs != [] ==> prev <= fs[0].elapsed < prev + d
    requires InStep(d, forwards, prev, shown, fs)
    ensures LoopOracle(LoopRun(d, forwards, Frac(prev / d), fs), forwards, shown, false)
    decreases |fs|
  {
    if fs != [] {
      var e := fs[0].elapsed;
      var p := Frac(e / d);
      var tick := Tick(Directed(p, forwards), fs[0].delta);
      var rest := LoopRun(d, forwards, p, fs[1..]);
      var trace := LoopRun(d, forwards, Frac(prev / d), fs);
      StepWrap(d, prev, e);
      LoopRunOrdered(d, forwards, e, Directed(p, forwards), fs[1..]);
      if Wraps(d, Frac(prev / d), e) {
        assert trace == [Loop, tick] + rest;
        assert trace[1..][1..] == rest;
      } else {
        assert trace == [tick] + rest;
        assert trace[1..] == rest;
      }
    }
  }

  /** Bounce ticks rise while going forwards and fall while going backwards,
      the direction turning exactly at each `bounce`. */
  lemma {:induction false} BounceRunOrdered(d: real, forwards: bool, prev: real, shown: real, fs: seq<Frame>)
    requires d > 0.0 && 0.0 <= prev && Paced(d, fs)
    requires fs != [] ==> prev <= fs[0].elapsed < prev + d
    requires InStep(d, forwards, prev, shown, fs)
    ensures BounceOracle(BounceRun(d, forwards, Frac(prev / d), fs), forwards, shown)
    decreases |fs|
  {
    if fs != [] {
      var e := fs[0].elapsed;
      var p := Frac(e / d);
      var wraps := Wraps(d, Frac(prev / d), e);
      var flipped := forwards != wraps;
      var tick := Tick(Directed(p, flipped), fs[0].delta);
      var rest := BounceRun(d, flipped, p, fs[1..]);
      var trace := BounceRun(d, forwards, Frac(prev / d), fs);
      StepWrap(d, prev, e);
      BounceRunOrdered(d, flipped, e, Directed(p, flipped), fs[1..]);
      if wraps {
        assert trace == [Bounce, tick] + rest;
        assert trace[1..][1..] == rest;
      } else {
        assert trace == [tick] + rest;
        assert trace[1..] == rest;
      }
    }
  }

  // ---------------------------------------------------------------------
  // Facts about whole sessions, as the session methods below state them

  /** The events of a play-once session whose `stop` callback calls `play`
      again: `stop` once per session that reaches the duration. */
  lemma PlayTwiceStops(d: real, first: seq<Frame>, second: seq<Frame>)
    requires d > 0.0
    ensures Count(PlayRun(d, true, first) + if Reaches(d, first) then PlayRun(d, true, second) else [], Stop)
      == if !Reaches(d, first) then 0 else if Reaches(d, second) then 2 else 1
  {
    PlayRunStops(d, true, first);
    PlayRunStops(d, true, second);
    CountAppend(PlayRun(d, true, first), if Reaches(d, first) then PlayRun(d, true, second) else [], Stop);
  }

  /** A loop session stopped from outside: one `loop` per whole duration and
      ticks that pass the looping tests' checks. */
  lemma LoopSessionFacts(d: real, forwards: bool, fs: seq<Frame>)
    requires d > 0.0 && Paced(d, fs) && (fs != [] ==> 0.0 <= fs[0].elapsed < d)
    ensures Count(LoopRun(d, forwards, 0.0, fs) + [Stop], Loop) == (Until(0.0, fs) / d).Floor
    ensures LoopOracle(LoopRun(d, forwards, 0.0, fs), forwards, if forwards then -1.0 else 2.0, false)
  {
    StartOfSession(d);
    LoopRunCount(d, forwards, 0.0, fs);
    CountAppend(LoopRun(d, forwards, 0.0, fs), [Stop], Loop);
    LoopRunOrdered(d, forwards, 0.0, if forwards then -1.0 else 2.0, fs);
  }

  /** A bounce session stopped from outside: one `bounce` per whole duration
      and ticks that pass the bouncing test's checks. */
  lemma BounceSessionFacts(d: real, fs: seq<Frame>)
    requires d > 0.0 && Paced(d, fs) && (fs != [] ==> 0.0 <= fs[0].elapsed < d)
    ensures Count(BounceRun(d, true, 0.0, fs) + [Stop], Bounce) == (Until(0.0, fs) / d).Floor
    ensures BounceOracle(BounceRun(d, true, 0.0, fs), true, -1.0)
  {
    StartOfSession(d);
    BounceRunCount(d, true, 0.0, fs);
    CountAppend(BounceRun(d, true, 0.0, fs), [Stop], Bounce);
    BounceRunOrdered(d, true, 0.0, -1.0, fs);
  }

  // ---------------------------------------------------------------------
  // Driving a timer

  lemma PlayRunStep(d: real, forwards: bool, fs: seq<Frame>, i: nat)
    requires d > 0.0 && i < |fs|
    ensures PlayRun(d, forwards, fs[i..]) == OnceFrame(d, forwards, fs[i].elapsed, fs[i].delta)
      + if fs[i].elapsed >= d then [] else PlayRun(d, forwards, fs[i + 1..])
  {
    assert fs[i..][1..] == fs[i + 1..];
  }

  lemma LoopRunStep(d: real, forwards: bool, lastTick: real, fs: seq<Frame>, i: nat)
    requires d > 0.0 && i < |fs|
    ensures LoopRun(d, forwards, lastTick, fs[i..]) == LoopFrame(d, forwards, lastTick, fs[i].elapsed, fs[i].delta)
      + LoopRun(d, forwards, Frac(fs[i].elapsed / d), fs[i + 1..])
  {
    assert fs[i..][1..] == fs[i + 1..];
  }

  lemma BounceRunStep(d: real, forwards: bool, lastTick: real, fs: seq<Frame>, i: nat)
    requires d > 0.0 && i < |fs|
    ensures BounceRun(d, forwards, lastTick, fs[i..]) == BounceFrame(d, forwards, lastTick, fs[i].elapsed, fs[i].delta)
      + BounceRun(d, forwards != Wraps(d, lastTick, fs[i].elapsed), Frac(fs[i].elapsed / d), fs[i + 1..])
  {
    assert fs[i..][1..] == fs[i + 1..];
  }

  lemma ReachesStep(d: real, fs: seq<Frame>, i: nat)
    requires i < |fs|
    ensures Reaches(d, fs[i..]) <==> fs[i].elapsed >= d || Reaches(d, fs[i + 1..])
    ensures Reaches(d, fs[i..]) ==> Reaches(d, fs)
  {
    if Reaches(d, fs[i..]) {
      var j :| 0 <= j < |fs[i..]| && fs[i..][j].elapsed >= d;
      assert fs[i + j].elapsed >= d;
      if j > 0 {
        assert fs[i + 1..][j - 1] == fs[i + j];
      }
    }
    if Reaches(d, fs[i + 1..]) {
      var j :| 0 <= j < |fs[i + 1..]| && fs[i + 1..][j].elapsed >= d;
      assert fs[i..][j + 1] == fs[i + 1..][j];
    }
  }

  /** Delivers frame `i` to a play-once subscription still registered. */
  method PlayOnceStep(t: AnimationTimer, fs: seq<Frame>, i: nat)
    requires t.Valid() && t.handle != null && t.handle.registered && i < |fs|
    modifies t, t.handle
    ensures t.Valid() && t.handle == old(t.handle)
    ensures t.duration == old(t.duration) && t.forwards == old(t.forwards) && t.fn == old(t.fn)
    ensures t.handle.registered == (fs[i].elapsed < t.duration as real)
    ensures t.state == if t.handle.registered then old(t.state) else IDLE
    ensures t.handle.registered ==>
      t.events + PlayRun(t.duration as real, t.forwards, fs[i + 1..])
      == old(t.events) + PlayRun(t.duration as real, t.forwards, fs[i..])
    ensures !t.handle.registered ==>
      t.events == old(t.events) + PlayRun(t.duration as real, t.forwards, fs[i..])
  {
    PlayRunStep(t.duration as real, t.forwards, fs, i);
    t.PlayOnceHandler(fs[i].elapsed, fs[i].delta, t.handle);
  }

  /** Delivers frames to a play-once subscription until it is stopped. */
  method FeedPlayOnce(t: AnimationTimer, fs: seq<Frame>)
    requires t.Valid() && t.handle != null && t.handle.registered
    modifies t, t.handle
    ensures t.Valid() && t.handle == old(t.handle)
    ensures t.duration == old(t.duration) && t.forwards == old(t.forwards) && t.fn == old(t.fn)
    ensures t.events == old(t.events) + PlayRun(t.duration as real, t.forwards, fs)
    ensures t.state == if Reaches(t.duration as real, fs) then IDLE else old(t.state)
    ensures t.handle.registered == !Reaches(t.duration as real, fs)
  {
    var sub := t.handle;
    var d := t.duration as real;
    var forwards := t.forwards;
    ghost var start := t.events;
    ghost var whole := PlayRun(d, forwards, fs);
    var i := 0;
    while i < |fs| && sub.registered
      invariant 0 <= i <= |fs|
      invariant t.Valid() && t.handle == sub && t.duration as real == d
      invariant t.forwards == forwards && t.fn == old(t.fn)
      invariant sub.registered ==> (Reaches(d, fs) <==> Reaches(d, fs[i..]))
      invariant !sub.registered ==> Reaches(d, fs)
      invariant t.state == if sub.registered then old(t.state) else IDLE
      invariant sub.registered ==> t.events + PlayRun(d, forwards, fs[i..]) == start + whole
      invariant !sub.registered ==> t.events == start + whole
    {
      ReachesStep(d, fs, i);
      PlayOnceStep(t, fs, i);
      i := i + 1;
    }
    if sub.registered {
      assert !Reaches(d, fs[i..]);
    }
  }

  /** Delivers frame `i` to a loop subscription. */
  method LoopStep(t: AnimationTimer, fs: seq<Frame>, i: nat)
    requires t.Valid() && i < |fs| && 0.0 <= fs[i].elapsed
    modifies t
    ensures t.Valid() && t.handle == old(t.handle) && t.state == old(t.state)
    ensures t.duration == old(t.duration) && t.forwards == old(t.forwards) && t.fn == old(t.fn)
    ensures t.events + LoopRun(t.duration as real, t.forwards, t.lastTick, fs[i + 1..])
      == old(t.events) + LoopRun(t.duration as real, t.forwards, old(t.lastTick), fs[i..])
  {
    LoopRunStep(t.duration as real, t.forwards, t.lastTick, fs, i);
    t.LoopHandler(fs[i].elapsed, fs[i].delta);
  }

  /** Delivers frame `i` to a bounce subscription. */
  method BounceStep(t: AnimationTimer, fs: seq<Frame>, i: nat)
    requires t.Valid() && i < |fs| && 0.0 <= fs[i].elapsed
    modifies t
    ensures t.Valid() && t.handle == old(t.handle) && t.state == old(t.state)
    ensures t.duration == old(t.duration) && t.fn == old(t.fn)
    ensures t.events + BounceRun(t.duration as real, t.forwards, t.lastTick, fs[i + 1..])
      == old(t.events) + BounceRun(t.duration as real, old(t.forwards), old(t.lastTick), fs[i..])
  {
    BounceRunStep(t.duration as real, t.forwards, t.lastTick, fs, i);
    t.BounceHandler(fs[i].elapsed, fs[i].delta);
  }

  /** Delivers every frame to a loop subscription. */
  method FeedLoop(t: AnimationTimer, fs: seq<Frame>)
    requires t.Valid() && NonNegative(fs)
    modifies t
    ensures t.Valid() && t.handle == old(t.handle) && t.state == old(t.state)
    ensures t.duration == old(t.duration) && t.forwards == old(t.forwards) && t.fn == old(t.fn)
    ensures t.events == old(t.events) + LoopRun(t.duration as real, t.forwards, old(t.lastTick), fs)
  {
    var d := t.duration as real;
    ghost var start := t.events;
    ghost var whole := LoopRun(d, t.forwards, t.lastTick, fs);
    var i := 0;
    while i < |fs|
      invariant 0 <= i <= |fs|
      invariant t.Valid() && t.duration as real == d && t.handle == old(t.handle) && t.state == old(t.state)
      invariant t.forwards == old(t.forwards) && t.fn == old(t.fn)
      invariant t.events + LoopRun(d, t.forwards, t.lastTick, fs[i..]) == start + whole
    {
      LoopStep(t, fs, i);
      i := i + 1;
    }
  }

  /** Delivers every frame to a bounce subscription. */
  method FeedBounce(t: AnimationTimer, fs: seq<Frame>)
    requires t.Valid() && NonNegative(fs)
    modifies t
    ensures t.Valid() && t.handle == old(t.handle) && t.state == old(t.state)
    ensures t.duration == old(t.duration) && t.fn == old(t.fn)
    ensures t.events == old(t.events) + BounceRun(t.duration as real, old(t.forwards), old(t.lastTick), fs)
  {
    var d := t.duration as real;
    ghost var start := t.events;
    ghost var whole := BounceRun(d, t.forwards, t.lastTick, fs);
    var i := 0;
    while i < |fs|
      invariant 0 <= i <= |fs|
      invariant t.Valid() && t.duration as real == d && t.handle == old(t.handle) && t.state == old(t.state)
      invariant t.fn == old(t.fn)
      invariant t.events + BounceRun(d, t.forwards, t.lastTick, fs[i..]) == start + whole
    {
      BounceStep(t, fs, i);
      i := i + 1;
    }
  }

  /** Starts a play-once session, `play()` or `reverse()`, and delivers
      frames to it until it stops. */
  method PlayFrames(t: AnimationTimer, forwards: bool, fs: seq<Frame>)
    requires t.Valid()
    modifies t
    ensures t.Valid() && t.duration == old(t.duration) && t.fn == old(t.fn) && t.forwards == forwards
    ensures t.events == old(t.events) + PlayRun(t.duration as real, forwards, fs)
    ensures t.state == if Reaches(t.duration as real, fs) then IDLE else PLAYONCE
    ensures fresh(t.handle) && t.handle.registered == !Reaches(t.duration as real, fs)
  {
    if forwards {
      t.Play();
    } else {
      t.Reverse();
    }
    FeedPlayOnce(t, fs);
  }

  /** `play()` (or `reverse()`) run over a sequence of frames, as in the
      first play-once tests: ticks in [0, 1], strictly rising (falling), and
      exactly one `stop` if the duration is reached. */
  method PlaySession(d: nat, forwards: bool, fs: seq<Frame>) returns (trace: seq<Event>)
    requires d > 0
    ensures trace == PlayRun(d as real, forwards, fs)
    ensures Count(trace, Stop) == if Reaches(d as real, fs) then 1 else 0
    ensures Increasing(fs) && NonNegative(fs) ==>
      PlayOracle(trace, forwards, if forwards then -1.0 else 2.0)
  {
    var t := new AnimationTimer();
    t.Duration(d);
    PlayFrames(t, forwards, fs);
    trace := t.events;
    PlayRunStops(d as real, forwards, fs);
    if Increasing(fs) && NonNegative(fs) {
      PlayRunOrdered(d as real, forwards, if forwards then -1.0 else 2.0, fs);
    }
  }

  /** The test where the `stop` callback calls `play()` again: because the
      state is already IDLE and the subscription stopped when `stop` is
      emitted, the second session starts afresh and emits its own `stop`. */
  method PlayAgainOnStop(d: nat, first: seq<Frame>, second: seq<Frame>) returns (trace: seq<Event>)
    requires d > 0
    ensures trace == PlayRun(d as real, true, first)
      + if Reaches(d as real, first) then PlayRun(d as real, true, second) else []
    ensures Count(trace, Stop) ==
      if !Reaches(d as real, first) then 0
      else if Reaches(d as real, second) then 2 else 1
  {
    var t := new AnimationTimer();
    t.Duration(d);
    PlayFrames(t, true, first);
    assert t.events == PlayRun(d as real, true, first);
    if t.state == IDLE {
      assert Reaches(d as real, first);
      PlayFrames(t, true, second);
      trace := t.events;
    } else {
      trace := t.events;
      assert trace == trace + [];
    }
    PlayTwiceStops(d as real, first, second);
  }

  /** `loop()` (or `loopReverse()`) run over a sequence of frames and then
      stopped from outside, as in the looping tests. */
  method LoopSession(d: nat, forwards: bool, fs: seq<Frame>) returns (trace: seq<Event>)
    requires d > 0 && NonNegative(fs)
    ensures trace == LoopRun(d as real, forwards, 0.0, fs) + [Stop]
    ensures Paced(d as real, fs) && (fs != [] ==> fs[0].elapsed < d as real) ==>
      Count(trace, Loop) == (Until(0.0, fs) / d as real).Floor
      && LoopOracle(LoopRun(d as real, forwards, 0.0, fs), forwards, if forwards then -1.0 else 2.0, false)
  {
    var t := new AnimationTimer();
    t.Duration(d);
    if forwards {
      t.Loop();
    } else {
      t.LoopReverse();
    }
    FeedLoop(t, fs);
    t.Stop();
    trace := t.events;
    if Paced(d as real, fs) && (fs != [] ==> fs[0].elapsed < d as real) {
      LoopSessionFacts(d as real, forwards, fs);
    }
  }

  /** `bounce()` run over a sequence of frames and then stopped from
      outside, as in the bouncing test. */
  method BounceSession(d: nat, fs: seq<Frame>) returns (trace: seq<Event>)
    requires d > 0 && NonNegative(fs)
    ensures trace == BounceRun(d as real, true, 0.0, fs) + [Stop]
    ensures Paced(d as real, fs) && (fs != [] ==> fs[0].elapsed < d as real) ==>
      Count(trace, Bounce) == (Until(0.0, fs) / d as real).Floor
      && BounceOracle(BounceRun(d as real, true, 0.0, fs), true, -1.0)
  {
    var t := new AnimationTimer();
    t.Duration(d);
    t.Bounce();
    FeedBounce(t, fs);
    t.Stop();
    trace := t.events;
    if Paced(d as real, fs) && (fs != [] ==> fs[0].elapsed < d as real) {
      BounceSessionFacts(d as real, fs);
    }
  }

  // ---------------------------------------------------------------------
  // Stop, pause and resume as written

  /** `stop()` on a timer that never started: IDLE, and nothing emitted. */
  method StopBeforeStart() returns (trace: seq<Event>, state: int)
    ensures trace == [] && state == IDLE
  {
    var t := new AnimationTimer();
    t.Stop();
    trace, state := t.events, t.State();
  }

  /** `stop()` twice: the subscription is never cleared, so each call emits
      `stop`. */
  method StopTwice() returns (trace: seq<Event>, state: int)
    ensures trace == [Stop, Stop] && state == IDLE
  {
    var t := new AnimationTimer();
    t.Play();
    t.Stop();
    t.Stop();
    trace, state := t.events, t.State();
  }

  /** `stop()` after a play-once session ended by itself emits a second
      `stop`. */
  method StopAfterCompletion(d: nat, delta: real) returns (trace: seq<Event>)
    requires d > 0
    ensures trace == [Tick(1.0, delta), Stop, Stop]
  {
    var t := new AnimationTimer();
    t.Duration(d);
    t.Play();
    t.PlayOnceHandler(d as real, delta, t.handle);
    t.Stop();
    trace := t.events;
  }

  /** `pause()` then `resume()` restores the state value exactly and leaves
      the subscription running again. */
  method PauseThenResume(t: AnimationTimer)
    requires t.Valid()
    modifies t, t.handle
    ensures t.Valid() && t.state == old(t.state) && t.handle == old(t.handle)
    ensures t.handle != null ==> !t.handle.paused && t.handle.registered == old(t.handle.registered)
    ensures t.duration == old(t.duration) && t.forwards == old(t.forwards) && t.lastTick == old(t.lastTick)
    ensures t.fn == old(t.fn) && t.events == old(t.events)
  {
    t.Pause();
    t.Resume();
  }

  /** `resume()` without a `pause()` drives the state below IDLE. */
  method ResumeWithoutPause() returns (state: int)
    ensures state == IDLE - PAUSED
  {
    var t := new AnimationTimer();
    t.Resume();
    state := t.State();
  }

  /** Starting a session while another runs leaves the old subscription
      registered: both handlers keep receiving frames. */
  method RestartLeavesOldSubscription() returns (first: Subscription, second: Subscription)
    ensures first != second && first.registered && second.registered
    ensures first.handler == PlayOnceFrames && second.handler == LoopFrames
  {
    var t := new AnimationTimer();
    t.Play();
    first := t.handle;
    t.Loop();
    second := t.handle;
  }

  /** A consequence: a frame of the old play-once subscription that reaches
      the duration sets the looping timer to IDLE and emits `stop`, while the
      loop subscription stays registered. */
  method OldSubscriptionStopsLoop(d: nat, delta: real) returns (trace: seq<Event>, state: int, looping: bool)
    requires d > 0
    ensures trace == [Tick(1.0, delta), Stop] && state == IDLE && looping
  {
    var t := new AnimationTimer();
    t.Duration(d);
    t.Play();
    var first := t.handle;
    t.Loop();
    var second := t.handle;
    t.PlayOnceHandler(d as real, delta, first);
    trace, state, looping := t.events, t.State(), second.registered;
  }
}
