/** What the animation timer emits and to whom: the four events, the map of
    registered callbacks, and the events one frame of each playback mode
    produces. */
module Events {
  import opened Progress

  datatype Option<T> = None | Some(value: T)

  /** The identity of a caller-supplied callback. */
  type HandlerId = nat

  /** An emitted event. `tick` carries the reported progress and the frame's
      delta time; the timestamps carried by `stop` and `bounce` come from the
      frame source's clock and are not modelled. */
  datatype Event = Tick(progress: real, delta: real) | Stop | Loop | Bounce

  /** The name under which callers register for an event. */
  function Name(e: Event): (name: string)
    ensures name in {"tick", "stop", "loop", "bounce"}
    ensures e.Tick? <==> name == "tick"
  {
    match e
    case Tick(_, _) => "tick"
    case Stop => "stop"
    case Loop => "loop"
    case Bounce => "bounce"
  }

  /** How many times `e` occurs in `trace`. */
  function Count(trace: seq<Event>, e: Event): (n: nat)
    ensures n <= |trace|
    ensures n == 0 <==> e !in trace
  {
    if trace == [] then 0
    else (if trace[0] == e then 1 else 0) + Count(trace[1..], e)
  }

  lemma {:induction false} CountAppend(a: seq<Event>, b: seq<Event>, e: Event)
    ensures Count(a + b, e) == Count(a, e) + Count(b, e)
  {
    if a == [] {
      assert a + b == b;
    } else {
      assert (a + b)[1..] == a[1..] + b;
      CountAppend(a[1..], b, e);
    }
  }

  // ---------------------------------------------------------------------
  // Callback registration

  /** Registers each `(name, callback)` pair of a batch in turn, a later pair
      overwriting an earlier registration under the same name. */
  function Bind(fn: map<string, HandlerId>, entries: seq<(string, HandlerId)>): (r: map<string, HandlerId>)
    ensures r.Keys == fn.Keys + set e | e in entries :: e.0
    decreases |entries|
  {
    if entries == [] then fn
    else
      var last := entries[|entries| - 1];
      assert entries == entries[..|entries| - 1] + [last];
      Bind(fn, entries[..|entries| - 1])[last.0 := last.1]
  }

  /** The last pair registered under a name decides its callback. */
  lemma {:induction false} BindOverwrites(fn: map<string, HandlerId>, entries: seq<(string, HandlerId)>, i: nat)
    requires i < |entries|
    requires forall j :: i < j < |entries| ==> entries[j].0 != entries[i].0
    ensures entries[i].0 in Bind(fn, entries)
    ensures Bind(fn, entries)[entries[i].0] == entries[i].1
    decreases |entries|
  {
    if i < |entries| - 1 {
      var init := entries[..|entries| - 1];
      BindOverwrites(fn, init, i);
    }
  }

  /** A name the batch does not mention keeps its callback. */
  lemma {:induction false} BindKeeps(fn: map<string, HandlerId>, entries: seq<(string, HandlerId)>, name: string)
    requires name in fn
    requires forall j :: 0 <= j < |entries| ==> entries[j].0 != name
    ensures name in Bind(fn, entries) && Bind(fn, entries)[name] == fn[name]
    decreases |entries|
  {
    if entries != [] {
      BindKeeps(fn, entries[..|entries| - 1], name);
    }
  }

  /** The callback `trigger` invokes for a name, if one is registered. */
  function Callee(fn: map<string, HandlerId>, name: string): (r: Option<HandlerId>)
    ensures r.Some? <==> name in fn
    ensures r.Some? ==> fn[name] == r.value
  {
    if name in fn then Some(fn[name]) else None
  }

  // ---------------------------------------------------------------------
  // What one frame emits in each playback mode

  /** Play-once: one `tick`, followed by `stop` on the frame that reaches the
      duration. */
  function OnceFrame(duration: real, forwards: bool, elapsed: real, delta: real): (es: seq<Event>)
    requires duration > 0.0
    ensures 1 <= |es| <= 2 && es[0].Tick? && es[0].delta == delta
    ensures 0.0 <= elapsed ==> 0.0 <= es[0].progress <= 1.0
    ensures Stop in es <==> elapsed >= duration
    ensures elapsed >= duration ==> es == [Tick(if forwards then 1.0 else 0.0, delta), Stop]
    ensures elapsed < duration ==> |es| == 1
  {
    var percent := RawOnce(elapsed, duration);
    [Tick(Directed(percent, forwards), delta)] + if percent == 1.0 then [Stop] else []
  }

  /** Before the end, the tick of a play-once frame is the elapsed share of
      the duration, or the remaining share when playing backwards. */
  lemma OnceFrameShare(duration: real, forwards: bool, elapsed: real, delta: real)
    requires duration > 0.0 && elapsed < duration
    ensures OnceFrame(duration, forwards, elapsed, delta)[0].progress * duration
      == if forwards then elapsed else duration - elapsed
  {
    RawOnceShare(elapsed, duration);
    var p := RawOnce(elapsed, duration);
    assert (1.0 - p) * duration == duration - p * duration;
  }

  /** The wrap-detection rule of the loop and bounce modes: the fractional
      progress fell below the one recorded on the previous frame. The first
      frame of a session, with the last tick reset to 0, never wraps. */
  predicate Wraps(duration: real, lastTick: real, elapsed: real)
    requires duration > 0.0
    ensures Wraps(duration, lastTick, elapsed) ==> 0.0 < lastTick
  {
    Frac(elapsed / duration) < lastTick
  }

  /** Loop: `loop` on a wrap, before the frame's `tick`. */
  function LoopFrame(duration: real, forwards: bool, lastTick: real, elapsed: real, delta: real): (es: seq<Event>)
    requires duration > 0.0
    ensures |es| == if Wraps(duration, lastTick, elapsed) then 2 else 1
    ensures Loop in es <==> Wraps(duration, lastTick, elapsed)
    ensures Loop in es ==> es[0] == Loop
    ensures es[|es| - 1] == Tick(Directed(Frac(elapsed / duration), forwards), delta)
    ensures 0.0 <= es[|es| - 1].progress <= 1.0
  {
    var percent := Frac(elapsed / duration);
    (if percent < lastTick then [Loop] else []) + [Tick(Directed(percent, forwards), delta)]
  }

  /** Bounce: on a wrap, `bounce` and a change of direction, both before the
      frame's `tick`, which is reported in the new direction. */
  function BounceFrame(duration: real, forwards: bool, lastTick: real, elapsed: real, delta: real): (es: seq<Event>)
    requires duration > 0.0
    ensures |es| == if Wraps(duration, lastTick, elapsed) then 2 else 1
    ensures Bounce in es <==> Wraps(duration, lastTick, elapsed)
    ensures Bounce in es ==> es[0] == Bounce
    ensures es[|es| - 1] ==
      Tick(Directed(Frac(elapsed / duration), forwards != Wraps(duration, lastTick, elapsed)), delta)
    ensures 0.0 <= es[|es| - 1].progress <= 1.0
  {
    var percent := Frac(elapsed / duration);
    if percent < lastTick then [Bounce, Tick(Directed(percent, !forwards), delta)]
    else [Tick(Directed(percent, forwards), delta)]
  }
}
