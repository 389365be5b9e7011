/** The per-frame scheduler the timer subscribes to. Only what the timer
    relies on is modelled: a subscription is registered until it is stopped,
    and a paused subscription receives no frames until it is resumed. The
    shared display-refresh loop, its clock and its elapsed-time bookkeeping
    are outside the model; the frames it delivers are inputs. */
module FrameSource {

  /** Which of the timer's three per-frame handlers a subscription calls. */
  datatype Handler = PlayOnceFrames | LoopFrames | BounceFrames

  /** One subscription to the frame loop, as returned when a handler is
      added to it. */
  class Subscription {
    const handler: Handler
    var registered: bool
    var paused: bool

    constructor (handler: Handler)
      ensures this.handler == handler
      ensures registered && !paused
    {
      this.handler := handler;
      registered := true;
      paused := false;
    }

    /** Unregisters the subscription: no further frames are delivered. */
    method Stop()
      modifies this
      ensures !registered && paused == old(paused)
    {
      registered := false;
    }

    /** Suspends frame delivery, freezing the subscription's elapsed time. */
    method Pause()
      modifies this
      ensures paused && registered == old(registered)
    {
      paused := true;
    }

    /** Resumes frame delivery; elapsed time continues from where it froze. */
    method Resume()
      modifies this
      ensures !paused && registered == old(registered)
    {
      paused := false;
    }
  }
}
