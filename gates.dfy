/** Rate-limiting gates on scroll and resize handlers.
 *
 *  `throttle` (app.js:540-551) and `requestTick` (app.js:439-446) are the
 *  same one-flag gate: a call that finds the flag clear goes through, sets
 *  the flag and arms one expiry (a `setTimeout` of `limit` ms, or an
 *  animation frame running `updateParallax`); every call that finds the flag
 *  set is dropped; the expiry clears the flag.  The resize handler
 *  (app.js:608-615) is a debounce: each resize cancels the pending timer and
 *  arms a new one, and only a timer that survives re-runs `initTiltEffect`.
 *  Timers and frames are events here, not a clock.
 */
module Gates {

  /** Throttle limit in ms of the navbar-style scroll handler (app.js:604). */
  const NavbarLimit: nat := 16
  /** Throttle limit in ms of the nav-link scroll handler (app.js:605). */
  const NavLinkLimit: nat := 100
  /** Delay in ms of the resize timer (app.js:614). */
  const ResizeDelay: nat := 250

  /** What a gate sees: a call of the gated handler, or its expiry firing. */
  datatype GateEvent = Call | Expire

  /** A gate: its flag (`inThrottle` or `ticking`) and how many expiries are
      armed and have not yet fired. */
  datatype Gate = Gate(closed: bool, pending: nat)

  /** The state before the first call: flag clear, nothing armed. */
  const Open := Gate(false, 0)

  /** An expiry is armed exactly while the flag is set. */
  predicate GateInv(g: Gate)
  {
    g.pending == if g.closed then 1 else 0
  }

  /** Whether the event goes through: a call that finds the flag clear. */
  predicate Forwarded(g: Gate, e: GateEvent)
  {
    e == Call && !g.closed
  }

  /** One event.  An expiry with nothing armed cannot happen and changes
      nothing. */
  function GateStep(g: Gate, e: GateEvent): (r: Gate)
    ensures Forwarded(g, e) ==> r.closed && r.pending == g.pending + 1
    ensures e == Call && g.closed ==> r == g
  {
    match e
    case Call => if g.closed then g else Gate(true, g.pending + 1)
    case Expire => if g.pending == 0 then g else Gate(false, g.pending - 1)
  }

  /** The gate after a sequence of events. */
  function GateRun(g: Gate, es: seq<GateEvent>): Gate
    decreases |es|
  {
    if es == [] then g else GateRun(GateStep(g, es[0]), es[1..])
  }

  /** How many events of `es` go through. */
  function Forwards(g: Gate, es: seq<GateEvent>): nat
    decreases |es|
  {
    if es == [] then 0
    else (if Forwarded(g, es[0]) then 1 else 0) + Forwards(GateStep(g, es[0]), es[1..])
  }

  /** How many expiries `es` holds. */
  function Expiries(es: seq<GateEvent>): nat
  {
    if es == [] then 0 else (if es[0] == Expire then 1 else 0) + Expiries(es[1..])
  }

  /** Whether the `i`-th event of `es` goes through. */
  predicate ForwardedAt(g: Gate, es: seq<GateEvent>, i: nat)
    requires i < |es|
  {
    Forwarded(GateRun(g, es[..i]), es[i])
  }

  /** Each event keeps the gate's invariant, so at most one timer or frame
      is ever pending. */
  lemma GateStepKeepsInv(g: Gate, e: GateEvent)
    requires GateInv(g)
    ensures GateInv(GateStep(g, e)) && GateStep(g, e).pending <= 1
  {
  }

  /** The first call goes through (app.js:545-546, 440-441). */
  lemma FirstCallForwarded()
    ensures Forwarded(Open, Call) && GateStep(Open, Call) == Gate(true, 1)
  {
  }

  /** Running `a + b` is running `a`, then `b`. */
  lemma {:induction false} GateRunAppend(g: Gate, a: seq<GateEvent>, b: seq<GateEvent>)
    ensures GateRun(g, a + b) == GateRun(GateRun(g, a), b)
    decreases |a|
  {
    if a == [] {
      assert a + b == b;
    } else {
      assert (a + b)[1..] == a[1..] + b;
      GateRunAppend(GateStep(g, a[0]), a[1..], b);
    }
  }

  /** A set flag stays set until an expiry. */
  lemma {:induction false} StaysClosed(g: Gate, es: seq<GateEvent>)
    requires g.closed && Expire !in es
    ensures GateRun(g, es).closed
    decreases |es|
  {
    if es != [] {
      assert es[0] == Call;
      assert Expire !in es[1..] by {
        forall k | 0 <= k < |es| - 1 ensures es[1..][k] != Expire {
          assert es[1..][k] == es[k + 1];
        }
      }
      StaysClosed(GateStep(g, es[0]), es[1..]);
    }
  }

  /** Between any two events that go through lies an expiry: after a
      forwarded call every call is dropped until the expiry clears the flag
      (app.js:545-548, 440-443). */
  lemma ExpiryBetweenForwards(g: Gate, es: seq<GateEvent>, i: nat, j: nat)
    requires i < j < |es|
    requires ForwardedAt(g, es, i) && ForwardedAt(g, es, j)
    ensures exists k :: i < k < j && es[k] == Expire
  {
    if forall k :: i < k < j ==> es[k] != Expire {
      var after := GateStep(GateRun(g, es[..i]), es[i]);
      assert es[..i + 1] == es[..i] + [es[i]];
      GateRunAppend(g, es[..i], [es[i]]);
      assert GateRun(g, es[..i + 1]) == after;
      var between := es[i + 1..j];
      assert es[..j] == es[..i + 1] + between;
      GateRunAppend(g, es[..i + 1], between);
      assert Expire !in between by {
        forall k | 0 <= k < |between| ensures between[k] != Expire {
          assert between[k] == es[i + 1 + k];
        }
      }
      StaysClosed(after, between);
      assert false;
    }
  }

  /** Counting form of the same promise: starting from a gate that respects
      its invariant, no more calls go through than there are expiries, plus
      one if the flag starts clear. */
  lemma {:induction false} ForwardsBound(g: Gate, es: seq<GateEvent>)
    requires GateInv(g)
    ensures Forwards(g, es) <= Expiries(es) + (if g.closed then 0 else 1)
    decreases |es|
  {
    if es != [] {
      GateStepKeepsInv(g, es[0]);
      ForwardsBound(GateStep(g, es[0]), es[1..]);
    }
  }

  /** The closure that `throttle(func, limit)` returns (app.js:540-551), with
      its captured `inThrottle`. */
  class Throttle {
    const limit: nat
    var inThrottle: bool
    /** `inThrottle = false` timers armed and not yet fired */
    var pendingTimers: nat

    function State(): Gate
      reads this
    {
      Gate(inThrottle, pendingTimers)
    }

    ghost predicate Valid()
      reads this
    {
      GateInv(State())
    }

    /** `throttle(func, limit)`: `inThrottle` starts undefined, which is
        falsy. */
    constructor (limit: nat)
      ensures Valid() && State() == Open && this.limit == limit
    {
      this.limit := limit;
      inThrottle := false;
      pendingTimers := 0;
    }

    /** A call of the throttled handler; `forwarded` says whether `func` ran
        (app.js:542-550). */
    method Call() returns (forwarded: bool)
      requires Valid()
      modifies this
      ensures Valid()
      ensures forwarded == Forwarded(old(State()), GateEvent.Call)
      ensures State() == GateStep(old(State()), GateEvent.Call)
    {
      forwarded := !inThrottle;
      if !inThrottle {
        inThrottle := true;
        pendingTimers := pendingTimers + 1;
      }
    }

    /** The `limit` timer fires: `inThrottle = false` (app.js:548). */
    method TimerFires()
      requires Valid() && pendingTimers > 0
      modifies this
      ensures Valid() && !inThrottle
      ensures State() == GateStep(old(State()), Expire)
    {
      pendingTimers := pendingTimers - 1;
      inThrottle := false;
    }
  }

  /** The parallax scroll handler's state (app.js:421-446): the `ticking`
      flag and the animation frames it has requested.  `initParallaxEffect`,
      which installs this handler, is never called by app.js: its
      DOMContentLoaded handler (app.js:571-601) does not call it. */
  class ParallaxTicker {
    var ticking: bool
    /** frames requested and not yet run */
    var pendingFrames: nat

    function State(): Gate
      reads this
    {
      Gate(ticking, pendingFrames)
    }

    ghost predicate Valid()
      reads this
    {
      GateInv(State())
    }

    constructor ()
      ensures Valid() && State() == Open
    {
      ticking := false;
      pendingFrames := 0;
    }

    /** `requestTick` on a scroll event (app.js:439-444); `requested` says
        whether a frame was requested. */
    method RequestTick() returns (requested: bool)
      requires Valid()
      modifies this
      ensures Valid()
      ensures requested == Forwarded(old(State()), Call)
      ensures State() == GateStep(old(State()), Call)
    {
      requested := false;
      if !ticking {
        pendingFrames := pendingFrames + 1;
        requested := true;
        ticking := true;
      }
    }

    /** The requested frame runs `updateParallax`, which ends with
        `ticking = false` (app.js:424-437). */
    method UpdateParallax()
      requires Valid() && pendingFrames > 0
      modifies this
      ensures Valid() && !ticking
      ensures State() == GateStep(old(State()), Expire)
    {
      pendingFrames := pendingFrames - 1;
      ticking := false;
    }
  }

  /** What the resize debounce sees: a resize, or its timer firing. */
  datatype ResizeEvent = Resize | ResizeTimerFires

  /** The debounce: timers armed and not yet fired or cleared, and how many
      times `initTiltEffect` has been re-run. */
  datatype Debounce = Debounce(pending: nat, reinits: nat)

  /** One event: a resize clears the pending timer, if any, and arms a new
      one; a firing timer re-runs `initTiltEffect`.  A firing with nothing
      armed cannot happen and changes nothing. */
  function DebounceStep(d: Debounce, e: ResizeEvent): (r: Debounce)
    ensures e == Resize ==> r.pending >= 1 && r.reinits == d.reinits
    ensures e == ResizeTimerFires && d.pending > 0 ==> r == Debounce(d.pending - 1, d.reinits + 1)
    ensures e == ResizeTimerFires && d.pending == 0 ==> r == d
  {
    match e
    case Resize => d.(pending := (if d.pending > 0 then d.pending - 1 else 0) + 1)
    case ResizeTimerFires =>
      if d.pending == 0 then d else Debounce(d.pending - 1, d.reinits + 1)
  }

  function DebounceRun(d: Debounce, es: seq<ResizeEvent>): Debounce
    decreases |es|
  {
    if es == [] then d else DebounceRun(DebounceStep(d, es[0]), es[1..])
  }

  /** How many resizes `es` holds. */
  function Resizes(es: seq<ResizeEvent>): nat
  {
    if es == [] then 0 else (if es[0] == Resize then 1 else 0) + Resizes(es[1..])
  }

  /** `n` resizes in a row. */
  function ResizeBurst(n: nat): (es: seq<ResizeEvent>)
    ensures |es| == n && forall k :: 0 <= k < n ==> es[k] == Resize
  {
    seq(n, k => Resize)
  }

  /** At most one resize timer is ever pending, and the re-runs of
      `initTiltEffect` never outnumber the resizes: each one uses up the one
      timer some resize armed. */
  lemma {:induction false} DebounceBound(d: Debounce, es: seq<ResizeEvent>)
    requires d.pending <= 1
    ensures DebounceRun(d, es).pending <= 1
    ensures DebounceRun(d, es).reinits + DebounceRun(d, es).pending <= d.reinits + d.pending + Resizes(es)
    decreases |es|
  {
    if es != [] {
      DebounceBound(DebounceStep(d, es[0]), es[1..]);
    }
  }

  /** A burst of resizes leaves exactly one timer pending, whatever was
      pending before, and re-runs nothing (app.js:609-615). */
  lemma {:induction false} BurstLeavesOneTimer(d: Debounce, n: nat)
    requires d.pending <= 1 && n >= 1
    ensures DebounceRun(d, ResizeBurst(n)) == Debounce(1, d.reinits)
    decreases n
  {
    var es := ResizeBurst(n);
    assert es[1..] == ResizeBurst(n - 1);
    if n > 1 {
      BurstLeavesOneTimer(DebounceStep(d, Resize), n - 1);
    }
  }

  /** A burst of resizes followed by its timer re-runs `initTiltEffect`
      exactly once. */
  lemma BurstReinitsOnce(d: Debounce, n: nat)
    requires d.pending <= 1 && n >= 1
    ensures DebounceRun(d, ResizeBurst(n) + [ResizeTimerFires]) == Debounce(0, d.reinits + 1)
  {
    BurstLeavesOneTimer(d, n);
    DebounceRunAppend(d, ResizeBurst(n), [ResizeTimerFires]);
  }

  /** Running `a + b` is running `a`, then `b`. */
  lemma {:induction false} DebounceRunAppend(d: Debounce, a: seq<ResizeEvent>, b: seq<ResizeEvent>)
    ensures DebounceRun(d, a + b) == DebounceRun(DebounceRun(d, a), b)
    decreases |a|
  {
    if a == [] {
      assert a + b == b;
    } else {
      assert (a + b)[1..] == a[1..] + b;
      DebounceRunAppend(DebounceStep(d, a[0]), a[1..], b);
    }
  }

  /** The window resize handler's state (app.js:608-615). */
  class ResizeHandler {
    /** timers armed through `resizeTimeout` and not yet fired or cleared */
    var pendingTimers: nat
    /** how many times the timer has re-run `initTiltEffect` */
    var reinits: nat

    function State(): Debounce
      reads this
    {
      Debounce(pendingTimers, reinits)
    }

    ghost predicate Valid()
      reads this
    {
      pendingTimers <= 1
    }

    constructor ()
      ensures Valid() && State() == Debounce(0, 0)
    {
      pendingTimers, reinits := 0, 0;
    }

    /** A resize: `clearTimeout(resizeTimeout)`, then a new timer
        (app.js:609-611). */
    method OnResize()
      requires Valid()
      modifies this
      ensures Valid() && pendingTimers == 1
      ensures State() == DebounceStep(old(State()), Resize)
    {
      if pendingTimers > 0 {
        pendingTimers := pendingTimers - 1;
      }
      pendingTimers := pendingTimers + 1;
    }

    /** The surviving timer fires and re-runs `initTiltEffect`
        (app.js:611-614). */
    method TimerFires()
      requires Valid() && pendingTimers > 0
      modifies this
      ensures Valid() && pendingTimers == 0 && reinits == old(reinits) + 1
      ensures State() == DebounceStep(old(State()), ResizeTimerFires)
    {
      pendingTimers := pendingTimers - 1;
      reinits := reinits + 1;
    }
  }
}
