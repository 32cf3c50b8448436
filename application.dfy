/** The event loop of the gelatin toolkit: the wake schedule ("control flow")
    merged from all reporters, the window registry, and the per-event body
    run for every event the platform delivers. Time is in microseconds. */
module Gelatin {

  type WindowId = nat

  /** When the loop should next wake: not until an event arrives, no later than
      a deadline, or as soon as possible. */
  datatype ControlFlow = Wait | WaitUntil(deadline: int) | Poll

  /** Deadlines closer than this (in microseconds) are turned into Poll. */
  const PollThreshold: int := 100

  /** `a` asks to wake at least as soon as `b`:
      Poll > earlier WaitUntil > later WaitUntil > Wait. */
  predicate AtLeastAsUrgent(a: ControlFlow, b: ControlFlow) {
    match (a, b)
    case (Poll, _) => true
    case (_, Wait) => true
    case (WaitUntil(x), WaitUntil(y)) => x <= y
    case _ => false
  }

  /** A flow the platform may be handed at time `now`: no deadline closer than the threshold. */
  predicate Normalised(flow: ControlFlow, now: int) {
    flow.WaitUntil? ==> flow.deadline >= now + PollThreshold
  }

  /** What set_control_flow stores: a deadline closer than the threshold is
      replaced by Poll; everything else is stored as given. */
  function Clamp(flow: ControlFlow, now: int): (r: ControlFlow)
    ensures Normalised(r, now)
    ensures flow.WaitUntil? && flow.deadline < now + PollThreshold ==> r == Poll
    ensures !(flow.WaitUntil? && flow.deadline < now + PollThreshold) ==> r == flow
    ensures AtLeastAsUrgent(r, flow)
  {
    match flow
    case WaitUntil(t) => if t < now + PollThreshold then Poll else flow
    case _ => flow
  }

  /** aggregate_control_flow's decision: does the new request replace the stored one? */
  predicate Replaces(original: ControlFlow, request: ControlFlow) {
    match request
    case Poll => true
    case WaitUntil(t) => (original.WaitUntil? && t < original.deadline) || original.Wait?
    case Wait => false
  }

  /** The flow stored after aggregating `request` into `original`. */
  function Aggregated(original: ControlFlow, request: ControlFlow, now: int): (r: ControlFlow)
    ensures AtLeastAsUrgent(r, original) && AtLeastAsUrgent(r, request)
    ensures r == original || r == Clamp(request, now)
  {
    if Replaces(original, request) then Clamp(request, now) else original
  }

  /** Requests aggregated one after the other, in the given order. */
  function FoldRequests(flow: ControlFlow, requests: seq<ControlFlow>, now: int): ControlFlow {
    if |requests| == 0 then flow
    else Aggregated(FoldRequests(flow, requests[..|requests| - 1], now), requests[|requests| - 1], now)
  }

  /** A window as the loop sees it: its id and the answers it gives when asked. */
  datatype Window = Window(id: WindowId, shouldSleep: bool, redrawNeeded: bool, redrawResult: ControlFlow)

  datatype WindowEventKind = RedrawRequested | CloseRequested | Destroyed | OtherWindowEvent

  /** The platform events the loop body distinguishes. */
  datatype Event =
    | Init
    | WindowEvent(windowId: WindowId, kind: WindowEventKind)
    | AboutToWait
    | LoopExiting
    | OtherEvent

  /** What the loop asks of windows (and of the exit callback), in order. */
  datatype Effect =
    | Redraw(id: WindowId)
    | ProcessEvent(id: WindowId, kind: WindowEventKind)
    | MainEventsCleared(id: WindowId)
    | RequestRedraw(id: WindowId)
    | AtExitRun

  /** Every window lets the loop sleep and none needs a redraw. */
  predicate Quiet(windows: map<WindowId, Window>) {
    forall id :: id in windows ==> windows[id].shouldSleep && !windows[id].redrawNeeded
  }

  /** `order` visits every registered window exactly once (a hash map's iteration order). */
  predicate Enumerates(order: seq<WindowId>, windows: map<WindowId, Window>) {
    && (forall j :: 0 <= j < |order| ==> order[j] in windows)
    && (forall id :: id in windows ==> id in order)
    && (forall i, j :: 0 <= i < j < |order| ==> order[i] != order[j])
  }

  /** The windows visited so far all let the loop sleep. */
  predicate QuietSoFar(order: seq<WindowId>, windows: map<WindowId, Window>)
    requires forall j :: 0 <= j < |order| ==> order[j] in windows
  {
    forall j :: 0 <= j < |order| ==> windows[order[j]].shouldSleep && !windows[order[j]].redrawNeeded
  }

  /** The calls of the idle pass: main_events_cleared for every window, then
      request_redraw for the ones that need it. */
  function IdleEffects(order: seq<WindowId>, windows: map<WindowId, Window>): seq<Effect>
    requires forall j :: 0 <= j < |order| ==> order[j] in windows
  {
    if |order| == 0 then []
    else
      var id := order[|order| - 1];
      IdleEffects(order[..|order| - 1], windows)
      + [MainEventsCleared(id)]
      + (if windows[id].redrawNeeded then [RequestRedraw(id)] else [])
  }

  /** The loop over the windows in the idle pass: the calls made into them, and
      whether every window visited lets the loop sleep without a redraw. */
  method VisitWindows(order: seq<WindowId>, windows: map<WindowId, Window>)
    returns (calls: seq<Effect>, shouldSleep: bool)
    requires forall j :: 0 <= j < |order| ==> order[j] in windows
    ensures calls == IdleEffects(order, windows)
    ensures shouldSleep == QuietSoFar(order, windows)
  {
    calls := [];
    shouldSleep := true;
    for i := 0 to |order|
      invariant calls == IdleEffects(order[..i], windows)
      invariant shouldSleep == QuietSoFar(order[..i], windows)
    {
      IdleStep(order, windows, i);
      var id := order[i];
      var window := windows[id];
      calls := calls + [MainEventsCleared(id)];
      shouldSleep := shouldSleep && window.shouldSleep;
      if window.redrawNeeded {
        calls := calls + [RequestRedraw(id)];
        shouldSleep := false;
      }
    }
    assert order[..|order|] == order;
  }

  /** The application: the stored control flow, the window registry, the exit
      flag, the exit callback, and the record of calls made into windows. */
  class Application {
    var flow: ControlFlow
    var windows: map<WindowId, Window>
    var exitRequested: bool
    var exited: bool
    var atExit: bool
    var effects: seq<Effect>

    /** Every window is registered under its own id. */
    ghost predicate Valid()
      reads this
    {
      forall id :: id in windows ==> windows[id].id == id
    }

    constructor ()
      ensures Valid()
      ensures flow == Wait && windows == map[] && !exitRequested && !exited && !atExit && effects == []
    {
      flow := Wait;
      windows := map[];
      exitRequested := false;
      exited := false;
      atExit := false;
      effects := [];
    }

    /** set_at_exit: installs or removes the callback run when the loop exits. */
    method SetAtExit(present: bool)
      modifies this`atExit
      ensures atExit == present
    {
      atExit := present;
    }

    /** request_exit. */
    method RequestExit()
      modifies this`exitRequested
      ensures exitRequested
    {
      exitRequested := true;
    }

    /** register_window: the window is tracked under its id, replacing any
        window of the same id. */
    method RegisterWindow(w: Window)
      requires Valid()
      modifies this`windows
      ensures Valid()
      ensures windows == old(windows)[w.id := w]
    {
      windows := windows[w.id := w];
    }

    /** set_control_flow. */
    method SetControlFlow(f: ControlFlow, now: int)
      modifies this`flow
      ensures flow == Clamp(f, now)
    {
      match f
      case WaitUntil(t) =>
        if t < now + PollThreshold {
          flow := Poll;
        } else {
          flow := f;
        }
      case _ =>
        flow := f;
    }

    /** aggregate_control_flow: stores the request when it is more urgent (Poll
        always is) and says whether it did. */
    method AggregateControlFlow(request: ControlFlow, now: int) returns (replaced: bool)
      modifies this`flow
      ensures replaced == Replaces(old(flow), request)
      ensures flow == Aggregated(old(flow), request, now)
    {
      var original := flow;
      match request {
        case Poll =>
          SetControlFlow(request, now);
          return true;
        case WaitUntil(newTime) =>
          match original {
            case WaitUntil(origTime) =>
              if newTime < origTime {
                SetControlFlow(request, now);
                return true;
              }
            case Wait =>
              SetControlFlow(request, now);
              return true;
            case Poll =>
          }
        case Wait =>
      }
      return false;
    }

    /** sanitize_control_flow: the stored flow run through set_control_flow again. */
    method SanitizeControlFlow(now: int)
      modifies this`flow
      ensures flow == Clamp(old(flow), now)
    {
      SetControlFlow(flow, now);
    }

    /** The global handlers, in registration order, each folding its answer in. */
    method RunGlobalHandlers(requests: seq<ControlFlow>, now: int)
      modifies this`flow
      ensures flow == FoldRequests(old(flow), requests, now)
    {
      for i := 0 to |requests|
        invariant flow == FoldRequests(old(flow), requests[..i], now)
      {
        assert requests[..i + 1][..i] == requests[..i];
        var _ := AggregateControlFlow(requests[i], now);
      }
      assert requests[..|requests|] == requests;
    }

    /** The AboutToWait pass when no exit is pending: every window is told that
        the events are cleared and asked whether it may sleep and whether it
        needs a redraw; the flow relaxes to Wait only when all may sleep, none
        needs a redraw and no deadline is pending. */
    method IdlePass(order: seq<WindowId>)
      requires Enumerates(order, windows)
      modifies this`flow, this`effects
      ensures effects == old(effects) + IdleEffects(order, windows)
      ensures flow == if Quiet(windows) && !old(flow).WaitUntil? then Wait else old(flow)
    {
      var calls, shouldSleep := VisitWindows(order, windows);
      QuietSoFarCoversAll(order, windows);
      effects := effects + calls;
      if shouldSleep && !flow.WaitUntil? {
        flow := Wait;
      }
    }

    /** The body run for one event: sanitize the stored flow, let the global
        handlers fold in their requests, then route the event; `Valid()` makes
        a window event reach the window whose own id it carries. `requests` are
        the global handlers' answers in order, `order` the iteration order of
        the window map, `now` the current time. */
    method HandleEvent(ev: Event, requests: seq<ControlFlow>, order: seq<WindowId>, now: int)
      requires Valid()
      requires ev.WindowEvent? ==> ev.windowId in windows
      requires ev.AboutToWait? ==> Enumerates(order, windows)
      modifies this
      ensures Valid()
      ensures Normalised(flow, now)
      ensures ev.Init? ==>
                && flow == Wait
                && windows == old(windows) && effects == old(effects)
                && exitRequested == old(exitRequested) && exited == old(exited) && atExit == old(atExit)
      ensures ev.WindowEvent? ==>
                var g := FoldRequests(Clamp(old(flow), now), requests, now);
                var id := ev.windowId;
                && old(windows)[id].id == id
                && flow == (if ev.kind == RedrawRequested then Aggregated(g, old(windows)[id].redrawResult, now) else g)
                && exitRequested == (old(exitRequested) || ev.kind == CloseRequested)
                && windows == (if ev.kind == Destroyed then old(windows) - {id} else old(windows))
                && effects == old(effects) + (if ev.kind == RedrawRequested then [Redraw(id)] else [])
                                           + [ProcessEvent(id, ev.kind)]
                && exited == old(exited) && atExit == old(atExit)
      ensures ev.AboutToWait? && old(exitRequested) ==>
                && exited
                && flow == FoldRequests(Clamp(old(flow), now), requests, now)
                && windows == old(windows) && effects == old(effects)
                && exitRequested && atExit == old(atExit)
      ensures ev.AboutToWait? && !old(exitRequested) ==>
                var g := FoldRequests(Clamp(old(flow), now), requests, now);
                && flow == (if Quiet(old(windows)) && !g.WaitUntil? then Wait else g)
                && effects == old(effects) + IdleEffects(order, old(windows))
                && windows == old(windows)
                && !exitRequested && exited == old(exited) && atExit == old(atExit)
      ensures ev.LoopExiting? ==>
                && flow == FoldRequests(Clamp(old(flow), now), requests, now)
                && !atExit
                && effects == old(effects) + (if old(atExit) then [AtExitRun] else [])
                && windows == old(windows)
                && exitRequested == old(exitRequested) && exited == old(exited)
      ensures ev.OtherEvent? ==>
                && flow == FoldRequests(Clamp(old(flow), now), requests, now)
                && windows == old(windows) && effects == old(effects)
                && exitRequested == old(exitRequested) && exited == old(exited) && atExit == old(atExit)
    {
      SanitizeControlFlow(now);
      RunGlobalHandlers(requests, now);
      FoldKeepsNormalised(Clamp(old(flow), now), requests, now);
      match ev {
      case Init =>
        flow := Wait;
      case WindowEvent(id, kind) =>
        if kind == RedrawRequested {
          var window := windows[id];
          effects := effects + [Redraw(id)];
          var _ := AggregateControlFlow(window.redrawResult, now);
        }
        if kind == CloseRequested {
          RequestExit();
        }
        effects := effects + [ProcessEvent(id, kind)];
        if kind == Destroyed {
          windows := windows - {id};
        }
      case AboutToWait =>
        if exitRequested {
          exited := true;
          return;
        }
        IdlePass(order);
      case LoopExiting =>
        if atExit {
          effects := effects + [AtExitRun];
          atExit := false;
        }
      case OtherEvent =>
      }
    }
  }

  // ---------------------------------------------------------------------------
  // Properties
  // ---------------------------------------------------------------------------

  /** The visit of every window in `order` decides quietness of the whole registry. */
  lemma QuietSoFarCoversAll(order: seq<WindowId>, windows: map<WindowId, Window>)
    requires Enumerates(order, windows)
    ensures QuietSoFar(order, windows) <==> Quiet(windows)
  {
    if QuietSoFar(order, windows) {
      forall id | id in windows ensures windows[id].shouldSleep && !windows[id].redrawNeeded {
        var j :| 0 <= j < |order| && order[j] == id;
      }
    }
  }

  /** One more window visited: its calls are appended and its answers join the
      quietness so far. */
  lemma IdleStep(order: seq<WindowId>, windows: map<WindowId, Window>, i: nat)
    requires i < |order| && forall j :: 0 <= j < |order| ==> order[j] in windows
    ensures var id := order[i];
            && IdleEffects(order[..i + 1], windows)
               == IdleEffects(order[..i], windows) + [MainEventsCleared(id)]
                  + (if windows[id].redrawNeeded then [RequestRedraw(id)] else [])
            && (QuietSoFar(order[..i + 1], windows)
                <==> QuietSoFar(order[..i], windows) && windows[id].shouldSleep && !windows[id].redrawNeeded)
  {
    assert order[..i + 1][..i] == order[..i];
  }

  /** Urgency is a total preorder. */
  lemma UrgencyIsTotalPreorder(a: ControlFlow, b: ControlFlow, c: ControlFlow)
    ensures AtLeastAsUrgent(a, a)
    ensures AtLeastAsUrgent(a, b) || AtLeastAsUrgent(b, a)
    ensures AtLeastAsUrgent(a, b) && AtLeastAsUrgent(b, c) ==> AtLeastAsUrgent(a, c)
  {
  }

  /** A request replaces the stored flow exactly when it is Poll or strictly
      more urgent; Wait never replaces anything. */
  lemma ReplacesIffMoreUrgent(original: ControlFlow, request: ControlFlow)
    ensures Replaces(original, request) <==> request == Poll || !AtLeastAsUrgent(original, request)
    ensures request == Wait ==> !Replaces(original, request)
  {
  }

  /** Clamping twice is clamping once. */
  lemma ClampIdempotent(flow: ControlFlow, now: int)
    ensures Clamp(Clamp(flow, now), now) == Clamp(flow, now)
  {
  }

  /** The folded flow is at least as urgent as the starting flow and as every request. */
  lemma {:induction false} FoldIsUpperBound(flow: ControlFlow, requests: seq<ControlFlow>, now: int)
    ensures AtLeastAsUrgent(FoldRequests(flow, requests, now), flow)
    ensures forall i :: 0 <= i < |requests| ==> AtLeastAsUrgent(FoldRequests(flow, requests, now), requests[i])
  {
    if |requests| > 0 {
      var init := requests[..|requests| - 1];
      FoldIsUpperBound(flow, init, now);
      var prev := FoldRequests(flow, init, now);
      var r := FoldRequests(flow, requests, now);
      assert AtLeastAsUrgent(r, prev);
      forall i | 0 <= i < |requests| ensures AtLeastAsUrgent(r, requests[i]) {
        if i < |init| {
          assert init[i] == requests[i];
          UrgencyIsTotalPreorder(r, prev, requests[i]);
        }
      }
      UrgencyIsTotalPreorder(r, prev, flow);
    }
  }

  /** Aggregating requests into a normalised flow leaves it normalised: every
      value stored on the way goes through the clamp. */
  lemma {:induction false} FoldKeepsNormalised(flow: ControlFlow, requests: seq<ControlFlow>, now: int)
    requires Normalised(flow, now)
    ensures Normalised(FoldRequests(flow, requests, now), now)
  {
    if |requests| > 0 {
      FoldKeepsNormalised(flow, requests[..|requests| - 1], now);
    }
  }

  /** The folded flow is the starting flow or one of the requests (clamped). */
  lemma {:induction false} FoldPicksARequest(flow: ControlFlow, requests: seq<ControlFlow>, now: int)
    ensures var r := FoldRequests(flow, requests, now);
            r == flow || exists i :: 0 <= i < |requests| && r == Clamp(requests[i], now)
  {
    if |requests| > 0 {
      var init := requests[..|requests| - 1];
      FoldPicksARequest(flow, init, now);
      var prev := FoldRequests(flow, init, now);
      if prev != flow {
        var i :| 0 <= i < |init| && prev == Clamp(init[i], now);
        assert requests[i] == init[i];
      }
    }
  }

  /** A Poll request anywhere makes the result Poll, whatever the order. */
  lemma {:induction false} FoldPollAbsorbs(flow: ControlFlow, requests: seq<ControlFlow>, now: int)
    requires Poll in requests
    ensures FoldRequests(flow, requests, now) == Poll
  {
    var i :| 0 <= i < |requests| && requests[i] == Poll;
    FoldIsUpperBound(flow, requests, now);
  }

  /** Three reporters: in 50 ms, nothing, in 10 ms; the earliest deadline wins. */
  lemma FoldExample(now: int)
    ensures FoldRequests(Wait, [WaitUntil(now + 50000), Wait, WaitUntil(now + 10000)], now)
            == WaitUntil(now + 10000)
  {
    var reqs := [WaitUntil(now + 50000), Wait, WaitUntil(now + 10000)];
    assert reqs[..1][..0] == [];
    assert FoldRequests(Wait, reqs[..1], now) == WaitUntil(now + 50000);
    assert reqs[..2][..1] == reqs[..1];
    assert FoldRequests(Wait, reqs[..2], now) == WaitUntil(now + 50000);
    assert reqs[..3][..2] == reqs[..2] && reqs[..3] == reqs;
  }

  /** A deadline 50 microseconds away is handed to the platform as Poll. */
  lemma NearDeadlineBecomesPoll(now: int)
    ensures Clamp(WaitUntil(now + 50), now) == Poll
  {
  }

  /** The idle pass tells every window that the events are cleared, and asks
      for a redraw of exactly the windows that need one. */
  lemma {:induction false} IdleEffectsCoverWindows(order: seq<WindowId>, windows: map<WindowId, Window>,
                                                   id: WindowId)
    requires forall j :: 0 <= j < |order| ==> order[j] in windows
    ensures MainEventsCleared(id) in IdleEffects(order, windows) <==> id in order
    ensures RequestRedraw(id) in IdleEffects(order, windows) <==> id in order && windows[id].redrawNeeded
  {
    if |order| > 0 {
      var init := order[..|order| - 1];
      IdleEffectsCoverWindows(init, windows, id);
      assert order == init + [order[|order| - 1]];
      assert id in order <==> id in init || id == order[|order| - 1];
    }
  }

  /** Destroyed is passed to the window and then unregisters it: a later event
      for its id violates HandleEvent's precondition (the source's `unwrap` panics). */
  method DestroyUnregisters(app: Application, id: WindowId, now: int)
    requires app.Valid() && id in app.windows
    modifies app
    ensures id !in app.windows
    ensures app.effects == old(app.effects) + [ProcessEvent(id, Destroyed)]
  {
    app.HandleEvent(WindowEvent(id, Destroyed), [], [], now);
  }

  /** CloseRequested only raises the flag; the next AboutToWait exits without
      touching any window. */
  method CloseThenIdle(app: Application, id: WindowId, order: seq<WindowId>, now: int)
    requires app.Valid() && id in app.windows && Enumerates(order, app.windows)
    modifies app
    ensures app.exited
    ensures app.windows == old(app.windows)
    ensures app.effects == old(app.effects) + [ProcessEvent(id, CloseRequested)]
  {
    app.HandleEvent(WindowEvent(id, CloseRequested), [], [], now);
    assert app.exitRequested;
    app.HandleEvent(AboutToWait, [], order, now);
  }
}
