/** The browser hook that polls one background task: effects, their requests and timers, and the shown state. */
module TaskPoll {
  import opened Wrappers

  datatype TaskPhase = Pending | Running | Done | Failed

  /** What the server says about the task that was asked for. */
  datatype TaskStatus = TaskStatus(taskId: string, phase: TaskPhase)

  /** A settled request: an error, a status, or a success without a body. */
  datatype Response = ApiError(code: string) | Data(status: TaskStatus) | Empty

  datatype Timer = Unset | Armed | Fired

  /** One run of the effect: its task, its closure variables, its open requests, and how many it has sent. */
  datatype Effect = Effect(taskId: string, cancelled: bool, timer: Timer, outstanding: nat, sent: nat)

  /** All effects ever run, the one not cleaned up, whether the component is mounted, and the state it shows. */
  datatype Hook = Hook(effects: seq<Effect>, live: Option<nat>, mounted: bool, status: Option<TaskStatus>,
    error: Option<string>)

  const MOUNTED := Hook([], None, true, None, None)

  datatype Event =
    | Rendered(taskId: Option<string>)
    | Responded(effect: nat, response: Response)
    | TimerFired(effect: nat)
    | Unmounted

  predicate IsTerminal(p: TaskPhase) {
    p == Done || p == Failed
  }

  // --- steps on values ---

  /** The cleanup of the live effect: cancel, and clear its timer if there is one. */
  function CleanedUp(h: Hook): Hook {
    match h.live
    case None => h
    case Some(i) =>
      if i < |h.effects| then
        var e := h.effects[i];
        h.(effects := h.effects[i := e.(cancelled := true, timer := if e.timer == Armed then Unset else e.timer)],
          live := None)
      else h
  }

  /** tick up to its await: nothing once cancelled, else one request goes out. */
  function Ticked(e: Effect): Effect {
    if e.cancelled then e else e.(outstanding := e.outstanding + 1, sent := e.sent + 1)
  }

  /** A new render with other dependencies: clean up, reset the shown state, and poll unless there is no task. */
  function AfterRender(h: Hook, taskId: Option<string>): Hook {
    var c := CleanedUp(h).(status := None, error := None);
    if taskId.None? || taskId.value == "" then c
    else c.(effects := c.effects + [Ticked(Effect(taskId.value, false, Unset, 0, 0))], live := Some(|c.effects|))
  }

  /** tick from its await on. */
  function AfterResponse(h: Hook, i: nat, r: Response): Hook
    requires i < |h.effects| && h.effects[i].outstanding > 0
  {
    var e := h.effects[i].(outstanding := h.effects[i].outstanding - 1);
    if e.cancelled then h.(effects := h.effects[i := e])
    else
      match r
      case ApiError(code) => h.(effects := h.effects[i := e], error := Some(code))
      case Data(s) =>
        h.(effects := h.effects[i := if IsTerminal(s.phase) then e else e.(timer := Armed)], status := Some(s))
      case Empty => h.(effects := h.effects[i := e.(timer := Armed)])
  }

  function AfterTimer(h: Hook, i: nat): Hook
    requires i < |h.effects|
  {
    h.(effects := h.effects[i := Ticked(h.effects[i].(timer := Fired))])
  }

  /** What can happen: responses to open requests, for the task asked; armed timers; renders while mounted. */
  predicate Enabled(h: Hook, ev: Event) {
    match ev
    case Rendered(_) => h.mounted
    case Responded(i, r) =>
      i < |h.effects| && h.effects[i].outstanding > 0 && (r.Data? ==> r.status.taskId == h.effects[i].taskId)
    case TimerFired(i) => i < |h.effects| && h.effects[i].timer == Armed
    case Unmounted => h.mounted
  }

  function Step(h: Hook, ev: Event): Hook
    requires Enabled(h, ev)
  {
    match ev
    case Rendered(taskId) => AfterRender(h, taskId)
    case Responded(i, r) => AfterResponse(h, i, r)
    case TimerFired(i) => AfterTimer(h, i)
    case Unmounted => CleanedUp(h).(mounted := false)
  }

  // --- the hook ---

  class PollingHook {
    var effects: seq<Effect>
    var live: Option<nat>
    var mounted: bool
    var status: Option<TaskStatus>
    var error: Option<string>

    function View(): Hook
      reads this
    {
      Hook(effects, live, mounted, status, error)
    }

    constructor ()
      ensures View() == MOUNTED
    {
      effects, live, mounted, status, error := [], None, true, None, None;
    }

    method Cleanup()
      requires live.Some? ==> live.value < |effects|
      modifies this
      ensures View() == CleanedUp(old(View()))
    {
      if live.Some? {
        var e := effects[live.value].(cancelled := true);
        if e.timer == Armed {
          e := e.(timer := Unset);
        }
        effects := effects[live.value := e];
        live := None;
      }
    }

    method Tick(i: nat)
      requires i < |effects|
      modifies this`effects
      ensures effects == old(effects)[i := Ticked(old(effects)[i])]
    {
      if effects[i].cancelled {
        return;
      }
      effects := effects[i := effects[i].(outstanding := effects[i].outstanding + 1, sent := effects[i].sent + 1)];
    }

    method Render(taskId: Option<string>)
      requires mounted && (live.Some? ==> live.value < |effects|)
      modifies this
      ensures View() == Step(old(View()), Rendered(taskId))
    {
      Cleanup();
      status := None;
      error := None;
      if taskId.None? || taskId.value == "" {
        return;
      }
      ghost var before := effects;
      effects := effects + [Effect(taskId.value, false, Unset, 0, 0)];
      live := Some(|effects| - 1);
      Tick(|effects| - 1);
      assert effects == before + [Ticked(Effect(taskId.value, false, Unset, 0, 0))];
    }

    method Respond(i: nat, r: Response)
      requires Enabled(View(), Responded(i, r))
      modifies this
      ensures View() == Step(old(View()), Responded(i, r))
    {
      var e := effects[i].(outstanding := effects[i].outstanding - 1);
      effects := effects[i := e];
      if e.cancelled {
        return;
      }
      if r.ApiError? {
        error := Some(r.code);
        return;
      }
      if r.Data? {
        status := Some(r.status);
        if IsTerminal(r.status.phase) {
          return;
        }
      }
      effects := effects[i := e.(timer := Armed)];
    }

    method FireTimer(i: nat)
      requires Enabled(View(), TimerFired(i))
      modifies this`effects
      ensures View() == Step(old(View()), TimerFired(i))
    {
      effects := effects[i := effects[i].(timer := Fired)];
      Tick(i);
    }

    method Unmount()
      requires mounted && (live.Some? ==> live.value < |effects|)
      modifies this
      ensures View() == Step(old(View()), Unmounted)
    {
      Cleanup();
      mounted := false;
    }
  }

  // --- what holds after every run ---

  /** Open requests and armed timers of an effect, together. */
  function Pending(e: Effect): nat {
    e.outstanding + if e.timer == Armed then 1 else 0
  }

  /** The shown state says that polling is over: an error, or a task that is done or has failed. */
  predicate Stopped(h: Hook) {
    h.error.Some? || h.status == Some(TaskStatus(TaskIdOf(h.status), Done)) ||
      h.status == Some(TaskStatus(TaskIdOf(h.status), Failed))
  }

  function TaskIdOf(status: Option<TaskStatus>): string {
    if status.Some? then status.value.taskId else ""
  }

  ghost predicate Feasible(h: Hook, events: seq<Event>)
    decreases |events|
  {
    events == [] || (Enabled(h, events[0]) && Feasible(Step(h, events[0]), events[1..]))
  }

  function Run(h: Hook, events: seq<Event>): Hook
    requires Feasible(h, events)
    decreases |events|
  {
    if events == [] then h else Run(Step(h, events[0]), events[1..])
  }

  /** What the invariant says of each effect. */
  ghost predicate EffectInv(h: Hook, i: nat)
    requires i < |h.effects|
  {
    var e := h.effects[i];
    && Pending(e) <= 1 && e.sent >= 1
    && (e.cancelled <==> h.live != Some(i))
    && (e.cancelled ==> e.timer != Armed)
  }

  /** What it says of the shown state. */
  ghost predicate ShownInv(h: Hook) {
    && (h.live.Some? ==>
          && h.mounted && h.live.value < |h.effects|
          && (Pending(h.effects[h.live.value]) == 0 <==> Stopped(h))
          && (h.status.Some? ==> h.status.value.taskId == h.effects[h.live.value].taskId))
    && (h.mounted && h.live.None? ==> h.status.None? && h.error.None?)
  }

  ghost predicate Inv(h: Hook) {
    ShownInv(h) && forall i :: 0 <= i < |h.effects| ==> EffectInv(h, i)
  }

  lemma CleanupInv(h: Hook)
    requires Inv(h)
    ensures var c := CleanedUp(h);
            c.live.None? && |c.effects| == |h.effects| && forall i :: 0 <= i < |c.effects| ==> EffectInv(c, i)
  {
    var c := CleanedUp(h);
    forall i | 0 <= i < |c.effects| ensures EffectInv(c, i) {
      assert EffectInv(h, i);
    }
  }

  lemma RenderInv(h: Hook, taskId: Option<string>)
    requires Inv(h) && h.mounted
    ensures Inv(AfterRender(h, taskId)) && Inv(CleanedUp(h).(mounted := false))
  {
    CleanupInv(h);
    var c, h' := CleanedUp(h), AfterRender(h, taskId);
    forall i | 0 <= i < |h'.effects| ensures EffectInv(h', i) {
      if i < |c.effects| {
        assert EffectInv(c, i) && h'.effects[i] == c.effects[i];
      }
    }
    forall i | 0 <= i < |c.effects| ensures EffectInv(c.(mounted := false), i) {
      assert EffectInv(c, i);
    }
  }

  lemma ResponseInv(h: Hook, i: nat, r: Response)
    requires Inv(h) && Enabled(h, Responded(i, r))
    ensures Inv(AfterResponse(h, i, r))
  {
    assert EffectInv(h, i);
    var h' := AfterResponse(h, i, r);
    forall j | 0 <= j < |h'.effects| ensures EffectInv(h', j) {
      assert EffectInv(h, j);
    }
  }

  lemma TimerInv(h: Hook, i: nat)
    requires Inv(h) && Enabled(h, TimerFired(i))
    ensures Inv(AfterTimer(h, i))
  {
    assert EffectInv(h, i);
    var h' := AfterTimer(h, i);
    forall j | 0 <= j < |h'.effects| ensures EffectInv(h', j) {
      assert EffectInv(h, j);
    }
  }

  lemma StepInv(h: Hook, ev: Event)
    requires Inv(h) && Enabled(h, ev)
    ensures Inv(Step(h, ev))
  {
    match ev
    case Rendered(taskId) => RenderInv(h, taskId);
    case Responded(i, r) => ResponseInv(h, i, r);
    case TimerFired(i) => TimerInv(h, i);
    case Unmounted => RenderInv(h, None);
  }

  /** In any order of renders, responses, timers and unmounting, the invariant holds. */
  lemma {:induction false} RunInv(h: Hook, events: seq<Event>)
    requires Inv(h) && Feasible(h, events)
    ensures Inv(Run(h, events))
    decreases |events|
  {
    if events != [] {
      StepInv(h, events[0]);
      RunInv(Step(h, events[0]), events[1..]);
    }
  }

  /** Only the live effect writes what is shown; a cleaned-up one neither writes, sends nor arms a timer. */
  lemma CancelledIsSilent(h: Hook, ev: Event, i: nat)
    requires Inv(h) && Enabled(h, ev) && i < |h.effects| && h.effects[i].cancelled
    ensures var h' := Step(h, ev);
            && i < |h'.effects| && h'.effects[i].cancelled
            && h'.effects[i].sent == h.effects[i].sent && h'.effects[i].timer != Armed
            && (ev.Responded? && ev.effect == i ==> h'.status == h.status && h'.error == h.error)
  {
    assert EffectInv(h, i);
  }

  /**
   * Whatever happens after its cleanup, an effect stays cancelled, sends nothing and arms no timer,
     and a response to it,
   * whenever it comes, changes nothing that is shown.
   */
  lemma {:induction false} CancelledForGood(h: Hook, events: seq<Event>, i: nat, r: Response)
    requires Inv(h) && Feasible(h, events)
    requires i < |h.effects| && h.effects[i].cancelled
    ensures var h' := Run(h, events);
            && i < |h'.effects| && h'.effects[i].cancelled && h'.effects[i].timer != Armed
            && h'.effects[i].sent == h.effects[i].sent
            && (Enabled(h', Responded(i, r)) ==>
                  var h'' := Step(h', Responded(i, r)); h''.status == h'.status && h''.error == h'.error)
    decreases |events|
  {
    if events == [] {
      assert EffectInv(h, i);
    } else {
      CancelledIsSilent(h, events[0], i);
      StepInv(h, events[0]);
      CancelledForGood(Step(h, events[0]), events[1..], i, r);
    }
  }

  /** An effect with no open request and no armed timer never sends again. */
  lemma {:induction false} IdleForGood(h: Hook, events: seq<Event>, i: nat)
    requires Inv(h) && Feasible(h, events)
    requires i < |h.effects| && Pending(h.effects[i]) == 0
    ensures var h' := Run(h, events);
            i < |h'.effects| && Pending(h'.effects[i]) == 0 && h'.effects[i].sent == h.effects[i].sent
    decreases |events|
  {
    if events != [] {
      StepInv(h, events[0]);
      IdleForGood(Step(h, events[0]), events[1..], i);
    }
  }

  /** Once the live effect shows a terminal status or an error, it sends nothing more, whatever happens later. */
  lemma NothingAfterTheEnd(before: seq<Event>, after: seq<Event>)
    requires Feasible(MOUNTED, before) && Feasible(Run(MOUNTED, before), after)
    requires var h := Run(MOUNTED, before); h.live.Some? && Stopped(h)
    ensures var h := Run(MOUNTED, before);
            h.live.value < |h.effects| &&
            var h' := Run(h, after);
            h.live.value < |h'.effects| && h'.effects[h.live.value].sent == h.effects[h.live.value].sent
  {
    var h := Run(MOUNTED, before);
    RunInv(MOUNTED, before);
    IdleForGood(h, after, h.live.value);
  }

  // --- what is shown, read off the events ---

  /** How many effects have been run: one for each render with a task. */
  function EffectCount(events: seq<Event>): nat {
    if events == [] then 0
    else
      var last := events[|events| - 1];
      EffectCount(events[..|events| - 1]) +
      if last.Rendered? && last.taskId.Some? && last.taskId.value != "" then 1 else 0
  }

  /** The task of the latest render, unless the component has been unmounted since. */
  function CurrentTask(events: seq<Event>): Option<string> {
    if events == [] then None
    else
      match events[|events| - 1]
      case Rendered(taskId) => if taskId.Some? && taskId.value != "" then taskId else None
      case Unmounted => None
      case _ => CurrentTask(events[..|events| - 1])
  }

  /** The last status and error that answered the latest effect; a render starts with neither. */
  function LastAnswer(events: seq<Event>): (Option<TaskStatus>, Option<string>) {
    if events == [] then (None, None)
    else
      var front := events[..|events| - 1];
      var (status, error) := LastAnswer(front);
      match events[|events| - 1]
      case Rendered(_) => (None, None)
      case Responded(i, r) =>
        if CurrentTask(front).None? || i + 1 != EffectCount(front) then (status, error)
        else if r.ApiError? then (status, Some(r.code))
        else if r.Data? then (Some(r.status), error)
        else (status, error)
      case _ => (status, error)
  }

  lemma {:induction false} RunAppend(h: Hook, events: seq<Event>, ev: Event)
    requires Feasible(h, events + [ev])
    ensures Feasible(h, events) && Enabled(Run(h, events), ev)
    ensures Run(h, events + [ev]) == Step(Run(h, events), ev)
    decreases |events|
  {
    if events == [] {
      assert [] + [ev] == [ev];
    } else {
      assert (events + [ev])[1..] == events[1..] + [ev];
      RunAppend(Step(h, events[0]), events[1..], ev);
    }
  }

  /** The hook's state as the events call for it. */
  ghost predicate Reflects(h: Hook, events: seq<Event>) {
    && |h.effects| == EffectCount(events)
    && (h.live.Some? <==> CurrentTask(events).Some?)
    && (h.live.Some? ==> h.live.value + 1 == |h.effects| && h.effects[h.live.value].taskId == CurrentTask(events).value)
    && (h.status, h.error) == LastAnswer(events)
  }

  lemma StepReflects(h: Hook, events: seq<Event>, ev: Event)
    requires Inv(h) && Enabled(h, ev) && Reflects(h, events)
    ensures Reflects(Step(h, ev), events + [ev])
  {
    assert (events + [ev])[..|events|] == events;
    if ev.Responded? {
      assert EffectInv(h, ev.effect);
    }
  }

  /**
   * After any run the live effect polls for the task of the latest render, and what is shown is the last status and the
   * error that answered it; nothing is shown before its first answer.
   */
  lemma {:induction false} ShownIsLastAnswer(events: seq<Event>)
    requires Feasible(MOUNTED, events)
    ensures Reflects(Run(MOUNTED, events), events)
    decreases |events|
  {
    if events != [] {
      var front, last := events[..|events| - 1], events[|events| - 1];
      assert events == front + [last];
      RunAppend(MOUNTED, front, last);
      RunInv(MOUNTED, front);
      ShownIsLastAnswer(front);
      StepReflects(Run(MOUNTED, front), front, last);
    }
  }
}
