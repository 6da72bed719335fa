/**
 * Starting and stopping the crawler: by hand, by the schedule, by the auto-stop timer.
 * Stop channels are numbered in the order they are made; `closed` counts closings.
 */
module CrawlerManagers {
  import opened Basics
  import opened Schedule

  datatype Config = Config(onlyWebServer: bool, scheduleEnabled: bool, start: Option<Clock>, end: Option<Clock>,
                           autoStopMinutes: int)

  datatype State = State(running: bool, stop: Option<nat>, manualOverride: bool, manualRun: bool, manualUntil: int,
                         autoStopAt: Option<int>, made: nat, closed: multiset<nat>, timers: set<nat>)

  function Started(s: State, cfg: Config, now: int): (State, bool) {
    if s.running || cfg.onlyWebServer then (s, false) else
    var timed := cfg.autoStopMinutes > 0;
    (s.(running := true, stop := Some(s.made), made := s.made + 1,
        autoStopAt := if timed then Some(now + cfg.autoStopMinutes * MINUTE) else None,
        timers := s.timers + if timed then {s.made} else {}), true)
  }

  function Stopped(s: State): (State, bool) {
    if !s.running || s.stop.None? then (s, false) else
    (s.(running := false, stop := None, autoStopAt := None, closed := s.closed + multiset{s.stop.value}), true)
  }

  function Overridden(s: State, cfg: Config, now: int, run: bool): State {
    var next := ScheduleState(now, cfg.start, cfg.end).1;
    if !cfg.scheduleEnabled || next.None? then s
    else s.(manualOverride := true, manualRun := run, manualUntil := next.value)
  }

  /** The Start and Stop buttons. */
  function Manual(s: State, cfg: Config, now: int, run: bool): State {
    var s1 := Overridden(s, cfg, now, run);
    if run then Started(s1, cfg, now).0 else Stopped(s1).0
  }

  function Reconciled(s: State, cfg: Config, now: int): State {
    if cfg.onlyWebServer || !cfg.scheduleEnabled then s.(manualOverride := false, manualUntil := 0)
    else if s.manualOverride && now < s.manualUntil then
      if s.manualRun then Started(s, cfg, now).0 else Stopped(s).0
    else
      var s1 := s.(manualOverride := false, manualUntil := 0);
      if ScheduleState(now, cfg.start, cfg.end).0 then Started(s1, cfg, now).0 else Stopped(s1).0
  }

  /** The auto-stop timer of one run fires: it acts only while that run's channel is the current one. */
  function TimerFired(s: State, c: nat): State {
    if s.stop != Some(c) then s else Stopped(s.(manualRun := false)).0
  }

  /** Every channel made so far is the current one, open, or has been closed exactly once. */
  ghost predicate Inv(s: State) {
    && (s.running <==> s.stop.Some?)
    && (s.stop.Some? ==> s.stop.value < s.made)
    && (forall c: nat :: c in s.timers ==> c < s.made)
    && forall c: nat :: s.closed[c] == if c < s.made && s.stop != Some(c) then 1 else 0
  }

  // -------------------------------------------------------------------- runs

  datatype Event =
    | Press(run: bool, at: int)
    | Reconcile(at: int)
    | Fire(c: nat)

  function Next(s: State, cfg: Config, e: Event): State {
    match e
    case Press(run, now) => Manual(s, cfg, now, run)
    case Reconcile(now) => Reconciled(s, cfg, now)
    case Fire(c) => if c in s.timers then TimerFired(s, c) else s
  }

  function Init(): State {
    State(false, None, false, false, 0, None, 0, multiset{}, {})
  }

  /** The configuration may be edited between any two events. */
  function After(s: State, events: seq<(Config, Event)>): State {
    if events == [] then s
    else Next(After(s, events[..|events| - 1]), events[|events| - 1].0, events[|events| - 1].1)
  }

  function Run(events: seq<(Config, Event)>): State {
    After(Init(), events)
  }

  lemma StartedKeepsInv(s: State, cfg: Config, now: int)
    requires Inv(s)
    ensures Inv(Started(s, cfg, now).0)
  {
  }

  lemma StoppedKeepsInv(s: State)
    requires Inv(s)
    ensures Inv(Stopped(s).0)
  {
  }

  lemma NextKeepsInv(s: State, cfg: Config, e: Event)
    requires Inv(s)
    ensures Inv(Next(s, cfg, e))
  {
    var bare, quiet := s.(manualOverride := false, manualUntil := 0), s.(manualRun := false);
    match e {
      case Press(run, now) =>
        StartedKeepsInv(Overridden(s, cfg, now, run), cfg, now);
        StoppedKeepsInv(Overridden(s, cfg, now, run));
      case Reconcile(now) =>
        StartedKeepsInv(s, cfg, now);
        StoppedKeepsInv(s);
        StartedKeepsInv(bare, cfg, now);
        StoppedKeepsInv(bare);
      case Fire(c) => StoppedKeepsInv(quiet);
    }
  }

  lemma {:induction false} AfterKeepsInv(s: State, events: seq<(Config, Event)>)
    requires Inv(s)
    ensures Inv(After(s, events))
  {
    if events != [] {
      AfterKeepsInv(s, events[..|events| - 1]);
      NextKeepsInv(After(s, events[..|events| - 1]), events[|events| - 1].0, events[|events| - 1].1);
    }
  }

  /**
   * In every run, whatever is configured: the crawler runs exactly when it has a stop
   * channel, each channel is closed at most once, and the current one is open.
   */
  lemma RunKeepsInv(events: seq<(Config, Event)>)
    ensures Inv(Run(events))
  {
    AfterKeepsInv(Init(), events);
  }

  /** A timer whose channel has been closed does nothing: an old run's timer never stops a later run. */
  lemma StaleTimerIsHarmless(events: seq<(Config, Event)>, c: nat)
    requires c in Run(events).closed
    ensures TimerFired(Run(events), c) == Run(events)
  {
    RunKeepsInv(events);
  }

  /** A start takes a channel no earlier run had, so its timer is no earlier run's. */
  lemma StartsAreFresh(events: seq<(Config, Event)>, cfg: Config, now: int)
    ensures var s, s' := Run(events), Started(Run(events), cfg, now).0;
            s'.stop != s.stop ==> s'.stop.Some? && s'.stop.value !in s.timers && s'.stop.value !in s.closed
  {
    RunKeepsInv(events);
  }

  // --------------------------------------------------- what reconciling does

  predicate Scheduled(cfg: Config) {
    !cfg.onlyWebServer && cfg.scheduleEnabled
  }

  predicate HasWindow(cfg: Config) {
    cfg.start.Some? && cfg.end.Some? && cfg.start.value != cfg.end.value
  }

  predicate WindowOpen(cfg: Config, now: int) {
    HasWindow(cfg) && Inside(now, cfg.start.value, cfg.end.value)
  }

  /** After a reconcile the crawler runs as the manual choice says before its end, and as the window says from there. */
  lemma ReconcileDecides(s: State, cfg: Config, now: int)
    requires Inv(s) && Scheduled(cfg)
    ensures Reconciled(s, cfg, now).running ==
            if s.manualOverride && now < s.manualUntil then s.manualRun else WindowOpen(cfg, now)
  {
  }

  /** What a reconcile leaves of an override: it stays until its end and is gone from there on. */
  lemma ReconcileEndsOverride(s: State, cfg: Config, now: int)
    ensures var s' := Reconciled(s, cfg, now);
            && (s'.manualOverride <==> Scheduled(cfg) && s.manualOverride && now < s.manualUntil)
            && (s'.manualOverride ==> s'.manualUntil == s.manualUntil) && s'.manualRun == s.manualRun
  {
  }

  /** Everything but the override. */
  ghost predicate SameRun(s: State, s': State) {
    && s'.running == s.running && s'.stop == s.stop && s'.autoStopAt == s.autoStopAt
    && s'.made == s.made && s'.closed == s.closed && s'.timers == s.timers
  }

  /** With the schedule off, or only the web server configured, a reconcile ends the override and nothing else. */
  lemma IdleReconcile(s: State, cfg: Config, now: int)
    requires !Scheduled(cfg)
    ensures SameRun(s, Reconciled(s, cfg, now)) && !Reconciled(s, cfg, now).manualOverride
  {
  }

  /** A start makes one new channel, with a timer for it if one is configured; a start while running does nothing. */
  lemma StartDecides(s: State, cfg: Config, now: int)
    requires Inv(s)
    ensures var (s', ok) := Started(s, cfg, now);
            && (ok <==> !s.running && !cfg.onlyWebServer)
            && (!ok ==> s' == s)
            && (ok ==>
                  && s'.running && s'.stop == Some(s.made) && s'.made == s.made + 1 && s'.closed == s.closed
                  && s'.autoStopAt == (if cfg.autoStopMinutes > 0 then Some(now + cfg.autoStopMinutes * 60_000_000_000)
                                       else None)
                  && s'.timers == (if cfg.autoStopMinutes > 0 then s.timers + {s.made} else s.timers))
            && s'.manualOverride == s.manualOverride && s'.manualRun == s.manualRun && s'.manualUntil == s.manualUntil
  {
  }

  /** A stop closes the current channel, once; a stop while stopped does nothing. */
  lemma StopDecides(s: State)
    requires Inv(s)
    ensures var (s', ok) := Stopped(s);
            && (ok <==> s.running) && !s'.running && s'.stop.None?
            && (!ok ==> s' == s)
            && (ok ==> s'.autoStopAt.None? && s'.closed == s.closed + multiset{s.stop.value})
            && s'.made == s.made && s'.timers == s.timers
            && s'.manualOverride == s.manualOverride && s'.manualRun == s.manualRun && s'.manualUntil == s.manualUntil
  {
  }

  /** A press sets an override only where the schedule is on and has a window; it starts or stops in any case. */
  lemma PressDecides(s: State, cfg: Config, now: int, run: bool)
    requires Inv(s)
    ensures var s' := Manual(s, cfg, now, run);
            && s'.running == (if run then s.running || !cfg.onlyWebServer else false)
            && (cfg.scheduleEnabled && HasWindow(cfg) ==>
                  s'.manualOverride && s'.manualRun == run
                  && Some(s'.manualUntil) == ScheduleState(now, cfg.start, cfg.end).1)
            && (!(cfg.scheduleEnabled && HasWindow(cfg)) ==>
                  s'.manualOverride == s.manualOverride && s'.manualRun == s.manualRun
                  && s'.manualUntil == s.manualUntil)
  {
    StartDecides(Overridden(s, cfg, now, run), cfg, now);
    StopDecides(Overridden(s, cfg, now, run));
  }

  /** The timer of the current channel stops the crawler, also for the rest of an override; any other does nothing. */
  lemma TimerDecides(s: State, c: nat)
    requires Inv(s)
    ensures s.stop != Some(c) ==> TimerFired(s, c) == s
    ensures s.stop == Some(c) ==>
              var s' := TimerFired(s, c);
              !s'.running && !s'.manualRun && s'.closed == s.closed + multiset{c}
              && s'.manualOverride == s.manualOverride && s'.manualUntil == s.manualUntil
  {
  }

  /** Nobody presses a button, and the schedule is off. */
  ghost predicate Unscheduled(events: seq<(Config, Event)>) {
    forall i :: 0 <= i < |events| ==> !events[i].1.Press? && !Scheduled(events[i].0)
  }

  /** What is left of a state while the schedule is off: the run, until its own timer ends it. */
  ghost predicate Undisturbed(s: State, now: State, fired: bool) {
    && now.timers == s.timers && now.made == s.made
    && if fired then !now.running && now.stop.None? else now.running == s.running && now.stop == s.stop
  }

  lemma UndisturbedStep(s: State, now: State, fired: bool, cfg: Config, e: Event)
    requires Inv(s) && Undisturbed(s, now, fired) && !Scheduled(cfg) && !e.Press? && (now.running <==> now.stop.Some?)
    ensures Undisturbed(s, Next(now, cfg, e),
                        fired || (s.stop.Some? && s.stop.value in s.timers && e == Fire(s.stop.value)))
  {
  }

  lemma {:induction false} UndisturbedAfter(s: State, events: seq<(Config, Event)>)
    requires Inv(s) && Unscheduled(events)
    ensures Undisturbed(s, After(s, events), OwnTimerFires(s, events))
  {
    if events != [] {
      var n := |events| - 1;
      var front := events[..n];
      UndisturbedAfter(s, front);
      AfterKeepsInv(s, front);
      UndisturbedStep(s, After(s, front), OwnTimerFires(s, front), events[n].0, events[n].1);
      assert forall i :: 0 <= i < n ==> front[i] == events[i];
    }
  }

  /**
   * With the schedule off a press takes effect, and over every list of reconciles and timers after
   * it the crawler goes on as pressed until the timer of its own run fires.
   */
  lemma UnscheduledPressHolds(s: State, cfg: Config, now: int, run: bool, events: seq<(Config, Event)>)
    requires Inv(s) && !cfg.onlyWebServer && !cfg.scheduleEnabled && Unscheduled(events)
    ensures var s1 := Manual(s, cfg, now, run);
            s1.running == run && (After(s1, events).running <==> run && !OwnTimerFires(s1, events))
  {
    PressDecides(s, cfg, now, run);
    NextKeepsInv(s, cfg, Press(run, now));
    UndisturbedAfter(Manual(s, cfg, now, run), events);
  }

  /** Nobody presses a button or turns the schedule off. */
  ghost predicate Untouched(events: seq<(Config, Event)>) {
    forall i :: 0 <= i < |events| ==> !events[i].1.Press? && Scheduled(events[i].0)
  }

  /** All reconciles are before an instant. */
  ghost predicate Before(events: seq<(Config, Event)>, until: int) {
    forall i :: 0 <= i < |events| && events[i].1.Reconcile? ==> events[i].1.at < until
  }

  /** The timer of the current channel, if it has one, is among these events. */
  ghost predicate OwnTimerFires(s: State, events: seq<(Config, Event)>) {
    s.stop.Some? && s.stop.value in s.timers && exists i :: 0 <= i < |events| && events[i].1 == Fire(s.stop.value)
  }

  /** A press as it takes effect: the override says so, and the crawler does. */
  lemma PressTakesEffect(s: State, cfg: Config, now: int, run: bool)
    requires Inv(s) && Scheduled(cfg) && HasWindow(cfg)
    ensures var s' := Manual(s, cfg, now, run);
            && Inv(s') && s'.running == run && s'.manualOverride && s'.manualRun == run
            && ScheduleState(now, cfg.start, cfg.end).1 == Some(s'.manualUntil)
  {
    NextKeepsInv(s, cfg, Press(run, now));
  }

  /** What a press leaves behind while it lasts, from the state right after it. */
  ghost predicate Pressed(s: State, now: State, fired: bool) {
    && now.manualOverride && now.manualUntil == s.manualUntil
    && now.timers == s.timers && now.made == s.made
    && (if fired then !now.running && now.stop.None? && !now.manualRun
        else now.running == s.running && now.stop == s.stop && now.manualRun == s.manualRun)
  }

  lemma PressedStep(s: State, now: State, fired: bool, cfg: Config, e: Event)
    requires Inv(s) && s.manualRun == s.running && Pressed(s, now, fired) && Scheduled(cfg)
    requires !e.Press? && (e.Reconcile? ==> e.at < s.manualUntil)
    ensures Pressed(s, Next(now, cfg, e),
                    fired || (s.stop.Some? && s.stop.value in s.timers && e == Fire(s.stop.value)))
  {
  }

  lemma {:induction false} PressedAfter(s: State, events: seq<(Config, Event)>)
    requires Inv(s) && s.manualOverride && s.manualRun == s.running
    requires Untouched(events) && Before(events, s.manualUntil)
    ensures Pressed(s, After(s, events), OwnTimerFires(s, events))
  {
    if events != [] {
      var n := |events| - 1;
      var front := events[..n];
      PressedAfter(s, front);
      PressedStep(s, After(s, front), OwnTimerFires(s, front), events[n].0, events[n].1);
      assert forall i :: 0 <= i < n ==> front[i] == events[i];
    }
  }

  /**
   * Until the window next changes, a press holds against every mix of reconciles, timers of
   * any run and edits of the window: a Stop always, a Start exactly until the timer of the
   * run it started or found fires.
   */
  lemma PressHolds(s: State, cfg: Config, now: int, run: bool, events: seq<(Config, Event)>)
    requires Inv(s) && Scheduled(cfg) && HasWindow(cfg) && Untouched(events)
    requires Before(events, ScheduleState(now, cfg.start, cfg.end).1.value)
    ensures var s1 := Manual(s, cfg, now, run);
            After(s1, events).running <==> run && !OwnTimerFires(s1, events)
  {
    PressTakesEffect(s, cfg, now, run);
    PressedAfter(Manual(s, cfg, now, run), events);
  }

  /** An override, while there is one, ends when it was set to. */
  lemma {:induction false} OverrideEnds(s: State, events: seq<(Config, Event)>)
    requires Untouched(events)
    ensures After(s, events).manualOverride ==> After(s, events).manualUntil == s.manualUntil
  {
    if events != [] {
      OverrideEnds(s, events[..|events| - 1]);
    }
  }

  /** From the next change of the window on, every reconcile does what the window then says. */
  lemma WindowTakesOver(s: State, cfg: Config, now: int, run: bool, events: seq<(Config, Event)>, cfg': Config, at: int)
    requires Inv(s) && Scheduled(cfg) && HasWindow(cfg) && Untouched(events) && Scheduled(cfg')
    requires ScheduleState(now, cfg.start, cfg.end).1.value <= at
    ensures Reconciled(After(Manual(s, cfg, now, run), events), cfg', at).running == WindowOpen(cfg', at)
  {
    PressTakesEffect(s, cfg, now, run);
    OverrideEnds(Manual(s, cfg, now, run), events);
    AfterKeepsInv(Manual(s, cfg, now, run), events);
    ReconcileDecides(After(Manual(s, cfg, now, run), events), cfg', at);
  }

  /** Such a timer is armed exactly when the configuration of the start asks for one. */
  lemma StartArmsTimer(s: State, cfg: Config, now: int)
    requires Inv(s) && !s.running && !cfg.onlyWebServer
    ensures var s1 := Manual(s, cfg, now, true);
            s1.stop.Some? && (s1.stop.value in s1.timers <==> cfg.autoStopMinutes > 0)
  {
  }

  /**
   * A press against the window takes effect at once and the window then takes over without
   * a break: at the very instant the press ends, the window asks for what was pressed.
   */
  lemma PressAgainstWindowHandsOver(s: State, cfg: Config, now: int, run: bool)
    requires Inv(s) && Scheduled(cfg) && HasWindow(cfg) && run != WindowOpen(cfg, now)
    ensures var next := ScheduleState(now, cfg.start, cfg.end).1.value;
            && Manual(s, cfg, now, run).running == run
            && Reconciled(Manual(s, cfg, now, run), cfg, next).running == run
  {
    var next := ScheduleState(now, cfg.start, cfg.end).1.value;
    NextIsFirstFlip(now, cfg.start.value, cfg.end.value, now);
    PressTakesEffect(s, cfg, now, run);
    WindowTakesOver(s, cfg, now, run, [], cfg, next);
  }

  /**
   * An automatic stop lasts through the next reconcile exactly when an override is still
   * in force or the window is closed; otherwise the schedule starts the crawler again.
   */
  lemma AutoStopLasts(s: State, cfg: Config, c: nat, now: int)
    requires Inv(s) && Scheduled(cfg) && s.stop == Some(c)
    ensures !TimerFired(s, c).running
    ensures !Reconciled(TimerFired(s, c), cfg, now).running <==>
            (s.manualOverride && now < s.manualUntil) || !WindowOpen(cfg, now)
  {
    var quiet := s.(manualRun := false);
    StoppedKeepsInv(quiet);
    ReconcileDecides(TimerFired(s, c), cfg, now);
  }

  // --------------------------------------------------------------- the class

  class CrawlerManager {
    var configuration: Config
    var running: bool
    var stop: Option<nat>
    var manualOverride: bool
    var manualRun: bool
    var manualUntil: int
    var autoStopAt: Option<int>
    ghost var made: nat
    ghost var closed: multiset<nat>
    ghost var timers: set<nat>
    var nextChannel: nat

    ghost function View(): State
      reads this
    {
      State(running, stop, manualOverride, manualRun, manualUntil, autoStopAt, made, closed, timers)
    }

    ghost predicate Valid()
      reads this
    {
      Inv(View()) && nextChannel == made
    }

    constructor (configuration: Config)
      ensures Valid() && View() == Init() && this.configuration == configuration
    {
      this.configuration := configuration;
      running, stop, manualOverride, manualRun, manualUntil, autoStopAt := false, None, false, false, 0, None;
      made, closed, timers, nextChannel := 0, multiset{}, {}, 0;
    }

    method StartLocked(now: int) returns (ok: bool)
      requires Valid()
      modifies this
      ensures Valid() && configuration == old(configuration)
      ensures (View(), ok) == Started(old(View()), configuration, now)
    {
      StartedKeepsInv(View(), configuration, now);
      if running || configuration.onlyWebServer {
        return false;
      }
      var channel := nextChannel;
      nextChannel, made := nextChannel + 1, made + 1;
      stop := Some(channel);
      running := true;
      autoStopAt := None;
      if configuration.autoStopMinutes > 0 {
        autoStopAt := Some(now + configuration.autoStopMinutes * MINUTE);
        timers := timers + {channel};
      } else {
        assert timers + {} == timers;
      }
      return true;
    }

    /** close(m.stop) is safe: a running crawler has an open channel. */
    method StopLocked() returns (ok: bool)
      requires Valid()
      modifies this
      ensures Valid() && configuration == old(configuration)
      ensures (View(), ok) == Stopped(old(View()))
      ensures ok ==> old(stop).Some? && old(stop).value !in old(closed)
    {
      StoppedKeepsInv(View());
      if !running {
        return false;
      }
      closed := closed + multiset{stop.value};
      running := false;
      stop := None;
      autoStopAt := None;
      return true;
    }

    method SetManualOverrideLocked(now: int, run: bool)
      requires Valid()
      modifies this
      ensures Valid() && configuration == old(configuration)
      ensures View() == Overridden(old(View()), configuration, now, run)
    {
      if !configuration.scheduleEnabled {
        return;
      }
      var (_, next) := ScheduleState(now, configuration.start, configuration.end);
      if next.None? {
        return;
      }
      manualOverride := true;
      manualRun := run;
      manualUntil := next.value;
    }

    /** Start and Stop. */
    method Press(run: bool, now: int) returns (ok: bool)
      requires Valid()
      modifies this
      ensures Valid() && configuration == old(configuration)
      ensures View() == Manual(old(View()), configuration, now, run)
    {
      SetManualOverrideLocked(now, run);
      if run {
        ok := StartLocked(now);
      } else {
        ok := StopLocked();
      }
    }

    method ReconcileSchedule(now: int)
      requires Valid()
      modifies this
      ensures Valid() && configuration == old(configuration)
      ensures View() == Reconciled(old(View()), configuration, now)
    {
      if configuration.onlyWebServer || !configuration.scheduleEnabled {
        manualOverride := false;
        manualUntil := 0;
        return;
      }
      if manualOverride && now < manualUntil {
        if manualRun {
          var _ := StartLocked(now);
        } else {
          var _ := StopLocked();
        }
        return;
      }
      manualOverride := false;
      manualUntil := 0;
      var (shouldRun, _) := ScheduleState(now, configuration.start, configuration.end);
      if shouldRun {
        var _ := StartLocked(now);
      } else {
        var _ := StopLocked();
      }
    }

    /** stopAfter, once its timer has fired. */
    method StopAfter(channel: nat)
      requires Valid()
      modifies this
      ensures Valid() && View() == TimerFired(old(View()), channel)
    {
      if stop == Some(channel) {
        manualRun := false;
        var _ := StopLocked();
      }
    }
  }
}
