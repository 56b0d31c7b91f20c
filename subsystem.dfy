/** UTimeVerificationSubsystem: at game-instance start, when enabled, run the clock
    integrity scan and then the date gate, and arm the termination hook on the first
    check that fails. */
module Subsystem {
  import opened TimeVerificationConfig
  import opened ClockIntegrity
  import opened DateGate
  import opened Termination

  /** How Initialize ends. */
  datatype InitOutcome =
    | Disabled    // no configuration, or verification switched off
    | ScanFailed  // a future-dated file was found; the date gate was not consulted
    | DateDenied  // the scan passed and the date gate refused
    | Passed      // both checks passed

  predicate ScanRuns(outcome: InitOutcome) { outcome != Disabled }
  predicate GateRuns(outcome: InitOutcome) { outcome == DateDenied || outcome == Passed }
  predicate ArmsExit(outcome: InitOutcome) { outcome == ScanFailed || outcome == DateDenied }

  /** The decision Initialize takes. The scan always comes first; the gate is consulted
      only after the scan passed; termination is armed exactly when one of them fails. */
  function InitializeOutcome(config: ConfigLookup, env: Environment, fs: FileSystem,
                             nowUtc: int, nowLocal: LocalDateTime): (outcome: InitOutcome)
    ensures !ScanRuns(outcome) <==> !IsEnabled(config)
    ensures GateRuns(outcome) ==> ScanRuns(outcome)
    ensures GateRuns(outcome) <==> IsEnabled(config) && IntegrityHolds(env, fs, nowUtc)
    ensures ArmsExit(outcome) <==>
              IsEnabled(config) &&
              (!IntegrityHolds(env, fs, nowUtc) || !IsBeforeVerificationDate(config, nowLocal))
  {
    if !IsEnabled(config) then Disabled
    else if !IntegrityHolds(env, fs, nowUtc) then ScanFailed
    else if !IsBeforeVerificationDate(config, nowLocal) then DateDenied
    else Passed
  }

  /** A cutoff of 2025-01-10 with a clean scan: the session runs on the cutoff day
      and is set to end on the day after. */
  lemma CutoffScenarios(env: Environment, fs: FileSystem, nowUtc: int, nowLocal: LocalDateTime)
    requires IntegrityHolds(env, fs, nowUtc)
    ensures DateOnly(nowLocal) == Calendar.Date(2025, 1, 10) ==>
              InitializeOutcome(Some(VerificationConfig(true, 2025, 1, 10)), env, fs, nowUtc, nowLocal) == Passed
    ensures DateOnly(nowLocal) == Calendar.Date(2025, 1, 11) ==>
              InitializeOutcome(Some(VerificationConfig(true, 2025, 1, 10)), env, fs, nowUtc, nowLocal) == DateDenied
  {
  }

  /** Initialize: do nothing when disabled; otherwise call ExitGame, once, on the first
      failing check. */
  method Initialize(hook: TerminationHook, config: ConfigLookup, env: Environment, fs: FileSystem,
                    nowUtc: int, nowLocal: LocalDateTime)
    requires hook.Valid()
    modifies hook
    ensures hook.Valid()
    ensures ArmsExit(InitializeOutcome(config, env, fs, nowUtc, nowLocal)) ==>
              hook.armed && hook.pendingQuits == old(hook.pendingQuits) &&
              hook.effects == old(hook.effects) + [Subscribed]
    ensures !ArmsExit(InitializeOutcome(config, env, fs, nowUtc, nowLocal)) ==>
              hook.armed == old(hook.armed) && hook.pendingQuits == old(hook.pendingQuits) &&
              hook.effects == old(hook.effects)
  {
    if config.None? || !config.value.enabled {
      return;
    }
    var integrityOk := CheckSystemTimeIntegrity(env, fs, nowUtc);
    if !integrityOk {
      hook.ExitGame();
      return;
    }
    if !IsBeforeVerificationDate(config, nowLocal) {
      hook.ExitGame();
      return;
    }
  }

  /** What the engine does after Initialize: worlds finish initializing, frames tick. */
  datatype HostEvent = WorldInitialized(world: World) | NextTick

  /** The position of the first world event, every event before it being a tick;
      the length of the sequence when there is none. */
  function FirstWorldIndex(events: seq<HostEvent>): (w: nat)
    ensures w <= |events|
    ensures w < |events| ==> events[w].WorldInitialized?
    ensures forall j :: 0 <= j < w ==> events[j].NextTick?
  {
    if events == [] || events[0].WorldInitialized? then 0
    else 1 + FirstWorldIndex(events[1..])
  }

  /** One session: a fresh hook, Initialize, then the host's events in order. Returns
      everything the hook made happen. At most one dialog and one quit, ever; nothing
      at all unless a check failed; ticks before any world change nothing; and the
      first world to finish initializing decides: a game world gets the dialog, then
      the quit on a later tick, any other world disarms the hook for good. */
  method RunSession(config: ConfigLookup, env: Environment, fs: FileSystem,
                    nowUtc: int, nowLocal: LocalDateTime, events: seq<HostEvent>)
    returns (log: seq<Effect>)
    ensures Occurrences(log, Subscribed) <= 1
    ensures Occurrences(log, DialogShown) <= 1
    ensures Occurrences(log, QuitScheduled) <= 1
    ensures Occurrences(log, QuitExecuted) <= 1
    ensures !ArmsExit(InitializeOutcome(config, env, fs, nowUtc, nowLocal)) ==> log == []
    ensures ArmsExit(InitializeOutcome(config, env, fs, nowUtc, nowLocal)) ==> |log| > 0 && log[0] == Subscribed
    ensures ArmsExit(InitializeOutcome(config, env, fs, nowUtc, nowLocal)) &&
            FirstWorldIndex(events) == |events| ==>
              log == [Subscribed]
    ensures ArmsExit(InitializeOutcome(config, env, fs, nowUtc, nowLocal)) &&
            FirstWorldIndex(events) < |events| &&
            !IsGameWorld(events[FirstWorldIndex(events)].world) ==>
              log == [Subscribed, Unsubscribed]
    ensures ArmsExit(InitializeOutcome(config, env, fs, nowUtc, nowLocal)) &&
            FirstWorldIndex(events) < |events| &&
            IsGameWorld(events[FirstWorldIndex(events)].world) ==>
              log == [Subscribed, Unsubscribed, DialogShown, QuitScheduled] +
                     (if exists j :: FirstWorldIndex(events) < j < |events| && events[j].NextTick?
                      then [QuitExecuted] else [])
  {
    var hook := new TerminationHook();
    Initialize(hook, config, env, fs, nowUtc, nowLocal);
    ghost var arms := ArmsExit(InitializeOutcome(config, env, fs, nowUtc, nowLocal));
    ghost var w := FirstWorldIndex(events);
    ghost var firstIsGame := w < |events| && IsGameWorld(events[w].world);
    ghost var firstIsOther := w < |events| && !IsGameWorld(events[w].world);
    ghost var ticked := false;
    var i := 0;
    while i < |events|
      invariant 0 <= i <= |events|
      invariant hook.Valid()
      invariant Occurrences(hook.effects, Subscribed) == if arms then 1 else 0
      invariant !arms ==> hook.effects == [] && !hook.armed && hook.pendingQuits == 0
      invariant arms ==> |hook.effects| > 0 && hook.effects[0] == Subscribed
      invariant arms && i <= w ==> hook.armed && hook.pendingQuits == 0 && hook.effects == [Subscribed]
      invariant ticked <==> exists j :: w < j < i && events[j].NextTick?
      invariant arms && i > w && firstIsOther ==>
                  hook.effects == [Subscribed, Unsubscribed] && !hook.armed && hook.pendingQuits == 0
      invariant arms && i > w && firstIsGame ==>
                  !hook.armed && hook.pendingQuits == (if ticked then 0 else 1) &&
                  hook.effects == [Subscribed, Unsubscribed, DialogShown, QuitScheduled] +
                                  (if ticked then [QuitExecuted] else [])
    {
      match events[i] {
        case WorldInitialized(world) =>
          hook.OnPostWorldInitialization(world);
        case NextTick =>
          hook.Tick();
          if i > w {
            ticked := true;
          }
      }
      i := i + 1;
    }
    log := hook.effects;
  }
}
