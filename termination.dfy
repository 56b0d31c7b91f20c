/** The one-shot termination hook: once armed, it waits for the next world to finish
    initializing, unsubscribes at once, and, for a running game world only, shows the
    failure dialog and leaves the quit to the next tick. */
module Termination {

  /** EWorldType. */
  datatype WorldType = Unspecified | Game | Editor | PlayInEditor | EditorPreview | GamePreview | GameRpc | Inactive

  /** The world handed to the post-initialization event; it may be null. */
  datatype World = NullWorld | LiveWorld(worldType: WorldType)

  /** What the hook makes happen, in order. */
  datatype Effect =
    | Subscribed      // OnWorldReady bound to the post-initialization event
    | Unsubscribed    // every binding of the subsystem removed from that event
    | DialogShown     // the blocking "verification failed" message
    | QuitScheduled   // a QuitGame call set for the next tick
    | QuitExecuted    // that call made

  predicate IsGameWorld(world: World) {
    world.LiveWorld? && world.worldType == Game
  }

  /** How often `e` appears in `log`. */
  function Occurrences(log: seq<Effect>, e: Effect): (n: nat)
    ensures n <= |log|
  {
    if log == [] then 0 else (if log[0] == e then 1 else 0) + Occurrences(log[1..], e)
  }

  lemma {:induction false} OccurrencesAppend(a: seq<Effect>, b: seq<Effect>, e: Effect)
    ensures Occurrences(a + b, e) == Occurrences(a, e) + Occurrences(b, e)
  {
    if a == [] {
      assert a + b == b;
    } else {
      assert (a + b)[1..] == a[1..] + b;
      OccurrencesAppend(a[1..], b, e);
    }
  }

  /** `n` copies of `e`. */
  function Repeat(e: Effect, n: nat): (r: seq<Effect>)
    ensures |r| == n
    ensures forall i :: 0 <= i < n ==> r[i] == e
  {
    if n == 0 then [] else [e] + Repeat(e, n - 1)
  }

  lemma {:induction false} OccurrencesRepeat(e: Effect, n: nat, x: Effect)
    ensures Occurrences(Repeat(e, n), x) == if e == x then n else 0
  {
    if n > 0 {
      assert Repeat(e, n)[1..] == Repeat(e, n - 1);
      OccurrencesRepeat(e, n - 1, x);
    }
  }

  /** Every scheduled quit comes right after its dialog, which comes right after the
      unsubscription of the firing that caused it. */
  ghost predicate QuitsFollowDialogs(log: seq<Effect>) {
    forall i :: 0 <= i < |log| && log[i] == QuitScheduled ==>
      2 <= i && log[i - 1] == DialogShown && log[i - 2] == Unsubscribed
  }

  /** Appending one well-ordered log to another keeps it well-ordered. */
  lemma QuitsFollowDialogsAppend(a: seq<Effect>, b: seq<Effect>)
    requires QuitsFollowDialogs(a) && QuitsFollowDialogs(b)
    ensures QuitsFollowDialogs(a + b)
  {
    var log := a + b;
    forall i | 0 <= i < |log| && log[i] == QuitScheduled
      ensures 2 <= i && log[i - 1] == DialogShown && log[i - 2] == Unsubscribed
    {
      if i >= |a| {
        assert b[i - |a|] == QuitScheduled;
      } else {
        assert a[i] == QuitScheduled;
      }
    }
  }

  /** Counting distributes over appending, for every effect at once. */
  lemma OccurrencesAppendAll(a: seq<Effect>, b: seq<Effect>)
    ensures forall e :: Occurrences(a + b, e) == Occurrences(a, e) + Occurrences(b, e)
  {
    forall e ensures Occurrences(a + b, e) == Occurrences(a, e) + Occurrences(b, e) {
      OccurrencesAppend(a, b, e);
    }
  }

  class TerminationHook {
    /** OnWorldReady is bound to the post-initialization event. */
    var armed: bool
    /** Quit calls waiting for the next tick. */
    var pendingQuits: nat
    /** Everything the hook has made happen so far. */
    var effects: seq<Effect>

    /** Each subscription leads to at most one scheduled quit, and a live one to none
        yet; each scheduled quit has had its dialog and is run or still pending. */
    ghost predicate Valid()
      reads this
    {
      Occurrences(effects, QuitScheduled) + (if armed then 1 else 0) <= Occurrences(effects, Subscribed) &&
      Occurrences(effects, DialogShown) == Occurrences(effects, QuitScheduled) &&
      Occurrences(effects, QuitExecuted) + pendingQuits == Occurrences(effects, QuitScheduled) &&
      QuitsFollowDialogs(effects)
    }

    constructor ()
      ensures Valid()
      ensures !armed && pendingQuits == 0 && effects == []
    {
      armed := false;
      pendingQuits := 0;
      effects := [];
    }

    /** ExitGame: bind OnWorldReady to the post-initialization event. */
    method ExitGame()
      requires Valid()
      modifies this
      ensures Valid()
      ensures armed && pendingQuits == old(pendingQuits)
      ensures effects == old(effects) + [Subscribed]
    {
      OccurrencesAppendAll(effects, [Subscribed]);
      QuitsFollowDialogsAppend(effects, [Subscribed]);
      armed := true;
      effects := effects + [Subscribed];
    }

    /** The engine broadcasts that `world` finished initializing. Without a binding
        nothing runs; otherwise OnWorldReady unbinds first and then, for a game world
        only, shows the dialog and schedules the quit for the next tick. */
    method OnPostWorldInitialization(world: World)
      requires Valid()
      modifies this
      ensures Valid()
      ensures !old(armed) ==> armed == old(armed) && pendingQuits == old(pendingQuits) && effects == old(effects)
      ensures old(armed) ==> !armed
      ensures Occurrences(effects, Subscribed) == Occurrences(old(effects), Subscribed)
      ensures old(armed) && IsGameWorld(world) ==>
                pendingQuits == old(pendingQuits) + 1 &&
                effects == old(effects) + [Unsubscribed, DialogShown, QuitScheduled]
      ensures old(armed) && !IsGameWorld(world) ==>
                pendingQuits == old(pendingQuits) && effects == old(effects) + [Unsubscribed]
    {
      if !armed {
        return;
      }
      ghost var before := effects;
      armed := false;
      effects := effects + [Unsubscribed];
      if !IsGameWorld(world) {
        OccurrencesAppendAll(before, [Unsubscribed]);
        QuitsFollowDialogsAppend(before, [Unsubscribed]);
        return;
      }
      effects := effects + [DialogShown];
      effects := effects + [QuitScheduled];
      pendingQuits := pendingQuits + 1;
      var added := [Unsubscribed, DialogShown, QuitScheduled];
      assert effects == before + added;
      OccurrencesAppendAll(before, added);
      QuitsFollowDialogsAppend(before, added);
    }

    /** The next tick: every quit set for it runs. */
    method Tick()
      requires Valid()
      modifies this
      ensures Valid()
      ensures armed == old(armed) && pendingQuits == 0
      ensures Occurrences(effects, Subscribed) == Occurrences(old(effects), Subscribed)
      ensures effects == old(effects) + Repeat(QuitExecuted, old(pendingQuits))
    {
      var ran := Repeat(QuitExecuted, pendingQuits);
      OccurrencesRepeat(QuitExecuted, pendingQuits, QuitScheduled);
      OccurrencesRepeat(QuitExecuted, pendingQuits, Subscribed);
      OccurrencesRepeat(QuitExecuted, pendingQuits, DialogShown);
      OccurrencesRepeat(QuitExecuted, pendingQuits, QuitExecuted);
      OccurrencesAppendAll(effects, ran);
      QuitsFollowDialogsAppend(effects, ran);
      effects := effects + ran;
      pendingQuits := 0;
    }
  }
}
