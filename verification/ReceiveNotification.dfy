/**
  The wake-up of the receive path (adapter/rxqueue.h, adapter/adapter.cpp): any number of producers
  enqueue buffers and then exchange the notification flag; the operating system arms it.
 */
module ReceiveNotification {

  type Producer = nat

  /**
    flag, how often it was armed and how often it fired; since it was last armed: the producers that
    have enqueued a buffer, whether it fired, and whether the system switched it off. between are
    the producers that have enqueued and not yet run their exchange.
   */
  datatype State = State(
    flag: bool,
    armed: nat,
    fired: nat,
    enqueued: set<Producer>,
    firedSince: bool,
    switchedOff: bool,
    between: set<Producer>)

  /** stored says whether the buffer got into the queue; the exchange follows in any case. */
  datatype Step =
    | Enqueue(p: Producer, stored: bool)
    | Exchange(p: Producer)
    | Arm
    | SwitchOff

  function Initial(): State {
    State(false, 0, 0, {}, false, true, {})
  }

  predicate Enabled(s: State, step: Step) {
    match step
    case Enqueue(p, _) => p !in s.between
    case Exchange(p) => p in s.between
    case _ => true
  }

  function Apply(s: State, step: Step): State {
    match step
    case Enqueue(p, stored) =>
      s.(between := s.between + {p}, enqueued := if stored then s.enqueued + {p} else s.enqueued)
    case Exchange(p) =>
      var passed := s.(flag := false, between := s.between - {p});
      if s.flag then passed.(fired := s.fired + 1, firedSince := true) else passed
    case Arm =>
      s.(flag := true, armed := s.armed + 1, enqueued := {}, firedSince := false, switchedOff := false)
    case SwitchOff => s.(flag := false, switchedOff := true)
  }

  /** Producers and the system are free: only an exchange waits for something, for its own producer's turn. */
  lemma EnabledIff(s: State, p: Producer, stored: bool)
    ensures Enabled(s, Enqueue(p, stored)) <==> p !in s.between
    ensures Enabled(s, Exchange(p)) <==> p in s.between
    ensures Enabled(s, Arm) && Enabled(s, SwitchOff)
  {
  }

  /** The books over any run without arming: who has stored a buffer since, and who has not exchanged yet. */
  lemma {:induction false} BooksAreRight(s: State, steps: seq<Step>, p: Producer)
    requires CanRun(s, steps) && Arm !in steps
    ensures var s' := Run(s, steps);
            && (p in s'.enqueued <==> p in s.enqueued || Enqueue(p, true) in steps)
            && s'.armed == s.armed
            && (s'.switchedOff <==> s.switchedOff || SwitchOff in steps)
            && (s'.firedSince <==> s.firedSince || s'.fired > s.fired)
            && s'.fired >= s.fired
    decreases |steps|
  {
    if steps != [] {
      BooksAreRight(Apply(s, steps[0]), steps[1..], p);
      assert steps == [steps[0]] + steps[1..];
    }
  }

  /** One step: who is between the queue and the exchange, and what arming starts anew. */
  lemma StepEffects(s: State, p: Producer, stored: bool)
    ensures Apply(s, Enqueue(p, stored)).between == s.between + {p}
    ensures Apply(s, Exchange(p)).between == s.between - {p}
    ensures var armed := Apply(s, Arm);
            && armed.flag && armed.armed == s.armed + 1 && armed.fired == s.fired && armed.between == s.between
            && armed.enqueued == {} && !armed.firedSince && !armed.switchedOff
    ensures Apply(s, SwitchOff) == s.(flag := false, switchedOff := true)
  {
  }

  /**
    While the flag is set, every buffer enqueued since it was armed belongs to a producer that will
    still run its exchange; a flag that is down fired or was switched off; it fired at most as
    often as it was armed.
   */
  predicate Inv(s: State) {
    && (s.flag ==> s.enqueued <= s.between && !s.firedSince && !s.switchedOff)
    && (!s.flag ==> s.firedSince || s.switchedOff)
    && s.fired + (if s.flag then 1 else 0) <= s.armed
  }

  function Run(s: State, steps: seq<Step>): State
    decreases |steps|
  {
    if steps == [] then s else Run(Apply(s, steps[0]), steps[1..])
  }

  predicate CanRun(s: State, steps: seq<Step>)
    decreases |steps|
  {
    steps == [] || (Enabled(s, steps[0]) && CanRun(Apply(s, steps[0]), steps[1..]))
  }

  lemma {:induction false} RunKeeps(s: State, steps: seq<Step>)
    requires Inv(s) && CanRun(s, steps)
    ensures Inv(Run(s, steps))
    decreases |steps|
  {
    if steps != [] {
      RunKeeps(Apply(s, steps[0]), steps[1..]);
    }
  }

  /**
    No wake-up is lost, in any interleaving: once a buffer was enqueued after arming and every
    producer has finished, a notification has fired since, unless the system switched it off.
   */
  lemma NoLostWakeUp(steps: seq<Step>)
    requires CanRun(Initial(), steps)
    ensures var s := Run(Initial(), steps);
            && (s.enqueued != {} && s.between == {} ==> s.firedSince || s.switchedOff)
            && (s.flag ==> s.enqueued <= s.between)
            && s.fired <= s.armed
  {
    RunKeeps(Initial(), steps);
  }

  /**
    What fires, told from the steps alone: while the system neither arms nor switches off, the first exchange
    fires if the flag is set, and no other one does.
   */
  lemma {:induction false} FiresIff(s: State, steps: seq<Step>)
    requires forall step <- steps :: !step.Arm? && !step.SwitchOff?
    ensures var exchanged := exists step :: step in steps && step.Exchange?;
            && Run(s, steps).fired == s.fired + (if s.flag && exchanged then 1 else 0)
            && Run(s, steps).flag == (s.flag && !exchanged)
    decreases |steps|
  {
    if steps != [] {
      FiresIff(Apply(s, steps[0]), steps[1..]);
      assert steps == [steps[0]] + steps[1..];
      if step :| step in steps && step.Exchange? {
        assert step == steps[0] || step in steps[1..];
      }
    }
  }

  /** Whoever runs an exchange after arming, a notification has fired by then, unless the flag was switched off. */
  lemma {:induction false} WakeUpFires(s: State, steps: seq<Step>)
    requires forall step <- steps :: !step.SwitchOff?
    requires exists step :: step in steps && step.Exchange?
    ensures Run(Apply(s, Arm), steps).fired > s.fired
    decreases |steps|
  {
    if steps[0].Exchange? {
      FiredGrows(Apply(Apply(s, Arm), steps[0]), steps[1..]);
    } else {
      var step :| step in steps && step.Exchange?;
      assert step in steps[1..];
      var next := Apply(Apply(s, Arm), steps[0]);
      Rearmed(next, steps[1..]);
      WakeUpFires(next, steps[1..]);
    }
  }

  lemma {:induction false} FiredGrows(s: State, steps: seq<Step>)
    ensures Run(s, steps).fired >= s.fired
    decreases |steps|
  {
    if steps != [] {
      FiredGrows(Apply(s, steps[0]), steps[1..]);
    }
  }

  /** What fires depends on the flag only: arming a flag that is set makes no difference. */
  lemma {:induction false} SameFiring(s: State, t: State, steps: seq<Step>)
    requires s.flag == t.flag && s.fired == t.fired
    ensures Run(s, steps).fired == Run(t, steps).fired
    decreases |steps|
  {
    if steps != [] {
      SameFiring(Apply(s, steps[0]), Apply(t, steps[0]), steps[1..]);
    }
  }

  lemma Rearmed(s: State, steps: seq<Step>)
    requires s.flag
    ensures Run(s, steps).fired == Run(Apply(s, Arm), steps).fired
  {
    SameFiring(s, Apply(s, Arm), steps);
  }

  /**
    What arming does not cover: a buffer whose producer finished before. Nothing fires for it, so the
    system has to look at the queue once more after arming.
   */
  lemma ArmingComesTooLate()
    ensures var steps := [Enqueue(0, true), Exchange(0), Arm];
            CanRun(Initial(), steps) && Run(Initial(), steps).fired == 0
  {
    var s1 := Apply(Initial(), Enqueue(0, true));
    var s2 := Apply(s1, Exchange(0));
    var s3 := Apply(s2, Arm);
    assert Run(s3, []) == s3 && CanRun(s3, []);
    assert [Arm][1..] == [] && Run(s2, [Arm]) == s3 && CanRun(s2, [Arm]);
    assert [Exchange(0), Arm][1..] == [Arm] && Run(s1, [Exchange(0), Arm]) == s3 && CanRun(s1, [Exchange(0), Arm]);
    assert [Enqueue(0, true), Exchange(0), Arm][1..] == [Exchange(0), Arm];
  }

  /** The field, written by interlocked exchanges. state is how far the producers and the system have come. */
  class NotificationFlag {
    var notificationEnabled: bool
    var fired: nat
    ghost var state: State

    ghost predicate Valid()
      reads this
    {
      state.flag == notificationEnabled && state.fired == fired && Inv(state)
    }

    constructor ()
      ensures Valid() && state == Initial()
    {
      notificationEnabled, fired, state := false, 0, Initial();
    }

    method SetNotificationEnabled(enabled: bool)
      requires Valid()
      modifies this
      ensures Valid() && notificationEnabled == enabled && fired == old(fired)
      ensures state == Apply(old(state), if enabled then Arm else SwitchOff)
    {
      notificationEnabled := enabled;
      state := Apply(state, if enabled then Arm else SwitchOff);
    }

    /** What a producer does before its exchange: it puts its buffer into the queue, if a record can be had. */
    ghost method EnqueueBuffer(p: Producer, stored: bool)
      requires Valid() && Enabled(state, Enqueue(p, stored))
      modifies this`state
      ensures Valid() && state == Apply(old(state), Enqueue(p, stored))
    {
      state := Apply(state, Enqueue(p, stored));
    }

    /** The exchange: fires once for each time the flag is found set. */
    method NotifyReceive(ghost p: Producer)
      requires Valid() && Enabled(state, Exchange(p))
      modifies this
      ensures Valid() && !notificationEnabled
      ensures fired == old(fired) + if old(notificationEnabled) then 1 else 0
      ensures state == Apply(old(state), Exchange(p))
    {
      var was := notificationEnabled;
      notificationEnabled := false;
      if was {
        fired := fired + 1;
      }
      state := Apply(state, Exchange(p));
    }

    /**
      Any interleaving of producers and the system on the field: once a buffer was enqueued after arming
      and every producer is through, a notification has fired since, unless the system switched it off.
     */
    method Interleave(steps: seq<Step>)
      requires Valid() && CanRun(state, steps)
      modifies this
      ensures Valid() && state == Run(old(state), steps)
      ensures state.enqueued != {} && state.between == {} ==> state.firedSince || state.switchedOff
    {
      hide Enabled;
      hide Apply;
      hide Inv;
      ghost var start := state;
      for i := 0 to |steps|
        invariant Valid() && CanRun(state, steps[i..]) && Run(start, steps) == Run(state, steps[i..])
      {
        assert steps[i..][0] == steps[i] && steps[i..][1..] == steps[i + 1..];
        Take(steps[i]);
      }
      NothingLost(state);
    }

    method Take(step: Step)
      requires Valid() && Enabled(state, step)
      modifies this
      ensures Valid() && state == Apply(old(state), step)
    {
      match step {
        case Enqueue(p, stored) => EnqueueBuffer(p, stored);
        case Exchange(p) => NotifyReceive(p);
        case Arm => SetNotificationEnabled(true);
        case SwitchOff => SetNotificationEnabled(false);
      }
    }
  }

  lemma NothingLost(s: State)
    requires Inv(s)
    ensures s.enqueued != {} && s.between == {} ==> s.firedSince || s.switchedOff
  {
  }
}
