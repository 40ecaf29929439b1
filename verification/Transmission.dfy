/**
  Who owns a transmit request, under every interleaving of the sender, the USB stack's completions and
  the stopping of the queue (adapter/txqueue.cpp, common/buffers.cpp, function/device.cpp). One
  Step is one action that other threads can come between.
 */
module Transmission {

  import opened Common

  type Id = nat

  /** The thread that runs Advance and, inside it, TransmitFrames. */
  datatype Sender =
    | Resting
    | Filling(r: Id)    // taken from the pool
    | Acquired(r: Id)   // rundown protection acquired, not sent yet
    | Failed(r: Id)     // formatting or sending failed, protection not released yet
    | Refused(r: Id)    // TransmitFrames returned a failure
    | Sent              // handed to the stack, TransmitFrames has not returned yet
  {
    predicate Free() {
      Resting? || Sent?
    }

    /** The sender has request q in its hands. */
    predicate Has(q: Id) {
      !Free() && r == q
    }

    /** Acquires of the rundown protection that the sender still has to release. */
    function Acquires(): nat {
      if Acquired? || Failed? then 1 else 0
    }
  }

  /** Where the requests are: in the pool's queue, with the sender, with the stack, or in a completion. */
  datatype Requests = Requests(idle: seq<Id>, sender: Sender, inFlight: set<Id>, completing: set<Id>)

  datatype Rundown = Active | Draining | Drained

  /**
    The rundown protection. A completion first returns its request and then releases the protection;
    releasing counts the completions in between.
   */
  datatype Guard = Guard(rundown: Rundown, count: nat, releasing: nat)

  /** Transfer lengths, and how often each request left the pool and came back. */
  datatype Ledger = Ledger(lengths: map<Id, nat>, taken: map<Id, nat>, returned: map<Id, nat>)

  datatype State = State(requests: Requests, guard: Guard, ledger: Ledger, adapterLive: bool)

  datatype Step =
    | CreateAdapter
    | StartTransmit
    | Take
    | AcquireProtection(length: nat)
    | FormatOrSendFails
    | SendSucceeds
    | ReleaseAfterFailure
    | ReturnRefused
    | SenderReturns
    | CompletionBegins(r: Id)
    | CompletionReturns(r: Id)
    | CompletionReleases
    | BeginStop
    | EndStop
    | DestroyAdapter

  /** The step reads m_NcmAdapterCallbacks or m_NetAdapter, or runs in a queue of the adapter. */
  predicate ReadsAdapter(step: Step) {
    step.CompletionBegins? || step.CompletionReturns? || step.Take?
  }

  /**
    When a step can happen. The wait at the end of StopTransmit, the contract of the stack (a request
    completes once, and only after it was sent) and the framework's contract for DestroyAdapter (the
    queue was stopped, Advance is not running) are in here; whether the adapter is live is not asked
    by the completions.
   */
  predicate Enabled(s: State, step: Step) {
    var q, g := s.requests, s.guard;
    match step
    case CreateAdapter => !s.adapterLive
    case StartTransmit => s.adapterLive && g.rundown.Drained?
    case Take => s.adapterLive && q.sender.Resting? && q.idle != []
    case AcquireProtection(length) => q.sender.Filling? && length > 0
    case FormatOrSendFails => q.sender.Acquired?
    case SendSucceeds => q.sender.Acquired?
    case ReleaseAfterFailure => q.sender.Failed? && g.count > 0
    case ReturnRefused => q.sender.Refused?
    case SenderReturns => q.sender.Sent?
    case CompletionBegins(r) => r in q.inFlight
    case CompletionReturns(r) => r in q.completing
    case CompletionReleases => g.releasing > 0 && g.count > 0
    case BeginStop => g.rundown.Active?
    case EndStop => g.rundown.Draining? && g.count == 0
    case DestroyAdapter => s.adapterLive && g.rundown.Drained? && q.sender.Resting?
  }

  /** The requests after a step. */
  function Move(s: State, step: Step): Requests
    requires Enabled(s, step)
  {
    var q := s.requests;
    match step
    case Take => q.(idle := q.idle[1..], sender := Filling(q.idle[0]))
    case AcquireProtection(_) =>
      q.(sender := if s.guard.rundown.Active? then Acquired(q.sender.r) else Refused(q.sender.r))
    case FormatOrSendFails => q.(sender := Failed(q.sender.r))
    case SendSucceeds => q.(sender := Sent, inFlight := q.inFlight + {q.sender.r})
    case ReleaseAfterFailure => q.(sender := Refused(q.sender.r))
    case ReturnRefused => q.(sender := Resting, idle := q.idle + [q.sender.r])
    case SenderReturns => q.(sender := Resting)
    case CompletionBegins(r) => q.(inFlight := q.inFlight - {r}, completing := q.completing + {r})
    case CompletionReturns(r) => q.(completing := q.completing - {r}, idle := q.idle + [r])
    case _ => q
  }

  /** The rundown protection after a step. */
  function Protect(s: State, step: Step): Guard
    requires Enabled(s, step)
  {
    var g := s.guard;
    match step
    case StartTransmit => g.(rundown := Active)
    case AcquireProtection(_) => if g.rundown.Active? then g.(count := g.count + 1) else g
    case ReleaseAfterFailure => g.(count := g.count - 1)
    case CompletionReturns(_) => g.(releasing := g.releasing + 1)
    case CompletionReleases => g.(releasing := g.releasing - 1, count := g.count - 1)
    case BeginStop => g.(rundown := Draining)
    case EndStop => g.(rundown := Drained)
    case _ => g
  }

  function Times(m: map<Id, nat>, r: Id): nat {
    if r in m then m[r] else 0
  }

  function Bump(m: map<Id, nat>, r: Id): map<Id, nat> {
    m[r := Times(m, r) + 1]
  }

  /** The ledger after a step; a request that comes back has its transfer length reset. */
  function Record(s: State, step: Step): Ledger
    requires Enabled(s, step)
  {
    var l := s.ledger;
    match step
    case Take => l.(taken := Bump(l.taken, s.requests.idle[0]))
    case AcquireProtection(length) => l.(lengths := l.lengths[s.requests.sender.r := length])
    case ReturnRefused =>
      l.(lengths := l.lengths[s.requests.sender.r := 0], returned := Bump(l.returned, s.requests.sender.r))
    case CompletionReturns(r) => l.(lengths := l.lengths[r := 0], returned := Bump(l.returned, r))
    case _ => l
  }

  function Apply(s: State, step: Step): State
    requires Enabled(s, step)
  {
    State(Move(s, step), Protect(s, step), Record(s, step),
          if step.CreateAdapter? then true else if step.DestroyAdapter? then false else s.adapterLive)
  }

  /** Before the first adapter: all requests idle, and the rundown protection drained. */
  function Initial(idle: seq<Id>): State {
    State(Requests(idle, Resting, {}, {}), Guard(Drained, 0, 0), Ledger(map[], map[], map[]), false)
  }

  function One(b: bool): nat {
    if b then 1 else 0
  }

  /** 1 while the request is out of the pool. */
  function Out(q: Requests, r: Id): nat {
    if r in q.idle then 0 else 1
  }

  /** How many times request r occurs in the pool, at the sender, in flight and in completions together. */
  function Places(q: Requests, r: Id): nat {
    multiset(q.idle)[r] + One(q.sender.Has(r)) + One(r in q.inFlight) + One(r in q.completing)
  }

  /** A request in the pool is clean, and it came back as often as it left. */
  predicate Settled(q: Requests, l: Ledger, r: Id) {
    && (r in q.idle ==> Times(l.lengths, r) == 0)
    && Times(l.taken, r) == Times(l.returned, r) + Out(q, r)
  }

  /** Each request is in exactly one place, once, and its ledger is right. */
  ghost predicate Conserved(s: State, all: set<Id>) {
    && (forall r: Id :: Places(s.requests, r) == One(r in all))
    && (forall r <- all :: Settled(s.requests, s.ledger, r))
  }

  /** The rundown count is the number of acquires not yet released. */
  ghost predicate Counted(s: State) {
    var q, g := s.requests, s.guard;
    && g.count == |q.inFlight| + |q.completing| + g.releasing + q.sender.Acquires()
    && (g.rundown.Drained? ==> g.count == 0)
    && (!s.adapterLive ==> g.rundown.Drained? && q.sender.Resting?)
  }

  ghost predicate Inv(s: State, all: set<Id>) {
    Conserved(s, all) && Counted(s)
  }

  lemma InitialHolds(idle: seq<Id>)
    requires Distinct(idle)
    ensures Inv(Initial(idle), Members(idle))
  {
    forall r: Id
      ensures Places(Initial(idle).requests, r) == One(r in Members(idle))
    {
      DistinctCounts(idle, r);
    }
  }

  ghost predicate Distinct(s: seq<Id>) {
    forall i, j :: 0 <= i < j < |s| ==> s[i] != s[j]
  }

  function Members(s: seq<Id>): (r: set<Id>)
    ensures forall x :: x in r <==> x in s
  {
    set x | x in s
  }

  lemma {:induction false} DistinctCounts(s: seq<Id>, r: Id)
    requires Distinct(s)
    ensures multiset(s)[r] == One(r in s)
    decreases |s|
  {
    if s != [] {
      TailCount(s, r);
      DistinctCounts(s[1..], r);
      if r in s[1..] {
        assert r != s[0];
      }
    }
  }

  lemma TailCount(s: seq<Id>, r: Id)
    requires s != []
    ensures multiset(s)[r] == One(r == s[0]) + multiset(s[1..])[r]
    ensures r in s <==> multiset(s)[r] > 0
    ensures r in s[1..] <==> multiset(s[1..])[r] > 0
  {
    assert s == [s[0]] + s[1..];
  }

  lemma AppendCount(s: seq<Id>, q: Id, r: Id)
    ensures multiset(s + [q])[r] == multiset(s)[r] + One(r == q)
    ensures r in s <==> multiset(s)[r] > 0
  {
  }

  /**
    Who can move when. Completions wait for nothing but a request in flight, whatever the queue is doing and
    whether there is an adapter or not; a send can go either way; only the two waits ask for the count.
   */
  lemma EnabledIff(s: State, r: Id, length: nat)
    ensures Enabled(s, CompletionBegins(r)) <==> r in s.requests.inFlight
    ensures Enabled(s, CompletionReturns(r)) <==> r in s.requests.completing
    ensures Enabled(s, CompletionReleases) <==> s.guard.releasing > 0 && s.guard.count > 0
    ensures Enabled(s, Take) <==> s.adapterLive && s.requests.sender == Resting && s.requests.idle != []
    ensures Enabled(s, AcquireProtection(length)) <==> s.requests.sender.Filling? && length > 0
    ensures Enabled(s, SendSucceeds) <==> s.requests.sender.Acquired?
    ensures Enabled(s, FormatOrSendFails) <==> s.requests.sender.Acquired?
    ensures Enabled(s, BeginStop) <==> s.guard.rundown == Active
    ensures Enabled(s, EndStop) <==> s.guard.rundown == Draining && s.guard.count == 0
    ensures Enabled(s, StartTransmit) <==> s.adapterLive && s.guard.rundown == Drained
    ensures Enabled(s, DestroyAdapter) <==> s.adapterLive && s.guard.rundown == Drained && s.requests.sender == Resting
  {
  }

  /** Where the requests are after a step that moves one, and what becomes of the count. */
  lemma StepEffects(s: State, step: Step)
    requires Enabled(s, step)
    ensures var q, g, after, guard := s.requests, s.guard, Apply(s, step).requests, Apply(s, step).guard;
            && (step.Take? ==> after == q.(idle := q.idle[1..], sender := Filling(q.idle[0])) && guard == g)
            && (step.SendSucceeds? ==>
                  after == q.(sender := Sent, inFlight := q.inFlight + {q.sender.r}) && guard == g)
            && (step.FormatOrSendFails? ==> after == q.(sender := Failed(q.sender.r)) && guard == g)
            && (step.ReleaseAfterFailure? ==>
                  after == q.(sender := Refused(q.sender.r)) && guard == g.(count := g.count - 1))
            && (step.ReturnRefused? ==>
                  after == q.(sender := Resting, idle := q.idle + [q.sender.r]) && guard == g)
            && (step.CompletionBegins? ==>
                  after == q.(inFlight := q.inFlight - {step.r}, completing := q.completing + {step.r}) && guard == g)
            && (step.CompletionReturns? ==>
                  && after == q.(completing := q.completing - {step.r}, idle := q.idle + [step.r])
                  && guard == g.(releasing := g.releasing + 1))
            && (step.CompletionReleases? ==>
                  after == q && guard == g.(releasing := g.releasing - 1, count := g.count - 1))
            && (step.BeginStop? ==> after == q && guard == g.(rundown := Draining))
            && (step.EndStop? ==> after == q && guard == g.(rundown := Drained))
            && (step.SenderReturns? ==> after == q.(sender := Resting) && guard == g)
            && (step.StartTransmit? ==> after == q && guard == g.(rundown := Active))
            && (step.CreateAdapter? || step.DestroyAdapter? ==> after == q && guard == g)
    ensures Apply(s, step).adapterLive
            <==> step == CreateAdapter || (s.adapterLive && step != DestroyAdapter)
  {
  }

  /** A step moves at most one request, from one place to another. */
  lemma MoveConserves(s: State, step: Step, r: Id)
    requires Enabled(s, step) && Places(s.requests, r) <= 1
    ensures Places(Move(s, step), r) == Places(s.requests, r)
  {
    var q := s.requests;
    match step
    case Take => TakeConserves(s, r);
    case ReturnRefused => ReturnConserves(s, r);
    case CompletionReturns(p) => CompletionConserves(s, p, r);
    case _ => assert Move(s, step).idle == q.idle;
  }

  lemma TakeConserves(s: State, r: Id)
    requires Enabled(s, Take) && Places(s.requests, r) <= 1
    ensures Places(Move(s, Take), r) == Places(s.requests, r)
  {
    TailCount(s.requests.idle, r);
  }

  lemma ReturnConserves(s: State, r: Id)
    requires Enabled(s, ReturnRefused) && Places(s.requests, r) <= 1
    ensures Places(Move(s, ReturnRefused), r) == Places(s.requests, r)
  {
    AppendCount(s.requests.idle, s.requests.sender.r, r);
  }

  lemma CompletionConserves(s: State, p: Id, r: Id)
    requires Enabled(s, CompletionReturns(p)) && Places(s.requests, r) <= 1
    ensures Places(Move(s, CompletionReturns(p)), r) == Places(s.requests, r)
  {
    AppendCount(s.requests.idle, p, r);
  }

  /** A request that is somewhere else is not in the pool as well, and it is in the pool once. */
  lemma NotIdleTwice(q: Requests, r: Id)
    requires Places(q, r) <= 1
    ensures q.sender.Has(r) || r in q.completing ==> r !in q.idle
    ensures q.idle != [] ==> (r in q.idle[1..] <==> r in q.idle && r != q.idle[0])
  {
    AppendCount(q.idle, r, r);
    if q.idle != [] {
      TailCount(q.idle, r);
    }
  }

  lemma RecordSettles(s: State, step: Step, r: Id)
    requires Enabled(s, step) && Places(s.requests, r) <= 1 && Settled(s.requests, s.ledger, r)
    ensures Settled(Move(s, step), Record(s, step), r)
  {
    hide Places;
    NotIdleTwice(s.requests, r);
  }

  lemma ProtectCounts(s: State, step: Step, all: set<Id>)
    requires Inv(s, all) && Enabled(s, step)
    ensures Counted(Apply(s, step))
  {
    match step
    case SendSucceeds => assert Places(s.requests, s.requests.sender.r) <= 1;
    case CompletionBegins(r) => assert Places(s.requests, r) <= 1;
    case _ =>
  }

  /** Every step keeps the invariant. */
  lemma StepKeeps(s: State, step: Step, all: set<Id>)
    requires Inv(s, all) && Enabled(s, step)
    ensures Inv(Apply(s, step), all)
  {
    hide Places;
    hide Settled;
    hide Move;
    hide Record;
    hide Protect;
    hide Enabled;
    hide Counted;
    ProtectCounts(s, step, all);
    forall r: Id
      ensures Places(Move(s, step), r) == One(r in all)
      ensures r in all ==> Settled(Move(s, step), Record(s, step), r)
    {
      assert Places(s.requests, r) == One(r in all);
      MoveConserves(s, step, r);
      if r in all {
        RecordSettles(s, step, r);
      }
    }
  }

  /** A run; None when some step could not happen where it stands. */
  function Run(s: State, steps: seq<Step>): Option<State>
    decreases |steps|
  {
    if steps == [] then Some(s)
    else if !Enabled(s, steps[0]) then None
    else Run(Apply(s, steps[0]), steps[1..])
  }

  /**
    Over any run, whatever the interleaving: each request stays in exactly one place, has been
    returned exactly as often as it was taken unless it is out, is clean while it is in the pool, and
    the rundown count is the number of acquires not yet released.
   */
  lemma {:induction false} RunKeeps(s: State, steps: seq<Step>, all: set<Id>)
    requires Inv(s, all) && Run(s, steps).Some?
    ensures Inv(Run(s, steps).value, all)
    decreases |steps|
  {
    hide Inv;
    if steps != [] {
      StepKeeps(s, steps[0], all);
      RunKeeps(Apply(s, steps[0]), steps[1..], all);
    }
  }

  // ---------- While the queue is being stopped ----------

  /** The request of a sender that has protection and has not sent yet. */
  function AboutToSend(q: Requests): set<Id> {
    if q.sender.Acquired? then {q.sender.r} else {}
  }

  /**
    Protection is granted while it is active: the sender holds the request with protection, and the count
    goes up by one. From the moment StopTransmit starts to wait it is refused: the request is back with a
    sender that has to return it, and nothing else changes but the length it was given.
   */
  lemma ProtectionGrantedIff(s: State, length: nat)
    requires Enabled(s, AcquireProtection(length))
    ensures var s', r := Apply(s, AcquireProtection(length)), s.requests.sender.r;
            && s'.requests == s.requests.(sender := if s.guard.rundown == Active then Acquired(r) else Refused(r))
            && s'.guard.rundown == s.guard.rundown && s'.guard.releasing == s.guard.releasing
            && s'.guard.count == s.guard.count + (if s.guard.rundown == Active then 1 else 0)
            && s'.ledger == s.ledger.(lengths := s.ledger.lengths[r := length])
            && s'.adapterLive == s.adapterLive
  {
  }

  /** One step other than StartTransmit, when protection is not active. */
  lemma StoppingStep(s: State, step: Step)
    requires Enabled(s, step) && s.guard.rundown != Active && step != StartTransmit
    ensures var s' := Apply(s, step);
            && s'.guard.rundown != Active
            && s'.guard.count <= s.guard.count
            && s'.requests.inFlight + AboutToSend(s'.requests) <= s.requests.inFlight + AboutToSend(s.requests)
            && (step.AcquireProtection? ==> s'.requests.sender == Refused(s.requests.sender.r))
  {
  }

  /**
    From BeginStop until the next StartTransmit, whatever else happens: the rundown count never rises, and
    nothing comes to be in flight but a request that had protection before.
   */
  lemma {:induction false} StoppingOnlyDrains(s: State, steps: seq<Step>)
    requires s.guard.rundown != Active && Run(s, steps).Some? && StartTransmit !in steps
    ensures var s' := Run(s, steps).value;
            && s'.guard.rundown != Active
            && s'.guard.count <= s.guard.count
            && s'.requests.inFlight <= s.requests.inFlight + AboutToSend(s.requests)
            && AboutToSend(s'.requests) <= s.requests.inFlight + AboutToSend(s.requests)
    decreases |steps|
  {
    hide Apply;
    hide Enabled;
    hide AboutToSend;
    if steps != [] {
      assert steps[0] in steps;
      StoppingStep(s, steps[0]);
      StoppingOnlyDrains(Apply(s, steps[0]), steps[1..]);
    }
  }

  /** BeginStop ends the time in which protection is active, and only StartTransmit begins one. */
  lemma ActiveFromStartToStop(s: State, step: Step)
    requires Enabled(s, step)
    ensures var before, after := s.guard.rundown == Active, Apply(s, step).guard.rundown == Active;
            && (step == StartTransmit ==> after)
            && (step == BeginStop ==> before && !after)
            && (step != StartTransmit && step != BeginStop ==> (after <==> before))
  {
  }

  /**
    When the wait of StopTransmit has ended, nothing is in flight, no completion is under way, and
    every request is in the pool if and only if Advance does not hold one at that moment.
   */
  lemma DrainedMeansQuiet(s: State, all: set<Id>)
    requires Inv(s, all) && s.guard.rundown.Drained?
    ensures s.requests.inFlight == {} && s.requests.completing == {} && s.guard.releasing == 0
    ensures multiset(s.requests.idle) == multiset(all) <==> s.requests.sender.Free()
  {
    var q := s.requests;
    assert |q.inFlight| == 0 && |q.completing| == 0;
    forall r: Id
      ensures multiset(q.idle)[r] == One(r in all) - One(q.sender.Has(r))
    {
      assert Places(q, r) == One(r in all);
    }
    if !q.sender.Free() {
      assert multiset(q.idle)[q.sender.r] == 0;
      assert Places(q, q.sender.r) == One(q.sender.r in all);
    }
  }

  /**
    The wait does not look at the pool: a request that Advance has taken and not yet sent does not hold it
    up, so it can end with the pool short.
   */
  lemma PoolShortWhenDrained()
    ensures var r := Run(Initial([0]), [CreateAdapter, StartTransmit, Take, BeginStop, EndStop]);
            r.Some? && r.value.guard.rundown.Drained? && r.value.requests.idle == []
  {
    var s0 := Initial([0]);
    var s1 := Apply(s0, CreateAdapter);
    var s2 := Apply(s1, StartTransmit);
    var s3 := Apply(s2, Take);
    var s4 := Apply(s3, BeginStop);
    var s5 := Apply(s4, EndStop);
    var steps := [CreateAdapter, StartTransmit, Take, BeginStop, EndStop];
    assert Run(s5, []) == Some(s5);
    assert steps[4..][1..] == [] && Run(s4, steps[4..]) == Some(s5);
    assert steps[3..][1..] == steps[4..] && Run(s3, steps[3..]) == Some(s5);
    assert steps[2..][1..] == steps[3..] && Run(s2, steps[2..]) == Some(s5);
    assert steps[1..][1..] == steps[2..] && Run(s1, steps[1..]) == Some(s5);
    assert Run(s0, steps) == Some(s5);
  }

  /** No step that reads the adapter's fields can happen while there is no adapter. */
  lemma AdapterReadsAreSafe(s: State, step: Step, all: set<Id>)
    requires Inv(s, all) && Enabled(s, step) && ReadsAdapter(step)
    ensures s.adapterLive
  {
    if !s.adapterLive {
      DrainedMeansQuiet(s, all);
    }
  }

  /** Rundown safety over whole runs from the start: a step that reads the adapter finds it live. */
  lemma RunReadsLiveAdapter(idle: seq<Id>, steps: seq<Step>, step: Step)
    requires Distinct(idle) && Run(Initial(idle), steps).Some?
    requires Enabled(Run(Initial(idle), steps).value, step) && ReadsAdapter(step)
    ensures Run(Initial(idle), steps).value.adapterLive
  {
    InitialHolds(idle);
    RunKeeps(Initial(idle), steps, Members(idle));
    AdapterReadsAreSafe(Run(Initial(idle), steps).value, step, Members(idle));
  }
}
