/** The signal event that a task waits on: signal deliveries, polls and clears interleave
    at every atomic operation. Registering and waking the waker are single steps. */
module Interrupt {
  import opened Wrappers

  datatype Signal = SigInt | SigTerm | SigHup

  /** What a delivery does next: exchange `first`, store `last`, or wake. */
  datatype Delivery = ToFirst(sig: Signal) | ToLast(sig: Signal) | ToWake(sig: Signal)

  /** Where the waiting task is: outside a poll, after the quick check, after registering
      its waker, parked, or done with a signal. */
  datatype Poller = Idle | Quick | Registered | Parked | Ready(sig: Signal)

  /** A clear that has loaded a signal and stores its two cells one after the other. */
  datatype Clearer = NoClear | ClearFirst | ClearLast

  /** `scheduled` is a wake-up of the waiting task not yet answered by a poll. The rest is
      history: the signals exchanged into `first` since it was last cleared, all signals
      stored in `last`, how many of them a poll or clear has taken, and the positions of
      the ones polls returned. */
  datatype State = State(
    first: Option<Signal>,
    last: Option<Signal>,
    waker: bool,
    scheduled: bool,
    deliveries: map<nat, Delivery>,
    poller: Poller,
    clearer: Clearer,
    exchanged: seq<Signal>,
    stored: seq<Signal>,
    taken: nat,
    returned: seq<int>)

  // ------------------------------------------------------- atomic operations

  /** first.compare_exchange(None, Some(sig)). */
  function ExchangeFirst(s: State, sig: Signal): State {
    s.(first := if s.first.None? then Some(sig) else s.first, exchanged := s.exchanged + [sig])
  }

  /** last.store(Some(sig)). */
  function StoreLast(s: State, sig: Signal): State {
    s.(last := Some(sig), stored := s.stored + [sig])
  }

  /** waker.wake(): takes a registered waker and schedules its task. */
  function Wake(s: State): State {
    s.(waker := false, scheduled := s.scheduled || s.waker)
  }

  /** last.swap(None) by a poll that goes on to `otherwise` when nothing was there. */
  function SwapLast(s: State, otherwise: Poller): State {
    match s.last
    case Some(sig) =>
      s.(last := None, poller := Ready(sig), taken := |s.stored|,
         returned := s.returned + [|s.stored| - 1])
    case None => s.(poller := otherwise)
  }

  datatype Step =
    | Deliver(id: nat, sig: Signal)
    | DeliveryStep(id: nat)
    | StartPoll
    | PollStep
    | SpuriousPoll
    | Abandon
    | StartClear
    | ClearStep

  predicate Enabled(s: State, step: Step) {
    match step
    case Deliver(id, _) => id !in s.deliveries
    case DeliveryStep(id) => id in s.deliveries
    case StartPoll => s.poller.Idle? || s.poller.Ready? || (s.poller.Parked? && s.scheduled)
    case PollStep => s.poller.Quick? || s.poller.Registered?
    case SpuriousPoll => s.poller.Parked? && !s.scheduled
    case Abandon => s.poller.Parked?
    case StartClear => s.clearer.NoClear? && s.first.Some?
    case ClearStep => !s.clearer.NoClear?
  }

  /** One atomic step of a delivery, of the waiting task or of a clear. A task may also be polled
      without having been woken, and it may drop the future it waits on. */
  function Do(s: State, step: Step): State
    requires Enabled(s, step)
  {
    match step
    case Deliver(id, sig) => s.(deliveries := s.deliveries[id := ToFirst(sig)])
    case DeliveryStep(id) =>
      (match s.deliveries[id]
       case ToFirst(sig) => ExchangeFirst(s, sig).(deliveries := s.deliveries[id := ToLast(sig)])
       case ToLast(sig) => StoreLast(s, sig).(deliveries := s.deliveries[id := ToWake(sig)])
       case ToWake(_) => Wake(s).(deliveries := s.deliveries - {id}))
    case StartPoll => SwapLast(s.(scheduled := false), Quick)
    case PollStep =>
      if s.poller.Quick? then s.(waker := true, poller := Registered) else SwapLast(s, Parked)
    case SpuriousPoll => SwapLast(s, Quick)
    case Abandon => s.(poller := Idle)
    case StartClear => s.(clearer := ClearFirst)
    case ClearStep =>
      if s.clearer.ClearFirst? then s.(first := None, exchanged := [], clearer := ClearLast)
      else s.(last := None, taken := |s.stored|, clearer := NoClear)
  }

  const START := State(None, None, false, false, map[], Idle, NoClear, [], [], 0, [])

  ghost predicate IsRun(run: seq<State>) {
    && |run| > 0 && run[0] == START
    && forall i: nat :: i + 1 < |run| ==> StepsAt(run, i)
  }

  ghost predicate StepsAt(run: seq<State>, i: nat)
    requires i + 1 < |run|
  {
    exists step :: Enabled(run[i], step) && Do(run[i], step) == run[i + 1]
  }

  // ------------------------------------------------------------- invariants

  ghost predicate WakeDue(s: State) {
    exists id :: id in s.deliveries && s.deliveries[id].ToWake?
  }

  /** A task that has registered and not been woken still has its waker in place, and a
      parked one with a signal waiting has a delivery about to wake it. */
  ghost predicate WakeOk(s: State) {
    && (s.poller.Registered? || s.poller.Parked? ==> s.waker || s.scheduled)
    && (s.poller.Parked? && s.last.Some? && !s.scheduled ==> WakeDue(s))
  }

  predicate CellsOk(s: State) {
    && (s.first == if s.exchanged == [] then None else Some(s.exchanged[0]))
    && s.taken <= |s.stored|
    && (s.last == if s.taken == |s.stored| then None else Some(s.stored[|s.stored| - 1]))
  }

  predicate ReturnedOk(s: State) {
    && s.taken <= |s.stored|
    && (forall k :: 0 <= k < |s.returned| ==> 0 <= s.returned[k] < s.taken)
    && (forall j, k :: 0 <= j < k < |s.returned| ==> s.returned[j] < s.returned[k])
    && (s.poller.Ready? ==> s.returned != [] && s.poller.sig == s.stored[s.returned[|s.returned| - 1]])
  }

  ghost predicate Inv(s: State) {
    WakeOk(s) && CellsOk(s) && ReturnedOk(s)
  }

  lemma StepKeepsWake(s: State, step: Step)
    requires WakeOk(s) && Enabled(s, step)
    ensures WakeOk(Do(s, step))
  {
    var t := Do(s, step);
    if WakeDue(s) && !(step.DeliveryStep? && s.deliveries[step.id].ToWake?) {
      var id :| id in s.deliveries && s.deliveries[id].ToWake?;
      assert id in t.deliveries && t.deliveries[id].ToWake?;
    }
    if step.DeliveryStep? && s.deliveries[step.id].ToLast? {
      assert step.id in t.deliveries && t.deliveries[step.id].ToWake?;
    }
  }

  lemma DeliveryKeepsCells(s: State, id: nat)
    requires CellsOk(s) && id in s.deliveries
    ensures CellsOk(Do(s, DeliveryStep(id)))
  {
  }

  lemma StepKeepsCells(s: State, step: Step)
    requires CellsOk(s) && Enabled(s, step)
    ensures CellsOk(Do(s, step))
  {
    if step.DeliveryStep? {
      DeliveryKeepsCells(s, step.id);
    }
  }

  lemma SwapKeepsReturned(s: State, otherwise: Poller)
    requires CellsOk(s) && ReturnedOk(s) && !otherwise.Ready?
    ensures ReturnedOk(SwapLast(s, otherwise))
  {
  }

  /** More stored signals, and a task that is not given another one. */
  lemma GrowthKeepsReturned(s: State, t: State)
    requires ReturnedOk(s) && t.returned == s.returned && s.taken <= t.taken <= |t.stored| && s.stored <= t.stored
    requires t.poller == s.poller || !t.poller.Ready?
    ensures ReturnedOk(t)
  {
  }

  lemma DeliveryKeepsReturned(s: State, id: nat)
    requires ReturnedOk(s) && id in s.deliveries
    ensures ReturnedOk(Do(s, DeliveryStep(id)))
  {
    GrowthKeepsReturned(s, Do(s, DeliveryStep(id)));
  }

  lemma PollKeepsReturned(s: State, step: Step)
    requires CellsOk(s) && ReturnedOk(s) && Enabled(s, step)
    requires step.StartPoll? || step.PollStep? || step.SpuriousPoll?
    ensures ReturnedOk(Do(s, step))
  {
    if step.PollStep? {
      if s.poller.Registered? {
        SwapKeepsReturned(s, Parked);
      }
    } else {
      SwapKeepsReturned(s, Quick);
      SwapKeepsReturned(s.(scheduled := false), Quick);
    }
  }

  lemma StepKeepsReturned(s: State, step: Step)
    requires CellsOk(s) && ReturnedOk(s) && Enabled(s, step)
    ensures ReturnedOk(Do(s, step))
  {
    if step.DeliveryStep? {
      DeliveryKeepsReturned(s, step.id);
    } else if step.StartPoll? || step.PollStep? || step.SpuriousPoll? {
      PollKeepsReturned(s, step);
    } else {
      GrowthKeepsReturned(s, Do(s, step));
    }
  }

  lemma StepKeepsInv(s: State, step: Step)
    requires Inv(s) && Enabled(s, step)
    ensures Inv(Do(s, step))
  {
    StepKeepsWake(s, step);
    StepKeepsCells(s, step);
    StepKeepsReturned(s, step);
  }

  lemma {:induction false} RunKeepsInv(run: seq<State>, k: nat)
    requires IsRun(run) && k < |run|
    ensures Inv(run[k])
  {
    if k > 0 {
      RunKeepsInv(run, k - 1);
      assert StepsAt(run, k - 1);
      var step :| Enabled(run[k - 1], step) && Do(run[k - 1], step) == run[k];
      StepKeepsInv(run[k - 1], step);
    }
  }

  // --------------------------------------------------------------- promises

  /** No lost wake-up: whatever the interleaving, a parked task with a signal waiting has
      been scheduled, or its waker is in place and a delivery is about to use it. */
  lemma NoLostWakeUp(run: seq<State>, k: nat)
    requires IsRun(run) && k < |run| && run[k].poller.Parked? && run[k].last.Some?
    ensures run[k].scheduled || (run[k].waker && WakeDue(run[k]))
  {
    RunKeepsInv(run, k);
  }

  /** Hence at most one wake and one poll stand between such a task and its signal. */
  lemma WaitingSignalIsReturned(run: seq<State>, k: nat) returns (t: State)
    requires IsRun(run) && k < |run| && run[k].poller.Parked? && run[k].last.Some?
    ensures t.poller == Ready(run[k].last.value) && t.last.None?
    ensures
      || (Enabled(run[k], StartPoll) && t == Do(run[k], StartPoll))
      || (exists id :: Enabled(run[k], DeliveryStep(id)) && Enabled(Do(run[k], DeliveryStep(id)), StartPoll)
            && t == Do(Do(run[k], DeliveryStep(id)), StartPoll))
  {
    NoLostWakeUp(run, k);
    var s := run[k];
    if s.scheduled {
      t := Do(s, StartPoll);
    } else {
      var id :| id in s.deliveries && s.deliveries[id].ToWake?;
      assert Enabled(s, DeliveryStep(id));
      var woken := Do(s, DeliveryStep(id));
      assert Enabled(woken, StartPoll);
      t := Do(woken, StartPoll);
    }
  }

  /** `first` is the earliest signal exchanged since it was last cleared, `last` the most
      recent one that no poll or clear has taken. */
  lemma CellsHoldEarliestAndLatest(run: seq<State>, k: nat)
    requires IsRun(run) && k < |run|
    ensures run[k].first == if run[k].exchanged == [] then None else Some(run[k].exchanged[0])
    ensures run[k].taken <= |run[k].stored|
    ensures run[k].last == if run[k].taken == |run[k].stored| then None else Some(run[k].stored[|run[k].stored| - 1])
  {
    RunKeepsInv(run, k);
  }

  /** Polls return signals in the order they were stored, and none twice. */
  lemma SignalsAreReturnedOnce(run: seq<State>, k: nat)
    requires IsRun(run) && k < |run|
    ensures forall i :: 0 <= i < |run[k].returned| ==> 0 <= run[k].returned[i] < |run[k].stored|
    ensures forall i, j :: 0 <= i < j < |run[k].returned| ==> run[k].returned[i] < run[k].returned[j]
    ensures run[k].poller.Ready? ==>
      run[k].returned != []
      && run[k].poller.sig == run[k].stored[run[k].returned[|run[k].returned| - 1]]
  {
    RunKeepsInv(run, k);
  }

  lemma Continue(run: seq<State>, step: Step) returns (longer: seq<State>)
    requires IsRun(run) && Enabled(run[|run| - 1], step)
    ensures IsRun(longer) && longer[|longer| - 1] == Do(run[|run| - 1], step)
  {
    longer := run + [Do(run[|run| - 1], step)];
    forall i: nat | i + 1 < |longer| ensures StepsAt(longer, i) {
      if i + 1 < |run| {
        assert StepsAt(run, i);
        var taken :| Enabled(run[i], taken) && Do(run[i], taken) == run[i + 1];
        assert Enabled(longer[i], taken) && Do(longer[i], taken) == longer[i + 1];
      } else {
        assert longer[i] == run[|run| - 1];
        assert Enabled(longer[i], step) && Do(longer[i], step) == longer[i + 1];
      }
    }
  }

  /** A whole delivery that nothing interrupts. */
  lemma DeliverWhole(run: seq<State>, id: nat, sig: Signal) returns (longer: seq<State>)
    requires IsRun(run) && id !in run[|run| - 1].deliveries
    ensures IsRun(longer)
    ensures longer[|longer| - 1] == Wake(StoreLast(ExchangeFirst(run[|run| - 1], sig), sig))
  {
    var s := run[|run| - 1];
    longer := Continue(run, Deliver(id, sig));
    longer := Continue(longer, DeliveryStep(id));
    longer := Continue(longer, DeliveryStep(id));
    longer := Continue(longer, DeliveryStep(id));
    assert longer[|longer| - 1].deliveries == s.deliveries;
  }

  /** A signal delivered between the two stores of a clear keeps its place in `first` but
      is gone from `last`, so a waiting task parks without it and no wake is due. */
  lemma RacingSignalIsMissed(a: Signal, b: Signal) returns (run: seq<State>)
    ensures IsRun(run)
    ensures
      var s := run[|run| - 1];
      && s.first == Some(b) && s.last.None? && s.returned == []
      && s.poller.Parked? && !s.scheduled && s.deliveries == map[] && s.clearer.NoClear?
  {
    run := DeliverWhole([START], 0, a);
    run := Continue(run, StartClear);
    run := Continue(run, ClearStep);
    run := DeliverWhole(run, 1, b);
    run := Continue(run, ClearStep);
    run := Continue(run, StartPoll);
    run := Continue(run, PollStep);
    run := Continue(run, PollStep);
  }

  // ------------------------------------------------------- the event object

  predicate SameCells(s: State, t: State) {
    s.first == t.first && s.last == t.last && s.waker == t.waker
  }

  /** A poll that nothing interrupts. */
  function Polled(s: State): State {
    var first := Do(s.(poller := Idle), StartPoll);
    if first.poller.Ready? then first else Do(Do(first, PollStep), PollStep)
  }

  /** A clear that nothing interrupts. */
  function Cleared(s: State): State {
    Do(Do(s.(clearer := ClearFirst), ClearStep), ClearStep)
  }

  /** The event as one caller sees it while nothing else runs. */
  class Event {
    var first: Option<Signal>
    var last: Option<Signal>
    var waker: bool

    /** The cells as a state of the step system. */
    ghost function AsState(): State
      reads this
    {
      START.(first := first, last := last, waker := waker)
    }

    constructor ()
      ensures AsState() == START
    {
      first, last, waker := None, None, false;
    }

    /** set: the answer is whether a registered task was woken. */
    method Set(sig: Signal) returns (woken: bool)
      modifies this
      ensures SameCells(AsState(), Wake(StoreLast(ExchangeFirst(old(AsState()), sig), sig)))
      ensures woken == Wake(StoreLast(ExchangeFirst(old(AsState()), sig), sig)).scheduled
      ensures first == (if old(first) == None then Some(sig) else old(first)) && last == Some(sig)
      ensures woken == old(waker) && !waker
    {
      if first == None {
        first := Some(sig);
      }
      last := Some(sig);
      woken := waker;
      waker := false;
    }

    method Clear()
      modifies this
      ensures SameCells(AsState(), Cleared(old(AsState())))
      ensures first == None && last == None && waker == old(waker)
    {
      first := None;
      last := None;
    }

    /** poll: a stored signal is taken, otherwise the waker is left behind. */
    method Poll() returns (ready: Option<Signal>)
      modifies this
      ensures SameCells(AsState(), Polled(old(AsState())))
      ensures Polled(old(AsState())).poller == (if ready == None then Parked else Ready(ready.value))
      ensures ready == old(last) && last == None && first == old(first)
      ensures waker == if ready == None then true else old(waker)
    {
      ready := last;
      last := None;
      if ready != None {
        return;
      }
      waker := true;
      ready := last;
      last := None;
    }

    /** err_if_occurred: reports the earliest signal once. */
    method ErrIfOccurred() returns (occurred: Option<Signal>)
      modifies this
      ensures occurred == old(first)
      ensures SameCells(AsState(), if occurred == None then old(AsState()) else Cleared(old(AsState())))
    {
      occurred := first;
      if occurred != None {
        Clear();
      }
    }
  }
}
