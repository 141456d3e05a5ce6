/** What becomes of every signal of the event, over whole runs: when a clear leaves the
    event set, and exactly which stored signals are never returned to the waiting task. */
module InterruptFates {
  import opened Wrappers
  import opened Interrupt

  // ------------------------------------------------------- steps of a run

  ghost predicate Exchanges(s: State, t: State) {
    exists id :: id in s.deliveries && s.deliveries[id].ToFirst? && t == Do(s, DeliveryStep(id))
  }

  ghost predicate Stores(s: State, t: State) {
    exists id :: id in s.deliveries && s.deliveries[id].ToLast? && t == Do(s, DeliveryStep(id))
  }

  /** Step j of the run exchanges a signal into `first`. */
  ghost predicate ExchangeAt(run: seq<State>, j: nat) {
    j + 1 < |run| && Exchanges(run[j], run[j + 1])
  }

  /** The last store of a clear. */
  predicate Finishes(s: State, t: State) {
    s.clearer.ClearLast? && t == Do(s, ClearStep)
  }

  lemma StepOf(run: seq<State>, i: nat) returns (step: Step)
    requires IsRun(run) && i + 1 < |run|
    ensures Enabled(run[i], step) && Do(run[i], step) == run[i + 1] && Inv(run[i])
  {
    RunKeepsInv(run, i);
    assert StepsAt(run, i);
    step :| Enabled(run[i], step) && Do(run[i], step) == run[i + 1];
  }

  // ------------------------------------------------------ signals and clears

  /** One clear: its first store is step i, its last store is step k. */
  predicate IsClear(run: seq<State>, i: nat, k: nat) {
    && i < k && k + 1 < |run|
    && run[i].clearer.ClearFirst? && run[i + 1].clearer.ClearLast?
    && (forall m :: i < m <= k ==> run[m].clearer.ClearLast?)
    && run[k + 1].clearer.NoClear?
  }

  /** Some delivery exchanges its signal into `first` after step i and before step k. */
  ghost predicate ExchangedBetween(run: seq<State>, i: nat, k: nat)
    requires k < |run|
  {
    exists j: nat :: i < j < k && ExchangeAt(run, j)
  }

  lemma StepDuringClear(s: State, step: Step)
    requires Enabled(s, step) && s.clearer.ClearLast? && Do(s, step).clearer.ClearLast?
    ensures Do(s, step).exchanged != [] <==> s.exchanged != [] || Exchanges(s, Do(s, step))
  {
    if step.DeliveryStep? && s.deliveries[step.id].ToFirst? {
      assert Exchanges(s, Do(s, step));
    } else {
      assert Do(s, step).exchanged == s.exchanged;
    }
  }

  lemma FirstStoreOfClear(s: State, step: Step)
    requires Enabled(s, step) && s.clearer.ClearFirst? && Do(s, step).clearer.ClearLast?
    ensures Do(s, step).exchanged == []
  {
  }

  lemma BetweenLater(run: seq<State>, i: nat, m: nat)
    requires i < m && m + 1 < |run|
    ensures ExchangedBetween(run, i, m + 1) <==> ExchangedBetween(run, i, m) || ExchangeAt(run, m)
  {
  }

  lemma {:induction false} ExchangedDuringClear(run: seq<State>, i: nat, m: nat)
    requires IsRun(run) && i < m < |run|
    requires run[i].clearer.ClearFirst? && forall n :: i < n <= m ==> run[n].clearer.ClearLast?
    ensures run[m].exchanged != [] <==> ExchangedBetween(run, i, m)
  {
    var step := StepOf(run, m - 1);
    if i + 1 == m {
      FirstStoreOfClear(run[i], step);
    } else {
      ExchangedDuringClear(run, i, m - 1);
      StepDuringClear(run[m - 1], step);
      BetweenLater(run, i, m - 1);
    }
  }

  /** A completed clear leaves no signal in `last`, and leaves one in `first` exactly when
      some delivery exchanged its signal between the two stores. Then the one that stays is
      the first of them. */
  lemma ClearLeavesASignalExactly(run: seq<State>, i: nat, k: nat)
    requires IsRun(run) && IsClear(run, i, k)
    ensures run[k + 1].last.None?
    ensures run[k + 1].first.Some? <==> ExchangedBetween(run, i, k)
    ensures run[k + 1].first == if run[k].exchanged == [] then None else Some(run[k].exchanged[0])
  {
    var step := StepOf(run, k);
    assert step == ClearStep;
    ExchangedDuringClear(run, i, k);
  }

  // -------------------------------------------------------- lost signals

  /** `last` holds the signal stored at this position. */
  predicate Holds(s: State, p: nat) {
    s.taken <= p && p + 1 == |s.stored|
  }

  /** The step stores another signal over it, or is the last store of a clear. */
  ghost predicate Loses(s: State, t: State, p: nat) {
    Holds(s, p) && (Stores(s, t) || Finishes(s, t))
  }

  /** One of the first n steps lost it. */
  ghost predicate IsLost(run: seq<State>, n: nat, p: nat) {
    exists m: nat :: m < n && m + 1 < |run| && Loses(run[m], run[m + 1], p)
  }

  /** The step answers a poll with it. */
  predicate Returns(s: State, t: State, p: nat) {
    Holds(s, p) && t.returned == s.returned + [p] && t.poller == Ready(s.stored[p])
  }

  /** A held signal stays, is returned, or is lost. */
  lemma HeldStep(s: State, step: Step, p: nat)
    requires Inv(s) && Enabled(s, step) && Holds(s, p)
    ensures
      var t := Do(s, step);
      || (Holds(t, p) && t.returned == s.returned && !Loses(s, t, p))
      || (!Holds(t, p) && Returns(s, t, p) && !Loses(s, t, p))
      || (!Holds(t, p) && t.returned == s.returned && Loses(s, t, p))
  {
    var t := Do(s, step);
    if step.DeliveryStep? && s.deliveries[step.id].ToLast? {
      assert Stores(s, t);
    } else {
      assert t.stored == s.stored;
      assert !Stores(s, t);
    }
  }

  /** A signal that is no longer held has met its end. */
  lemma PastStep(s: State, step: Step, p: nat)
    requires Inv(s) && Enabled(s, step) && p < |s.stored| && !Holds(s, p)
    ensures !Holds(Do(s, step), p) && (p in Do(s, step).returned <==> p in s.returned)
  {
  }

  lemma NewStep(s: State, step: Step)
    requires Inv(s) && Enabled(s, step) && |s.stored| < |Do(s, step).stored|
    ensures Holds(Do(s, step), |s.stored|) && |Do(s, step).stored| == |s.stored| + 1
    ensures |s.stored| !in Do(s, step).returned
  {
  }

  lemma LostLater(run: seq<State>, n: nat, p: nat)
    requires n + 1 < |run|
    ensures IsLost(run, n + 1, p) <==> IsLost(run, n, p) || Loses(run[n], run[n + 1], p)
  {
    if IsLost(run, n + 1, p) {
      var m: nat :| m < n + 1 && m + 1 < |run| && Loses(run[m], run[m + 1], p);
      assert m < n || m == n;
    }
  }

  lemma NotYetLost(run: seq<State>, n: nat, p: nat)
    requires IsRun(run) && n < |run| && |run[n].stored| <= p
    ensures !IsLost(run, n, p)
  {
    if m: nat :| m < n && m + 1 < |run| && Loses(run[m], run[m + 1], p) {
      StoredGrows(run, m, n);
      assert false;
    }
  }

  lemma {:induction false} StoredGrows(run: seq<State>, m: nat, n: nat)
    requires IsRun(run) && m <= n < |run|
    ensures |run[m].stored| <= |run[n].stored|
  {
    if m < n {
      StoredGrows(run, m, n - 1);
      var step := StepOf(run, n - 1);
    }
  }

  /** Every stored signal is still held, was returned to the task, or was lost, and only
      one of these: it is lost exactly when a later signal was stored over it, or a clear
      made its last store, while `last` held it. */
  lemma {:induction false} SignalFate(run: seq<State>, n: nat, p: nat)
    requires IsRun(run) && n < |run| && p < |run[n].stored|
    ensures IsLost(run, n, p) <==> !Holds(run[n], p) && p !in run[n].returned
    ensures Holds(run[n], p) ==> p !in run[n].returned
  {
    RunKeepsInv(run, n);
    if n > 0 {
      var step := StepOf(run, n - 1);
      LostLater(run, n - 1, p);
      if |run[n - 1].stored| <= p {
        NewStep(run[n - 1], step);
        NotYetLost(run, n - 1, p);
      } else {
        SignalFate(run, n - 1, p);
        if Holds(run[n - 1], p) {
          HeldStep(run[n - 1], step, p);
        } else {
          PastStep(run[n - 1], step, p);
        }
      }
    }
  }
}
