/** Every fair run past the deadline returns, whatever the processes outside the call's control do. */
module SubprocFairness {
  import opened SubprocMachine
  import opened SubprocProgress
  import opened SubprocSafety

  /** A run that goes on for ever; at any point nothing may happen. */
  ghost predicate GoesOn(setup: Setup, run: nat -> State, labels: nat -> Label) {
    Initial(run(0)) && forall n: nat :: StepsAt(setup, run, labels, n)
  }

  predicate StepsAt(setup: Setup, run: nat -> State, labels: nat -> Label, n: nat) {
    run(n + 1) == run(n) || Next(setup, run(n), run(n + 1), labels(n))
  }

  /** The thread takes a step at n. */
  predicate Moves(setup: Setup, run: nat -> State, labels: nat -> Label, t: Thread, n: nat) {
    ThreadOf(labels(n)) == t && Next(setup, run(n), run(n + 1), labels(n))
  }

  ghost predicate ReadyFrom(run: nat -> State, t: Thread, n: nat) {
    forall m: nat :: n <= m ==> Ready(t, run(m))
  }

  ghost predicate MovesFrom(setup: Setup, run: nat -> State, labels: nat -> Label, t: Thread, n: nat) {
    exists m: nat :: n <= m && Moves(setup, run, labels, t, m)
  }

  /** No thread is ready for ever without moving. */
  ghost predicate Fair(setup: Setup, run: nat -> State, labels: nat -> Label) {
    forall t, n: nat :: ReadyFrom(run, t, n) ==> MovesFrom(setup, run, labels, t, n)
  }

  lemma {:induction false} InvAt(setup: Setup, run: nat -> State, labels: nat -> Label, n: nat)
    requires GoesOn(setup, run, labels)
    ensures Inv(setup, run(n))
  {
    hide Next, BufferOk, LinesOk, OutHeld, ErrHeld, GroupDoomed, Drained, StopRequested, FinalClose;
    if n > 0 {
      InvAt(setup, run, labels, n - 1);
      assert StepsAt(setup, run, labels, n - 1);
      if run(n) != run(n - 1) {
        StepKeepsInv(setup, run(n - 1), run(n), labels(n - 1));
      }
    } else {
      InitialInv(setup, run(0));
    }
  }

  /** One point later: the deadline stays, the measure has not grown, and a thread that has not
      moved is still ready. */
  lemma OneLater(setup: Setup, run: nat -> State, labels: nat -> Label, t: Thread, n: nat)
    requires GoesOn(setup, run, labels)
    ensures NoMore(run(n + 1), run(n)) && (run(n).ended ==> run(n + 1).ended)
    ensures Ready(t, run(n)) && !Moves(setup, run, labels, t, n) ==> Ready(t, run(n + 1))
    ensures run(n).ended && !run(n).main.Returned? && run(n + 1).main.Returned? ==> run(n + 1).main == Returned(Expired)
    ensures Ready(t, run(n)) && Moves(setup, run, labels, t, n) ==> Less(run(n + 1), run(n))
  {
    assert StepsAt(setup, run, labels, n);
    if Next(setup, run(n), run(n + 1), labels(n)) {
      StepRanks(setup, run(n), run(n + 1), labels(n));
      if run(n).ended {
        EndedStays(setup, run(n), run(n + 1), labels(n));
      }
      if Ready(t, run(n)) {
        if ThreadOf(labels(n)) == t {
          ReadyCounts(setup, t, run(n), run(n + 1), labels(n));
        } else {
          ReadyStays(setup, t, run(n), run(n + 1), labels(n));
        }
      }
    }
  }

  /** A ready thread that moves by m lowers the measure by then. */
  lemma {:induction false} LowersBy(setup: Setup, run: nat -> State, labels: nat -> Label, t: Thread, n: nat, m: nat)
    returns (k: nat)
    requires GoesOn(setup, run, labels) && n <= m && Moves(setup, run, labels, t, m)
    requires Ready(t, run(n)) && run(n).ended && !run(n).main.Returned?
    ensures k > n && run(k).ended && (run(k).main.Returned? ==> run(k).main == Returned(Expired))
    ensures run(k).main.Returned? || Less(run(k), run(n))
    decreases m - n
  {
    OneLater(setup, run, labels, t, n);
    k := n + 1;
    if !run(n + 1).main.Returned? && !Moves(setup, run, labels, t, n) {
      k := LowersBy(setup, run, labels, t, n + 1, m);
    }
  }

  lemma {:induction false} StillReady(setup: Setup, run: nat -> State, labels: nat -> Label, t: Thread, n: nat, m: nat)
    requires GoesOn(setup, run, labels) && n <= m && Ready(t, run(n)) && !MovesFrom(setup, run, labels, t, n)
    ensures Ready(t, run(m))
    decreases m
  {
    if n < m {
      StillReady(setup, run, labels, t, n, m - 1);
      OneLater(setup, run, labels, t, m - 1);
    }
  }

  lemma MovesOrStaysReady(setup: Setup, run: nat -> State, labels: nat -> Label, t: Thread, n: nat)
    requires GoesOn(setup, run, labels) && Ready(t, run(n))
    ensures MovesFrom(setup, run, labels, t, n) || ReadyFrom(run, t, n)
  {
    if !MovesFrom(setup, run, labels, t, n) {
      forall m: nat | n <= m ensures Ready(t, run(m)) {
        StillReady(setup, run, labels, t, n, m);
      }
    }
  }

  /** Past the deadline every fair run returns, and reports expiry. */
  lemma {:induction false} FairRunReturns(setup: Setup, run: nat -> State, labels: nat -> Label, n: nat)
    returns (k: nat)
    requires GoesOn(setup, run, labels) && Fair(setup, run, labels)
    requires run(n).ended && !run(n).main.Returned?
    ensures k > n && run(k).main == Returned(Expired)
    decreases Rank(run(n)), Backlog(run(n))
  {
    InvAt(setup, run, labels, n);
    var t := SomeReady(setup, run(n));
    MovesOrStaysReady(setup, run, labels, t, n);
    var m: nat :| n <= m && Moves(setup, run, labels, t, m);
    k := LowersBy(setup, run, labels, t, n, m);
    if !run(k).main.Returned? {
      k := FairRunReturns(setup, run, labels, k);
    }
  }
}
