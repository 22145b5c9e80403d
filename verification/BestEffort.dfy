/**
 Many callers race for one thing through `withBestEffortLock`. The work of each is a write that
 a unique index arbitrates: the first writer gets the row, every later one a typed conflict.
 The lock may be won, lost to contention, or lapse in the middle of the work: between any two
 steps Redis may change in any way at all.
 */
module BestEffort {
  import opened Redis
  import opened Wrappers
  import Locks

  type Caller = Locks.Token

  datatype Verdict = Success | Conflict

  /** Where a caller is: still trying for the lock, at its work, letting go, or done. */
  datatype Phase =
    | Trying(left: nat)
    | Working(won: bool)
    | Leaving(won: bool, verdict: Verdict)
    | Done(verdict: Verdict)

  /** `row` is the document the unique index lets exist once, with the caller that wrote it. */
  datatype State = State(key: string, ttlMs: int, store: Store<Caller>, row: Option<Caller>, phases: map<Caller, Phase>)

  /** `Meanwhile` is whatever else happens to Redis: time passing, a lease lapsing, other clients. */
  datatype Step =
    | Attempt(caller: Caller)
    | Write(caller: Caller)
    | Leave(caller: Caller, releaseFails: bool)
    | Meanwhile(store: Store<Caller>)

  predicate Enabled(s: State, step: Step) {
    match step
    case Attempt(c) => c in s.phases && s.phases[c].Trying?
    case Write(c) => c in s.phases && s.phases[c].Working?
    case Leave(c, _) => c in s.phases && s.phases[c].Leaving?
    case Meanwhile(_) => true
  }

  function Next(s: State, step: Step): State
    requires Enabled(s, step)
  {
    match step
    case Attempt(c) =>
      if s.store.Live(s.key) then
        s.(phases := s.phases[c := if s.phases[c].left == 0 then Working(false) else Trying(s.phases[c].left - 1)])
      else
        s.(store := s.store.SetNx(s.key, c, s.ttlMs), phases := s.phases[c := Working(true)])
    case Write(c) =>
      var won := s.phases[c].won;
      if s.row == None
      then s.(row := Some(c), phases := s.phases[c := Leaving(won, Success)])
      else s.(phases := s.phases[c := Leaving(won, Conflict)])
    case Leave(c, releaseFails) =>
      var store := if s.phases[c].won && !releaseFails then s.store.CompareAndDelete(s.key, c) else s.store;
      s.(store := store, phases := s.phases[c := Done(s.phases[c].verdict)])
    case Meanwhile(store) => s.(store := store)
  }

  predicate Judged(p: Phase) {
    p.Leaving? || p.Done?
  }

  /** The row belongs to the one caller that succeeded; until there is a row nobody has been told anything. */
  ghost predicate Inv(s: State) {
    && (forall c :: c in s.phases && Judged(s.phases[c]) ==> s.row.Some? && (s.phases[c].verdict == Success <==> s.row.value == c))
    && (s.row.Some? ==> s.row.value in s.phases && Judged(s.phases[s.row.value]))
  }

  function Start(key: string, ttlMs: int, retries: nat, store: Store<Caller>, callers: set<Caller>): State {
    State(key, ttlMs, store, None, map c | c in callers :: Trying(retries))
  }

  function Run(s: State, steps: seq<Step>): Option<State> {
    if steps == [] then Some(s)
    else
      var before := Run(s, steps[..|steps| - 1]);
      var step := steps[|steps| - 1];
      if before.Some? && Enabled(before.value, step) then Some(Next(before.value, step)) else None
  }

  function WritesBy(steps: seq<Step>, c: Caller): nat {
    if steps == [] then 0
    else WritesBy(steps[..|steps| - 1], c) + if steps[|steps| - 1] == Write(c) then 1 else 0
  }

  lemma StepKeepsInv(s: State, step: Step)
    requires Inv(s) && Enabled(s, step)
    ensures Inv(Next(s, step)) && Next(s, step).phases.Keys == s.phases.Keys
  {
  }

  lemma {:induction false} RunKeepsInv(s: State, steps: seq<Step>)
    requires Inv(s) && Run(s, steps).Some?
    ensures Inv(Run(s, steps).value) && Run(s, steps).value.phases.Keys == s.phases.Keys
    decreases |steps|
  {
    if steps != [] {
      RunKeepsInv(s, steps[..|steps| - 1]);
      StepKeepsInv(Run(s, steps[..|steps| - 1]).value, steps[|steps| - 1]);
    }
  }

  /** A caller's work runs exactly once, whether or not it won the lock: never before it is judged and never again after. */
  lemma {:induction false} WorkRunsOnce(s: State, steps: seq<Step>, c: Caller)
    requires forall d :: d in s.phases ==> s.phases[d].Trying?
    requires Run(s, steps).Some? && c in s.phases
    ensures c in Run(s, steps).value.phases
    ensures WritesBy(steps, c) == if Judged(Run(s, steps).value.phases[c]) then 1 else 0
    decreases |steps|
  {
    if steps != [] {
      WorkRunsOnce(s, steps[..|steps| - 1], c);
    }
  }

  /** Only a lock its caller won is ever let go, and a release never touches a lock another caller holds. */
  lemma LeavingTouchesNoOther(s: State, c: Caller, releaseFails: bool, d: Caller)
    requires Enabled(s, Leave(c, releaseFails)) && s.store.Holds(s.key, d)
    ensures d != c || !s.phases[c].won ==> Next(s, Leave(c, releaseFails)).store == s.store
  {
  }

  /** Once all have finished, one caller succeeded and every other got a conflict, in whatever order things happened. */
  lemma OneSuccess(key: string, ttlMs: int, retries: nat, store: Store<Caller>, callers: set<Caller>, steps: seq<Step>)
    requires callers != {}
    requires Run(Start(key, ttlMs, retries, store, callers), steps).Some?
    requires var end := Run(Start(key, ttlMs, retries, store, callers), steps).value;
             forall c :: c in end.phases ==> end.phases[c].Done?
    ensures var end := Run(Start(key, ttlMs, retries, store, callers), steps).value;
            && end.phases.Keys == callers
            && |set c | c in callers && end.phases[c].verdict == Success| == 1
            && |set c | c in callers && end.phases[c].verdict == Conflict| == |callers| - 1
  {
    var start := Start(key, ttlMs, retries, store, callers);
    var end := Run(start, steps).value;
    RunKeepsInv(start, steps);
    assert start.phases.Keys == callers;
    var c :| c in callers;
    assert Judged(end.phases[c]);
    var w := end.row.value;
    assert (set c | c in callers && end.phases[c].verdict == Success) == {w};
    assert (set c | c in callers && end.phases[c].verdict == Conflict) == callers - {w};
  }

  // ---------------------------------------------------------------------------
  // The service's own method
  // ---------------------------------------------------------------------------

  /** The work of a caller on the row: the first writer gets it, and every later one an error. */
  function FirstWriter(c: Caller): Option<Caller> -> (Option<Caller>, Locks.Outcome<Verdict>) {
    (row: Option<Caller>) => if row.None? then (Some(c), Locks.Returned(Success)) else (row, Locks.Threw)
  }

  function VerdictOf(outcome: Locks.Outcome<Verdict>): Verdict {
    if outcome.Returned? then outcome.value else Conflict
  }

  lemma {:induction false} RunInTurn(s: State, a: seq<Step>, b: seq<Step>)
    requires Run(s, a).Some?
    ensures Run(s, a + b) == Run(Run(s, a).value, b)
    decreases |b|
  {
    if b == [] {
      assert a + b == a;
    } else {
      assert (a + b)[..|a + b| - 1] == a + b[..|b| - 1];
      RunInTurn(s, a, b[..|b| - 1]);
    }
  }

  lemma OneStep(s: State, step: Step)
    requires Enabled(s, step)
    ensures Run(s, [step]) == Some(Next(s, step))
  {
    assert [step][..0] == [];
  }

  /** A caller's attempts, others' commands between them: while the key is taken and tries are left it tries again. */
  function Attempts(s: State, c: Caller, others: seq<seq<Locks.Step>>): seq<Step>
    decreases |others|
  {
    if s.store.Live(s.key) && others != [] then
      var meanwhile := Locks.ApplyAll(s.store, others[0]);
      [Attempt(c), Meanwhile(meanwhile)] + Attempts(s.(store := meanwhile), c, others[1..])
    else [Attempt(c)]
  }

  /** What the attempts come to: Redis after them, and whether the lock was won. */
  function Tried(store: Store<Caller>, key: string, c: Caller, ttlMs: int, others: seq<seq<Locks.Step>>): (Store<Caller>, bool)
    decreases |others|
  {
    if !store.Live(key) then (store.Set(key, c, ttlMs), true)
    else if others == [] then (store, false)
    else Tried(Locks.ApplyAll(store, others[0]), key, c, ttlMs, others[1..])
  }

  lemma {:induction false} AttemptsRun(s: State, c: Caller, others: seq<seq<Locks.Step>>)
    requires c in s.phases && s.phases[c] == Trying(|others|)
    ensures var tried := Tried(s.store, s.key, c, s.ttlMs, others);
            Run(s, Attempts(s, c, others)) == Some(s.(store := tried.0, phases := s.phases[c := Working(tried.1)]))
    decreases |others|
  {
    var s1 := Next(s, Attempt(c));
    OneStep(s, Attempt(c));
    if s.store.Live(s.key) && others != [] {
      var meanwhile := Locks.ApplyAll(s.store, others[0]);
      var s2 := Next(s1, Meanwhile(meanwhile));
      OneStep(s1, Meanwhile(meanwhile));
      RunInTurn(s, [Attempt(c)], [Meanwhile(meanwhile)]);
      assert [Attempt(c)] + [Meanwhile(meanwhile)] == [Attempt(c), Meanwhile(meanwhile)];
      AttemptsRun(s2, c, others[1..]);
      SameAttempts(s2, s.(store := meanwhile), c, others[1..]);
      RunInTurn(s, [Attempt(c), Meanwhile(meanwhile)], Attempts(s2, c, others[1..]));
      assert s2.phases[c := Working(Tried(meanwhile, s.key, c, s.ttlMs, others[1..]).1)]
          == s.phases[c := Working(Tried(meanwhile, s.key, c, s.ttlMs, others[1..]).1)];
    }
  }

  lemma {:induction false} SameAttempts(s: State, t: State, c: Caller, others: seq<seq<Locks.Step>>)
    requires s.store == t.store && s.key == t.key
    ensures Attempts(s, c, others) == Attempts(t, c, others)
    decreases |others|
  {
    if s.store.Live(s.key) && others != [] {
      var meanwhile := Locks.ApplyAll(s.store, others[0]);
      SameAttempts(s.(store := meanwhile), t.(store := meanwhile), c, others[1..]);
    }
  }

  lemma {:induction false} BeforeFromFirst(store: Store<Caller>, others: seq<seq<Locks.Step>>, i: nat)
    requires i < |others|
    ensures Locks.Before(store, others, i + 1) == Locks.Before(Locks.ApplyAll(store, others[0]), others[1..], i)
  {
    if i > 0 {
      BeforeFromFirst(store, others, i - 1);
    }
  }

  /** The attempts come to what the service's own loop comes to. */
  lemma {:induction false} TriedIsAcquired(store: Store<Caller>, key: string, c: Caller, ttlMs: int, others: seq<seq<Locks.Step>>)
    ensures Locks.NeverFree(store, others, key, |others|) ==>
              Tried(store, key, c, ttlMs, others) == (Locks.Before(store, others, |others|), false)
    ensures forall i: nat | Locks.WonAt(store, others, key, i, |others|) ::
              Tried(store, key, c, ttlMs, others) == (Locks.Before(store, others, i).Set(key, c, ttlMs), true)
    decreases |others|
  {
    assert Locks.Before(store, others, 0) == store;
    if store.Live(key) && others != [] {
      var next := Locks.ApplyAll(store, others[0]);
      TriedIsAcquired(next, key, c, ttlMs, others[1..]);
      forall i: nat | i < |others| ensures Locks.Before(store, others, i + 1) == Locks.Before(next, others[1..], i) {
        BeforeFromFirst(store, others, i);
      }
      if Locks.NeverFree(store, others, key, |others|) {
        forall j | 0 <= j <= |others| - 1 ensures Locks.Before(next, others[1..], j).Live(key) {
          assert Locks.Before(store, others, j + 1).Live(key);
        }
      }
      forall i: nat | Locks.WonAt(store, others, key, i, |others|)
        ensures Tried(store, key, c, ttlMs, others) == (Locks.Before(store, others, i).Set(key, c, ttlMs), true)
      {
        forall j | 0 <= j < i - 1 ensures Locks.Before(next, others[1..], j).Live(key) {
          assert Locks.Before(store, others, j + 1).Live(key);
        }
        assert Locks.WonAt(next, others[1..], key, i - 1, |others| - 1);
      }
    }
  }

  /** One caller's whole call. */
  function CallSteps(s: State, c: Caller, others: seq<seq<Locks.Step>>, during: seq<Locks.Step>, releaseFails: bool): seq<Step> {
    Attempts(s, c, others) +
    [Write(c), Meanwhile(Locks.ApplyAll(Tried(s.store, s.key, c, s.ttlMs, others).0, during)), Leave(c, releaseFails)]
  }

  lemma WorkAndLeave(s: State, c: Caller, meanwhile: Store<Caller>, releaseFails: bool)
    requires c in s.phases && s.phases[c].Working?
    ensures var run, done := Run(s, [Write(c), Meanwhile(meanwhile), Leave(c, releaseFails)]), FirstWriter(c)(s.row);
            && run.Some? && run.value.row == done.0
            && c in run.value.phases && run.value.phases[c] == Done(VerdictOf(done.1))
            && run.value.store == if s.phases[c].won && !releaseFails then meanwhile.CompareAndDelete(s.key, c) else meanwhile
  {
    var s1 := Next(s, Write(c));
    var s2 := Next(s1, Meanwhile(meanwhile));
    OneStep(s, Write(c));
    OneStep(s1, Meanwhile(meanwhile));
    OneStep(s2, Leave(c, releaseFails));
    RunInTurn(s, [Write(c)], [Meanwhile(meanwhile)]);
    RunInTurn(s, [Write(c)] + [Meanwhile(meanwhile)], [Leave(c, releaseFails)]);
    assert [Write(c)] + [Meanwhile(meanwhile)] + [Leave(c, releaseFails)] == [Write(c), Meanwhile(meanwhile), Leave(c, releaseFails)];
  }

  /**
   What `Locks.LockService.WithBestEffortLock` promises, with the row for its world and the first-writer's write for its
   work, is what a run of one caller's steps here comes to.
   */
  lemma CallIsARun(key: string, s: State, c: Caller, others: seq<seq<Locks.Step>>, during: seq<Locks.Step>, releaseFails: bool)
    requires s.key == Locks.LockKey(key) && c in s.phases && s.phases[c] == Trying(|others|)
    ensures var run, done := Run(s, CallSteps(s, c, others, during, releaseFails)), FirstWriter(c)(s.row);
            && run.Some? && run.value.row == done.0
            && c in run.value.phases && run.value.phases[c] == Done(VerdictOf(done.1))
            && (Locks.NeverFree(s.store, others, s.key, |others|) ==>
                  run.value.store == Locks.ApplyAll(Locks.Before(s.store, others, |others|), during))
            && (forall i: nat | Locks.WonAt(s.store, others, s.key, i, |others|) ::
                  run.value.store == Locks.AfterWork(Locks.Before(s.store, others, i).Set(s.key, c, s.ttlMs), key, c, during, releaseFails))
  {
    var tried := Tried(s.store, s.key, c, s.ttlMs, others);
    var meanwhile := Locks.ApplyAll(tried.0, during);
    var s1 := s.(store := tried.0, phases := s.phases[c := Working(tried.1)]);
    AttemptsRun(s, c, others);
    WorkAndLeave(s1, c, meanwhile, releaseFails);
    RunInTurn(s, Attempts(s, c, others), [Write(c), Meanwhile(meanwhile), Leave(c, releaseFails)]);
    TriedIsAcquired(s.store, s.key, c, s.ttlMs, others);
  }
}
