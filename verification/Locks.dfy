/**
 Mutual exclusion over Redis: one token an acquisition, SET NX PX to take a lock,
 compare-and-delete to let it go, compare-and-extend to keep it.

 The first half is the protocol: any number of clients, their commands interleaved in any
 order with the passing of time. The second half is `LockService` itself, whose methods
 are told what the other clients did while they slept or ran.
 */
module Locks {
  import opened Redis
  import opened Wrappers

  type Token = nat

  /** One command of some client, or the passing of time. */
  datatype Step =
    | Attempt(key: string, token: Token, ttlMs: int)
    | Release(key: string, token: Token)
    | Extend(key: string, token: Token, ttlMs: int)
    | Elapse(ms: nat)

  /** What a step does to Redis. */
  function Apply(store: Store<Token>, step: Step): Store<Token> {
    match step
    case Attempt(key, token, ttlMs) => if ttlMs <= 0 then store else store.SetNx(key, token, ttlMs)
    case Release(key, token) => store.CompareAndDelete(key, token)
    case Extend(key, token, ttlMs) => store.CompareAndExtend(key, token, ttlMs)
    case Elapse(ms) => store.Elapse(ms)
  }

  /** What the client that drew a token was told: which key it won, until when, and whether it has let go. */
  datatype Lease = Lease(key: string, until: int, released: bool)

  datatype State = State(store: Store<Token>, leases: map<Token, Lease>) {

    /** The client with this token has the lock as far as it was told: it won it, has not let go, and its time is not up. */
    predicate Owns(token: Token) {
      token in leases && !leases[token].released && store.now < leases[token].until
    }
  }

  /** A token is drawn afresh for each acquisition; only the client that won with it can release or extend. */
  predicate Enabled(s: State, step: Step) {
    match step
    case Attempt(_, token, _) => token !in s.leases
    case Release(key, token) => token in s.leases && s.leases[token].key == key
    case Extend(key, token, _) => token in s.leases && s.leases[token].key == key
    case Elapse(_) => true
  }

  function Next(s: State, step: Step): State {
    var store := Apply(s.store, step);
    match step
    case Attempt(key, token, ttlMs) =>
      if ttlMs <= 0 || s.store.Live(key) then State(store, s.leases)
      else State(store, s.leases[token := Lease(key, s.store.now + ttlMs, false)])
    case Release(key, token) =>
      if token in s.leases then State(store, s.leases[token := s.leases[token].(released := true)]) else State(store, s.leases)
    case Extend(key, token, ttlMs) =>
      if token in s.leases && s.store.Holds(key, token)
      then State(store, s.leases[token := s.leases[token].(until := s.store.now + ttlMs)])
      else State(store, s.leases)
    case Elapse(_) => State(store, s.leases)
  }

  /** What a client believes of an unexpired lease is what Redis holds, and Redis holds nothing live besides. */
  ghost predicate Inv(s: State) {
    && (forall t :: s.Owns(t) ==> var l := s.leases[t]; l.key in s.store.entries && s.store.entries[l.key] == Entry(t, l.until))
    && (forall k :: s.store.Live(k) ==>
          var e := s.store.entries[k];
          e.value in s.leases && s.leases[e.value] == Lease(k, e.expiresAt, false))
  }

  function Start(now: int): State {
    State(Store(map[], now), map[])
  }

  lemma StepKeepsInv(s: State, step: Step)
    requires Inv(s) && Enabled(s, step)
    ensures Inv(Next(s, step))
  {
    var s' := Next(s, step);
    forall t | s'.Owns(t)
      ensures var l := s'.leases[t]; l.key in s'.store.entries && s'.store.entries[l.key] == Entry(t, l.until)
    {
      assert s.Owns(t) || !step.Elapse?;
    }
    forall k | s'.store.Live(k)
      ensures var e := s'.store.entries[k];
              e.value in s'.leases && s'.leases[e.value] == Lease(k, e.expiresAt, false)
    {
      assert s.store.Live(k) || (step.Attempt? && step.key == k);
    }
  }

  /** No two tokens own the same key. */
  lemma OneOwner(s: State, t1: Token, t2: Token)
    requires Inv(s) && s.Owns(t1) && s.Owns(t2) && s.leases[t1].key == s.leases[t2].key
    ensures t1 == t2
  {
  }

  /** No step by one token removes, shortens or lengthens what another token owns, nor can it take the key meanwhile. */
  lemma OthersAreLeftAlone(s: State, step: Step, t: Token)
    requires Inv(s) && Enabled(s, step) && s.Owns(t) && !step.Elapse? && step.token != t
    ensures var s' := Next(s, step);
            && s'.Owns(t) && s'.leases[t] == s.leases[t]
            && s'.store.entries[s.leases[t].key] == s.store.entries[s.leases[t].key]
            && s'.store.now == s.store.now
    ensures step.Attempt? && step.key == s.leases[t].key ==> Next(s, step) == s
  {
  }

  /** Letting go frees a key that is still owned, at once. */
  lemma ReleaseFrees(s: State, t: Token)
    requires Inv(s) && s.Owns(t)
    ensures !Next(s, Release(s.leases[t].key, t)).store.Live(s.leases[t].key)
  {
  }

  // ---------------------------------------------------------------------------
  // Whole runs
  // ---------------------------------------------------------------------------

  function Run(s: State, steps: seq<Step>): State {
    if steps == [] then s else Next(Run(s, steps[..|steps| - 1]), steps[|steps| - 1])
  }

  /** Every step is taken by a client that may take it. */
  ghost predicate IsRun(s: State, steps: seq<Step>) {
    forall i :: 0 <= i < |steps| ==> Enabled(Run(s, steps[..i]), steps[i])
  }

  lemma RunStep(s: State, steps: seq<Step>, n: nat)
    requires n < |steps|
    ensures Run(s, steps[..n + 1]) == Next(Run(s, steps[..n]), steps[n])
  {
    assert steps[..n + 1][..n] == steps[..n];
  }

  lemma {:induction false} RunKeepsInv(s: State, steps: seq<Step>, n: nat)
    requires Inv(s) && IsRun(s, steps) && n <= |steps|
    ensures Inv(Run(s, steps[..n]))
  {
    if n > 0 {
      RunKeepsInv(s, steps, n - 1);
      RunStep(s, steps, n - 1);
      StepKeepsInv(Run(s, steps[..n - 1]), steps[n - 1]);
    }
  }

  /** A stretch of a run, from one state to a later one, in which the client with `token` does its work under the lock. */
  datatype Body = Body(token: Token, first: nat, last: nat)

  /** The work starts once the lock is won and ends within the lease, before the client lets go. */
  ghost predicate WithinLease(s: State, steps: seq<Step>, b: Body) {
    && b.first <= b.last <= |steps|
    && Run(s, steps[..b.first]).Owns(b.token)
    && Run(s, steps[..b.last]).Owns(b.token)
  }

  /** A lease that is good after a step was good before it, unless the step won it; the key it is for never changes. */
  lemma OwnedBefore(s: State, step: Step, t: Token)
    requires Inv(s) && Enabled(s, step) && t in s.leases
    ensures t in Next(s, step).leases && Next(s, step).leases[t].key == s.leases[t].key
    ensures Next(s, step).Owns(t) ==> s.Owns(t)
  {
  }

  /** All through its work the client owns the lock. */
  lemma OwnedThroughout(s: State, steps: seq<Step>, b: Body, i: nat)
    requires Inv(s) && IsRun(s, steps) && WithinLease(s, steps, b) && b.first <= i <= b.last
    ensures Run(s, steps[..i]).Owns(b.token) && SameLease(Run(s, steps[..b.first]), Run(s, steps[..i]), b.token)
  {
    InLeasesFrom(s, steps, b.token, b.first, i);
    OwnedUntil(s, steps, b.token, i, b.last);
  }

  lemma {:induction false} OwnedUntil(s: State, steps: seq<Step>, t: Token, i: nat, j: nat)
    requires Inv(s) && IsRun(s, steps) && i <= j <= |steps| && t in Run(s, steps[..i]).leases && Run(s, steps[..j]).Owns(t)
    ensures Run(s, steps[..i]).Owns(t)
    decreases j - i
  {
    if i < j {
      LeaseStays(s, steps, t, i);
      OwnedUntil(s, steps, t, i + 1, j);
    }
  }

  /** A token that has leased a key has leased that key for good. */
  ghost predicate SameLease(before: State, after: State, t: Token) {
    t in before.leases && t in after.leases && after.leases[t].key == before.leases[t].key
  }

  lemma {:induction false} InLeasesFrom(s: State, steps: seq<Step>, t: Token, i: nat, j: nat)
    requires Inv(s) && IsRun(s, steps) && i <= j <= |steps| && t in Run(s, steps[..i]).leases
    ensures SameLease(Run(s, steps[..i]), Run(s, steps[..j]), t)
    decreases j - i
  {
    if i < j {
      LeaseStays(s, steps, t, i);
      InLeasesFrom(s, steps, t, i + 1, j);
    }
  }

  lemma LeaseStays(s: State, steps: seq<Step>, t: Token, i: nat)
    requires Inv(s) && IsRun(s, steps) && i < |steps| && t in Run(s, steps[..i]).leases
    ensures SameLease(Run(s, steps[..i]), Run(s, steps[..i + 1]), t)
    ensures Run(s, steps[..i + 1]).Owns(t) ==> Run(s, steps[..i]).Owns(t)
  {
    RunKeepsInv(s, steps, i);
    RunStep(s, steps, i);
    OwnedBefore(Run(s, steps[..i]), steps[i], t);
  }

  /** Two pieces of work under one key, each ending within its lease, never overlap. */
  lemma BodiesNeverOverlap(now: int, steps: seq<Step>, b1: Body, b2: Body)
    requires IsRun(Start(now), steps)
    requires WithinLease(Start(now), steps, b1) && WithinLease(Start(now), steps, b2) && b1.token != b2.token
    requires Run(Start(now), steps[..b1.first]).leases[b1.token].key == Run(Start(now), steps[..b2.first]).leases[b2.token].key
    ensures b1.last < b2.first || b2.last < b1.first
  {
    if b2.first <= b1.last && b1.first <= b2.last {
      var i := if b1.first <= b2.first then b2.first else b1.first;
      OwnedThroughout(Start(now), steps, b1, i);
      OwnedThroughout(Start(now), steps, b2, i);
      RunKeepsInv(Start(now), steps, i);
      OneOwner(Run(Start(now), steps[..i]), b1.token, b2.token);
    }
  }

  /** A token keeps the lease its last command left it, whatever the others do, and for all of the time it was given. */
  lemma {:induction false} LeaseLasts(s: State, steps: seq<Step>, t: Token, n: nat)
    requires Inv(s) && IsRun(s, steps) && t in s.leases && n <= |steps|
    requires forall i :: 0 <= i < |steps| ==> steps[i].Elapse? || steps[i].token != t
    ensures t in Run(s, steps[..n]).leases && Run(s, steps[..n]).leases[t] == s.leases[t]
  {
    if n > 0 {
      LeaseLasts(s, steps, t, n - 1);
      RunStep(s, steps, n - 1);
    }
  }

  /** A lock cannot be lost before its time: whatever the other clients do, its owner keeps it until the lease is up. */
  lemma OwnershipLasts(s: State, steps: seq<Step>, t: Token, n: nat)
    requires Inv(s) && IsRun(s, steps) && s.Owns(t) && n <= |steps|
    requires forall i :: 0 <= i < |steps| ==> steps[i].Elapse? || steps[i].token != t
    requires Run(s, steps[..n]).store.now < s.leases[t].until
    ensures Run(s, steps[..n]).Owns(t) && Run(s, steps[..n]).leases[t] == s.leases[t]
  {
    LeaseLasts(s, steps, t, n);
  }

  /**
   Whoever finds a key free gets it, and from then on owns it just until the time asked for is over. So does an owner who
   extends.
   */
  lemma WonForItsTime(s: State, steps: seq<Step>, win: Step, n: nat)
    requires Inv(s) && Enabled(s, win) && IsRun(Next(s, win), steps) && n <= |steps|
    requires (win.Attempt? && !s.store.Live(win.key)) || (win.Extend? && s.Owns(win.token))
    requires win.ttlMs > 0 && forall i :: 0 <= i < |steps| ==> steps[i].Elapse? || steps[i].token != win.token
    ensures var end := Run(Next(s, win), steps[..n]);
            && (end.Owns(win.token) <==> end.store.now < s.store.now + win.ttlMs)
            && (end.store.Holds(win.key, win.token) <==> end.store.now < s.store.now + win.ttlMs)
  {
    StepKeepsInv(s, win);
    RunKeepsInv(Next(s, win), steps, n);
    assert Next(s, win).leases[win.token] == Lease(win.key, s.store.now + win.ttlMs, false);
    LeaseLasts(Next(s, win), steps, win.token, n);
  }

  // ---------------------------------------------------------------------------
  // LockService
  // ---------------------------------------------------------------------------

  function LockKey(key: string): string {
    "lock:" + key
  }

  /** Work under one name never waits for work under another. */
  lemma LockKeysDiffer(a: string, b: string)
    ensures LockKey(a) == LockKey(b) <==> a == b
  {
    assert LockKey(a)[5..] == a && LockKey(b)[5..] == b;
  }

  /** What a run of commands does to Redis. */
  function ApplyAll(store: Store<Token>, steps: seq<Step>): Store<Token> {
    if steps == [] then store else Apply(ApplyAll(store, steps[..|steps| - 1]), steps[|steps| - 1])
  }

  /** The commands a service is told of do to Redis what the same steps of the protocol do. */
  lemma {:induction false} RunIsApplyAll(s: State, steps: seq<Step>)
    ensures Run(s, steps).store == ApplyAll(s.store, steps)
    decreases |steps|
  {
    if steps != [] {
      RunIsApplyAll(s, steps[..|steps| - 1]);
    }
  }

  /** Redis as the `i`-th attempt finds it, the attempts before having failed: only the others' commands have changed it. */
  function Before(store: Store<Token>, others: seq<seq<Step>>, i: nat): Store<Token>
    requires i <= |others|
  {
    if i == 0 then store else ApplyAll(Before(store, others, i - 1), others[i - 1])
  }

  datatype Lock = Lock(key: string, token: Token)

  datatype Outcome<T> = Returned(value: T) | Threw

  datatype Result<T> = Locked | Ran(outcome: Outcome<T>)

  /** The attempt at which the lock is won, if any: the first of `retries + 1` that finds the key free. */
  ghost predicate WonAt(store: Store<Token>, others: seq<seq<Step>>, key: string, i: nat, retries: int) {
    && i <= retries <= |others|
    && !Before(store, others, i).Live(key)
    && forall j :: 0 <= j < i ==> Before(store, others, j).Live(key)
  }

  /** Every attempt finds the key taken. */
  ghost predicate NeverFree(store: Store<Token>, others: seq<seq<Step>>, key: string, retries: int)
    requires retries <= |others|
  {
    forall j :: 0 <= j <= retries ==> Before(store, others, j).Live(key)
  }

  /** The lock service, beside the database that the work done under its locks changes. */
  class LockService<W> {
    var store: Store<Token>
    var world: W

    constructor (store: Store<Token>, world: W)
      ensures this.store == store && this.world == world
    {
      this.store, this.world := store, world;
    }

    /** The other clients' commands that Redis served while this one waited. */
    method Meanwhile(steps: seq<Step>)
      modifies this`store
      ensures store == ApplyAll(old(store), steps)
    {
      for i := 0 to |steps|
        invariant store == ApplyAll(old(store), steps[..i])
      {
        store := Apply(store, steps[i]);
        assert steps[..i + 1][..i] == steps[..i];
      }
      assert steps[..|steps|] == steps;
    }

    /** Wins at the first attempt that finds the key free and returns nothing if none does; a failed attempt changes nothing. */
    method TryAcquire(key: string, token: Token, ttlMs: int, retries: int, others: seq<seq<Step>>)
      returns (lock: Option<Lock>, ghost won: nat)
      requires ttlMs > 0 && retries <= |others|
      modifies this`store
      ensures lock.Some? ==>
        && WonAt(old(store), others, LockKey(key), won, retries)
        && lock.value == Lock(LockKey(key), token)
        && store == Before(old(store), others, won).Set(LockKey(key), token, ttlMs)
      ensures lock.None? ==>
        && NeverFree(old(store), others, LockKey(key), retries)
        && store == Before(old(store), others, if retries < 0 then 0 else retries)
    {
      var lockKey := LockKey(key);
      var attempt := 0;
      won := 0;
      while attempt <= retries
        invariant 0 <= attempt && (0 <= retries ==> attempt <= retries + 1)
        invariant store == Before(old(store), others, if attempt <= retries then attempt else if retries < 0 then 0 else retries)
        invariant forall j :: 0 <= j < attempt && j <= retries ==> Before(old(store), others, j).Live(lockKey)
      {
        if !store.Live(lockKey) {
          store := store.SetNx(lockKey, token, ttlMs);
          won := attempt;
          return Some(Lock(lockKey, token)), won;
        }
        if attempt < retries {
          Meanwhile(others[attempt]);
        }
        attempt := attempt + 1;
      }
      lock := None;
    }

    method ReleaseLock(lock: Lock)
      modifies this`store
      ensures store == Apply(old(store), Release(lock.key, lock.token))
    {
      store := store.CompareAndDelete(lock.key, lock.token);
    }

    /** Answers whether the lease was extended, which it is exactly when the token still holds the key. */
    method ExtendLock(lock: Lock, ttlMs: int) returns (extended: bool)
      modifies this`store
      ensures extended == old(store).Holds(lock.key, lock.token)
      ensures store == Apply(old(store), Extend(lock.key, lock.token, ttlMs))
    {
      extended := store.Holds(lock.key, lock.token);
      store := store.CompareAndExtend(lock.key, lock.token, ttlMs);
    }

    /**
     Does the work once, under the lock, or not at all; the lock is let go whether the work returned or threw.
     `during` is what the others do meanwhile; `releaseFails` says the release never reached Redis.
     */
    method WithLock<T>(key: string, token: Token, ttlMs: int, retries: int, others: seq<seq<Step>>,
                       work: W -> (W, Outcome<T>), during: seq<Step>, releaseFails: bool)
      returns (result: Result<T>)
      requires ttlMs > 0 && retries <= |others|
      modifies this
      ensures result == Locked <==> NeverFree(old(store), others, LockKey(key), retries)
      ensures result.Locked? ==> world == old(world)
      ensures result.Ran? ==> (world, result.outcome) == work(old(world))
      ensures forall i | WonAt(old(store), others, LockKey(key), i, retries) ::
        store == AfterWork(Before(old(store), others, i).Set(LockKey(key), token, ttlMs), key, token, during, releaseFails)
    {
      var lock, won := TryAcquire(key, token, ttlMs, retries, others);
      if lock.None? {
        return Locked;
      }
      var done := work(world);
      world := done.0;
      Meanwhile(during);
      if !releaseFails {
        ReleaseLock(lock.value);
      }
      result := Ran(done.1);
    }

    /** Does the work exactly once whether or not the lock was won, and lets go of a lock only if it won it. */
    method WithBestEffortLock<T>(key: string, token: Token, ttlMs: int, retries: int, others: seq<seq<Step>>,
                                 work: W -> (W, Outcome<T>), during: seq<Step>, releaseFails: bool)
      returns (outcome: Outcome<T>)
      requires ttlMs > 0 && retries <= |others|
      modifies this
      ensures (world, outcome) == work(old(world))
      ensures NeverFree(old(store), others, LockKey(key), retries) ==>
        store == ApplyAll(Before(old(store), others, if retries < 0 then 0 else retries), during)
      ensures forall i | WonAt(old(store), others, LockKey(key), i, retries) ::
        store == AfterWork(Before(old(store), others, i).Set(LockKey(key), token, ttlMs), key, token, during, releaseFails)
    {
      var lock, won := TryAcquire(key, token, ttlMs, retries, others);
      var done := work(world);
      world := done.0;
      Meanwhile(during);
      if lock.Some? && !releaseFails {
        ReleaseLock(lock.value);
      }
      outcome := done.1;
    }
  }

  /** Redis after the others' commands during the work and the release that follows it. */
  function AfterWork(store: Store<Token>, key: string, token: Token, during: seq<Step>, releaseFails: bool): Store<Token> {
    var after := ApplyAll(store, during);
    if releaseFails then after else Apply(after, Release(LockKey(key), token))
  }
}
