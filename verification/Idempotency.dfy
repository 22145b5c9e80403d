/**
 Idempotent requests: the first caller under a key claims it with a 60-second in-flight marker,
 runs its handler and leaves its result to be replayed for 24 hours; a failed handler lets the
 key go.

 The first part is the protocol, any number of requests and keys in any order of steps; the
 second is the interceptor itself.
 */
module Idempotency {
  import opened Redis
  import opened Wrappers

  type Request = nat
  type Body = string

  const RESULT_TTL_MS := 24 * 60 * 60 * 1_000
  const IN_FLIGHT_TTL_MS := 60 * 1_000

  datatype Record = InFlight(fingerprint: string) | Finished(fingerprint: string, body: Body)

  /** What a request is answered with. */
  datatype Reply =
    | Fresh(body: Body)      // its own handler's result
    | HandlerError           // its own handler's error
    | Replayed(body: Body)   // an earlier result
    | KeyReused              // 422: the key was used for a different request
    | InProgress             // 409: the original is still running
    | KeyRequired            // 400

  /** Where a request is. `since` is when it claimed the key, or found it free. */
  datatype Phase =
    | Arrived
    | Beaten                                // its SET NX failed; it is about to GET
    | Running(since: int)
    | Storing(since: int, body: Body)       // its handler returned; the result is on its way to Redis
    | Deleting(since: int)                  // its handler threw; the delete is on its way
    | Answered(reply: Reply)
  {
    predicate Active() {
      Running? || Storing? || Deleting?
    }
  }

  datatype Call = Call(key: string, fingerprint: string, phase: Phase)

  datatype State = State(store: Store<Record>, calls: map<Request, Call>) {
    predicate Active(r: Request) {
      r in calls && calls[r].phase.Active()
    }
  }

  datatype Step =
    | Claim(request: Request)
    | Read(request: Request)
    | HandlerReturns(request: Request, body: Body)
    | HandlerThrows(request: Request)
    | Land(request: Request)      // the store or delete reaches Redis
    | Lose(request: Request)      // or never does
    | Elapse(ms: nat)

  predicate Enabled(s: State, step: Step) {
    match step
    case Claim(r) => r in s.calls && s.calls[r].phase.Arrived?
    case Read(r) => r in s.calls && s.calls[r].phase.Beaten?
    case HandlerReturns(r, _) => r in s.calls && s.calls[r].phase.Running?
    case HandlerThrows(r) => r in s.calls && s.calls[r].phase.Running?
    case Land(r) => r in s.calls && (s.calls[r].phase.Storing? || s.calls[r].phase.Deleting?)
    case Lose(r) => r in s.calls && (s.calls[r].phase.Storing? || s.calls[r].phase.Deleting?)
    case Elapse(_) => true
  }

  /** The answer a record in place gives to a request with this fingerprint. */
  function Answer(record: Record, fingerprint: string): Reply {
    if record.fingerprint != fingerprint then KeyReused
    else if record.InFlight? then InProgress
    else Replayed(record.body)
  }

  function Moved(s: State, r: Request, phase: Phase): map<Request, Call>
    requires r in s.calls
  {
    s.calls[r := s.calls[r].(phase := phase)]
  }

  function Next(s: State, step: Step): State
    requires Enabled(s, step)
  {
    match step
    case Claim(r) =>
      var call := s.calls[r];
      State(s.store.SetNx(call.key, InFlight(call.fingerprint), IN_FLIGHT_TTL_MS),
            Moved(s, r, if s.store.Live(call.key) then Beaten else Running(s.store.now)))
    case Read(r) =>
      var call := s.calls[r];
      State(s.store,
            Moved(s, r, match s.store.Get(call.key)
                        case None => Running(s.store.now)
                        case Some(record) => Answered(Answer(record, call.fingerprint))))
    case HandlerReturns(r, body) => State(s.store, Moved(s, r, Storing(s.calls[r].phase.since, body)))
    case HandlerThrows(r) => State(s.store, Moved(s, r, Deleting(s.calls[r].phase.since)))
    case Land(r) =>
      var call := s.calls[r];
      (match call.phase
       case Storing(_, body) =>
         State(s.store.Set(call.key, Finished(call.fingerprint, body), RESULT_TTL_MS), Moved(s, r, Answered(Fresh(body))))
       case _ =>
         State(s.store.Del(call.key), Moved(s, r, Answered(HandlerError))))
    case Lose(r) =>
      State(s.store, Moved(s, r, Answered(if s.calls[r].phase.Storing? then Fresh(s.calls[r].phase.body) else HandlerError)))
    case Elapse(ms) => State(s.store.Elapse(ms), s.calls)
  }

  /** A caller beaten to the key still finds a record when it reads, and no marker lapses under a handler that is not yet through. */
  ghost predicate Orderly(s: State, step: Step)
    requires Enabled(s, step)
  {
    match step
    case Read(r) => s.store.Live(s.calls[r].key)
    case Elapse(ms) => forall r :: s.Active(r) ==> s.store.now + ms < s.calls[r].phase.since + IN_FLIGHT_TTL_MS
    case _ => true
  }

  /** Every handler under way has its own marker in Redis. */
  ghost predicate MarkersInPlace(s: State) {
    forall r :: s.Active(r) ==>
      var c := s.calls[r];
      && s.store.now < c.phase.since + IN_FLIGHT_TTL_MS
      && c.key in s.store.entries
      && s.store.entries[c.key] == Entry(InFlight(c.fingerprint), c.phase.since + IN_FLIGHT_TTL_MS)
  }

  ghost predicate OneHandlerAKey(s: State) {
    forall r1, r2 :: s.Active(r1) && s.Active(r2) && s.calls[r1].key == s.calls[r2].key ==> r1 == r2
  }

  /** A request on the same key and with the same fingerprint whose own handler returned `body`. */
  ghost predicate Original(s: State, key: string, fingerprint: string, body: Body, r: Request) {
    r in s.calls && s.calls[r] == Call(key, fingerprint, Answered(Fresh(body)))
  }

  ghost predicate HasOriginal(s: State, key: string, fingerprint: string, body: Body) {
    exists r :: Original(s, key, fingerprint, body, r)
  }

  /** Every result in Redis, and every result replayed, is what some handler returned for that very key and fingerprint. */
  ghost predicate ResultsAreReal(s: State) {
    && (forall k :: k in s.store.entries && s.store.entries[k].value.Finished? ==>
          HasOriginal(s, k, s.store.entries[k].value.fingerprint, s.store.entries[k].value.body))
    && (forall r :: r in s.calls && s.calls[r].phase.Answered? && s.calls[r].phase.reply.Replayed? ==>
          HasOriginal(s, s.calls[r].key, s.calls[r].fingerprint, s.calls[r].phase.reply.body))
  }

  /** No marker has more than its 60 seconds left. */
  ghost predicate MarkersAreShort(s: State) {
    forall k :: k in s.store.entries && s.store.entries[k].value.InFlight? ==>
      s.store.entries[k].expiresAt <= s.store.now + IN_FLIGHT_TTL_MS
  }

  /** A step makes a request active only by claiming a free key for it. */
  lemma ActiveBefore(s: State, step: Step, r: Request)
    requires Enabled(s, step) && Orderly(s, step) && Next(s, step).Active(r)
    ensures s.Active(r) || (step == Claim(r) && r in s.calls && !s.store.Live(s.calls[r].key))
    ensures r in s.calls && Next(s, step).calls[r].key == s.calls[r].key && Next(s, step).calls[r].fingerprint == s.calls[r].fingerprint
    ensures s.Active(r) ==> Next(s, step).calls[r].phase.since == s.calls[r].phase.since
  {
  }

  lemma OrderlyStepKeepsOneHandler(s: State, step: Step)
    requires MarkersInPlace(s) && OneHandlerAKey(s) && Enabled(s, step) && Orderly(s, step)
    ensures OneHandlerAKey(Next(s, step))
  {
  }

  lemma OrderlyStepKeepsMarkers(s: State, step: Step)
    requires MarkersInPlace(s) && OneHandlerAKey(s) && Enabled(s, step) && Orderly(s, step)
    ensures MarkersInPlace(Next(s, step))
  {
    var s' := Next(s, step);
    forall r | s'.Active(r)
      ensures var c := s'.calls[r];
              && s'.store.now < c.phase.since + IN_FLIGHT_TTL_MS
              && c.key in s'.store.entries
              && s'.store.entries[c.key] == Entry(InFlight(c.fingerprint), c.phase.since + IN_FLIGHT_TTL_MS)
    {
      ActiveBefore(s, step, r);
    }
  }

  lemma OriginalsStay(s: State, step: Step, key: string, fingerprint: string, body: Body)
    requires Enabled(s, step) && HasOriginal(s, key, fingerprint, body)
    ensures HasOriginal(Next(s, step), key, fingerprint, body)
  {
    var r :| Original(s, key, fingerprint, body, r);
    assert Original(Next(s, step), key, fingerprint, body, r);
  }

  /** Holds of every step, orderly or not. */
  lemma StepKeepsResultsReal(s: State, step: Step)
    requires ResultsAreReal(s) && MarkersAreShort(s) && Enabled(s, step)
    ensures ResultsAreReal(Next(s, step)) && MarkersAreShort(Next(s, step))
  {
    var s' := Next(s, step);
    forall k | k in s'.store.entries && s'.store.entries[k].value.Finished?
      ensures HasOriginal(s', k, s'.store.entries[k].value.fingerprint, s'.store.entries[k].value.body)
    {
      var e := s'.store.entries[k].value;
      if k in s.store.entries && s.store.entries[k].value == e {
        OriginalsStay(s, step, k, e.fingerprint, e.body);
      } else {
        assert Original(s', k, e.fingerprint, e.body, step.request);
      }
    }
    forall r | r in s'.calls && s'.calls[r].phase.Answered? && s'.calls[r].phase.reply.Replayed?
      ensures HasOriginal(s', s'.calls[r].key, s'.calls[r].fingerprint, s'.calls[r].phase.reply.body)
    {
      OriginalsStay(s, step, s'.calls[r].key, s'.calls[r].fingerprint, s'.calls[r].phase.reply.body);
    }
  }

  // ---------------------------------------------------------------------------
  // Whole runs
  // ---------------------------------------------------------------------------

  /** Requests arrive at a Redis that knows none of their keys. */
  predicate IsStart(s: State) {
    s.store.entries == map[] && forall r :: r in s.calls ==> s.calls[r].phase == Arrived
  }

  ghost predicate IsRun(s: State, steps: seq<Step>)
    decreases |steps|
  {
    steps == [] || (Enabled(s, steps[0]) && IsRun(Next(s, steps[0]), steps[1..]))
  }

  function Run(s: State, steps: seq<Step>): State
    requires IsRun(s, steps)
    decreases |steps|
  {
    if steps == [] then s else Run(Next(s, steps[0]), steps[1..])
  }

  ghost predicate IsOrderlyRun(s: State, steps: seq<Step>)
    requires IsRun(s, steps)
    decreases |steps|
  {
    steps == [] || (Orderly(s, steps[0]) && IsOrderlyRun(Next(s, steps[0]), steps[1..]))
  }

  lemma {:induction false} OrderlyRunKeeps(s: State, steps: seq<Step>)
    requires MarkersInPlace(s) && OneHandlerAKey(s) && IsRun(s, steps) && IsOrderlyRun(s, steps)
    ensures MarkersInPlace(Run(s, steps)) && OneHandlerAKey(Run(s, steps))
    decreases |steps|
  {
    if steps != [] {
      OrderlyStepKeepsMarkers(s, steps[0]);
      OrderlyStepKeepsOneHandler(s, steps[0]);
      OrderlyRunKeeps(Next(s, steps[0]), steps[1..]);
    }
  }

  /** The two conditions are exact: a step keeps every handler's marker in place just if it meets them. */
  lemma OrderlyIsExact(s: State, step: Step)
    requires MarkersInPlace(s) && OneHandlerAKey(s) && Enabled(s, step)
    ensures Orderly(s, step) <==> MarkersInPlace(Next(s, step))
  {
    if Orderly(s, step) {
      OrderlyStepKeepsMarkers(s, step);
    } else if step.Elapse? {
      var r :| s.Active(r) && s.store.now + step.ms >= s.calls[r].phase.since + IN_FLIGHT_TTL_MS;
      assert Next(s, step).Active(r);
    } else {
      assert Next(s, step).Active(step.request);
    }
  }

  ghost predicate MarkersThroughout(s: State, steps: seq<Step>)
    requires IsRun(s, steps)
    decreases |steps|
  {
    MarkersInPlace(s) && (steps == [] || MarkersThroughout(Next(s, steps[0]), steps[1..]))
  }

  /** And so over a whole run: the markers are in place at every state just if every step meets them. */
  lemma {:induction false} OrderlyRunIsExact(s: State, steps: seq<Step>)
    requires MarkersInPlace(s) && OneHandlerAKey(s) && IsRun(s, steps)
    ensures IsOrderlyRun(s, steps) <==> MarkersThroughout(s, steps)
    decreases |steps|
  {
    if steps != [] {
      OrderlyIsExact(s, steps[0]);
      if Orderly(s, steps[0]) {
        OrderlyStepKeepsOneHandler(s, steps[0]);
        OrderlyRunIsExact(Next(s, steps[0]), steps[1..]);
      }
    }
  }

  lemma {:induction false} RunKeepsResultsReal(s: State, steps: seq<Step>)
    requires ResultsAreReal(s) && MarkersAreShort(s) && IsRun(s, steps)
    ensures ResultsAreReal(Run(s, steps)) && MarkersAreShort(Run(s, steps))
    decreases |steps|
  {
    if steps != [] {
      StepKeepsResultsReal(s, steps[0]);
      RunKeepsResultsReal(Next(s, steps[0]), steps[1..]);
    }
  }

  /** In every orderly run at most one handler is under way on a key, and its marker is the record in Redis. */
  lemma AtMostOneHandler(s: State, steps: seq<Step>, r1: Request, r2: Request)
    requires IsStart(s) && IsRun(s, steps) && IsOrderlyRun(s, steps)
    requires Run(s, steps).Active(r1)
    ensures var end := Run(s, steps);
            && end.store.Get(end.calls[r1].key) == Some(InFlight(end.calls[r1].fingerprint))
            && (end.Active(r2) && end.calls[r2].key == end.calls[r1].key ==> r1 == r2)
  {
    OrderlyRunKeeps(s, steps);
  }

  /** In every run at all, whatever is replayed is what a handler for the same key and fingerprint returned. */
  lemma ReplaysAreOriginals(s: State, steps: seq<Step>, r: Request)
    requires IsStart(s) && IsRun(s, steps)
    requires r in s.calls && r in Run(s, steps).calls && Run(s, steps).calls[r].phase.Answered? && Run(s, steps).calls[r].phase.reply.Replayed?
    ensures var end := Run(s, steps);
            HasOriginal(end, end.calls[r].key, end.calls[r].fingerprint, end.calls[r].phase.reply.body)
  {
    RunKeepsResultsReal(s, steps);
  }

  // ---------------------------------------------------------------------------
  // After a success, after a failure
  // ---------------------------------------------------------------------------

  /** The result that landed is in place and nobody is at work on the key. */
  ghost predicate Settled(s: State, key: string, e: Entry<Record>) {
    && key in s.store.entries && s.store.entries[key] == e && e.value.Finished?
    && forall r :: s.Active(r) ==> s.calls[r].key != key
  }

  lemma LandingSettles(s: State, r: Request)
    requires MarkersInPlace(s) && OneHandlerAKey(s) && Enabled(s, Land(r)) && s.calls[r].phase.Storing?
    ensures var c := s.calls[r];
            Settled(Next(s, Land(r)), c.key, Entry(Finished(c.fingerprint, c.phase.body), s.store.now + RESULT_TTL_MS))
  {
  }

  lemma SettledStays(s: State, step: Step, key: string, e: Entry<Record>)
    requires Settled(s, key, e) && s.store.now < e.expiresAt && Enabled(s, step)
    ensures Settled(Next(s, step), key, e)
  {
  }

  lemma TimeOnlyPasses(s: State, step: Step)
    requires Enabled(s, step)
    ensures s.store.now <= Next(s, step).store.now
  {
  }

  lemma {:induction false} TimeOnlyPassesInRun(s: State, steps: seq<Step>)
    requires IsRun(s, steps)
    ensures s.store.now <= Run(s, steps).store.now
    decreases |steps|
  {
    if steps != [] {
      TimeOnlyPasses(s, steps[0]);
      TimeOnlyPassesInRun(Next(s, steps[0]), steps[1..]);
    }
  }

  /** Once a result has landed, no handler runs on its key again until the result's 24 hours are up. */
  lemma {:induction false} NoHandlerUntilTheResultLapses(s: State, steps: seq<Step>, key: string, e: Entry<Record>)
    requires Settled(s, key, e) && IsRun(s, steps) && Run(s, steps).store.now < e.expiresAt
    ensures Settled(Run(s, steps), key, e)
    decreases |steps|
  {
    if steps != [] {
      TimeOnlyPasses(s, steps[0]);
      TimeOnlyPassesInRun(Next(s, steps[0]), steps[1..]);
      SettledStays(s, steps[0], key, e);
      NoHandlerUntilTheResultLapses(Next(s, steps[0]), steps[1..], key, e);
    }
  }

  /** A request that arrives meanwhile is answered by that result: replayed to its own fingerprint, refused to any other. */
  lemma SettledAnswers(s: State, r: Request, key: string, e: Entry<Record>)
    requires Settled(s, key, e) && s.store.now < e.expiresAt && Enabled(s, Claim(r)) && s.calls[r].key == key
    ensures var beaten := Next(s, Claim(r));
            && Enabled(beaten, Read(r)) && beaten.store == s.store
            && Next(beaten, Read(r)).calls[r].phase ==
                 Answered(if e.value.fingerprint == s.calls[r].fingerprint then Replayed(e.value.body) else KeyReused)
  {
  }

  /** Every answer given without running a handler is decided by the record in place. */
  lemma RecordDecides(s: State, r: Request)
    requires Enabled(s, Read(r)) && s.store.Live(s.calls[r].key)
    ensures var record := s.store.entries[s.calls[r].key].value;
            var phase := Next(s, Read(r)).calls[r].phase;
            && phase.Answered? && Next(s, Read(r)).store == s.store
            && (phase.reply == KeyReused <==> record.fingerprint != s.calls[r].fingerprint)
            && (phase.reply == InProgress <==> record == InFlight(s.calls[r].fingerprint))
            && (forall body :: phase.reply == Replayed(body) <==> record == Finished(s.calls[r].fingerprint, body))
  {
  }

  /** A failed handler's delete frees the key at once. */
  lemma FailureFreesTheKey(s: State, r: Request)
    requires Enabled(s, Land(r)) && s.calls[r].phase.Deleting?
    ensures !Next(s, Land(r)).store.Live(s.calls[r].key)
  {
  }

  /** A step that puts a record under the key: a claim that finds it free, or a result that lands. */
  predicate Writes(s: State, step: Step, key: string)
    requires Enabled(s, step)
  {
    match step
    case Claim(r) => s.calls[r].key == key && !s.store.Live(key)
    case Land(r) => s.calls[r].key == key && s.calls[r].phase.Storing?
    case _ => false
  }

  ghost predicate NothingWritten(s: State, steps: seq<Step>, key: string)
    requires IsRun(s, steps)
    decreases |steps|
  {
    steps == [] || (!Writes(s, steps[0], key) && NothingWritten(Next(s, steps[0]), steps[1..], key))
  }

  predicate GoneBy(s: State, key: string, until: int) {
    key in s.store.entries ==> s.store.entries[key].expiresAt <= until
  }

  lemma {:induction false} NothingIsProlonged(s: State, steps: seq<Step>, key: string, until: int)
    requires IsRun(s, steps) && NothingWritten(s, steps, key) && GoneBy(s, key, until)
    ensures GoneBy(Run(s, steps), key, until)
    decreases |steps|
  {
    if steps != [] {
      assert GoneBy(Next(s, steps[0]), key, until);
      NothingIsProlonged(Next(s, steps[0]), steps[1..], key, until);
    }
  }

  /**
   A marker whose result or delete never arrives, whoever left it, is gone a minute later, whatever else happens: nothing
   prolongs it, and the next to claim its key runs.
   */
  lemma LostMarkersLapse(start: State, before: seq<Step>, steps: seq<Step>, key: string)
    requires IsStart(start) && IsRun(start, before) && IsRun(Run(start, before), steps)
    requires var s := Run(start, before);
             && key in s.store.entries && s.store.entries[key].value.InFlight? && NothingWritten(s, steps, key)
             && Run(s, steps).store.now >= s.store.now + IN_FLIGHT_TTL_MS
    ensures var end := Run(Run(start, before), steps);
            && !end.store.Live(key)
            && forall r :: Enabled(end, Claim(r)) && end.calls[r].key == key ==> Next(end, Claim(r)).Active(r)
  {
    var s := Run(start, before);
    RunKeepsResultsReal(start, before);
    NothingIsProlonged(s, steps, key, s.store.now + IN_FLIGHT_TTL_MS);
  }

  // ---------------------------------------------------------------------------
  // Both conditions are needed
  // ---------------------------------------------------------------------------

  function ThreeTaps(): State {
    State(Store(map[], 0), map[0 := Call("k", "f", Arrived), 1 := Call("k", "f", Arrived), 2 := Call("k", "f", Arrived)])
  }

  /** The record goes between the second caller's SET NX and its GET: it runs with no marker, and the third runs beside it. */
  lemma RecordGoneBeforeGet()
    ensures var steps := [Claim(0), Claim(1), HandlerThrows(0), Land(0), Read(1), Claim(2)];
            && IsRun(ThreeTaps(), steps)
            && Run(ThreeTaps(), steps).Active(1) && Run(ThreeTaps(), steps).Active(2)
  {
    var s0 := ThreeTaps();
    var s1 := Next(s0, Claim(0));
    var s2 := Next(s1, Claim(1));
    var s3 := Next(s2, HandlerThrows(0));
    var s4 := Next(s3, Land(0));
    var s5 := Next(s4, Read(1));
    var s6 := Next(s5, Claim(2));
    RunsTo(s0, [Claim(0), Claim(1), HandlerThrows(0), Land(0), Read(1), Claim(2)], [s0, s1, s2, s3, s4, s5, s6], 0);
  }

  /** The handler outlives its marker: the second caller claims the key and runs beside it. */
  lemma MarkerLapsesUnderHandler()
    ensures var steps := [Claim(0), Elapse(IN_FLIGHT_TTL_MS), Claim(1)];
            && IsRun(ThreeTaps(), steps)
            && Run(ThreeTaps(), steps).Active(0) && Run(ThreeTaps(), steps).Active(1)
  {
    var s0 := ThreeTaps();
    var s1 := Next(s0, Claim(0));
    var s2 := Next(s1, Elapse(IN_FLIGHT_TTL_MS));
    var s3 := Next(s2, Claim(1));
    RunsTo(s0, [Claim(0), Elapse(IN_FLIGHT_TTL_MS), Claim(1)], [s0, s1, s2, s3], 0);
  }

  /** A run followed state by state. */
  lemma {:induction false} RunsTo(s: State, steps: seq<Step>, states: seq<State>, n: nat)
    requires n <= |steps| && |states| == |steps| + 1 && states[n] == s
    requires forall i :: n <= i < |steps| ==> Enabled(states[i], steps[i]) && states[i + 1] == Next(states[i], steps[i])
    ensures IsRun(s, steps[n..]) && Run(s, steps[n..]) == states[|steps|]
    ensures n == 0 ==> steps[n..] == steps
    decreases |steps| - n
  {
    if n < |steps| {
      RunsTo(states[n + 1], steps, states, n + 1);
      assert steps[n..][1..] == steps[n + 1..];
    }
  }

  // ---------------------------------------------------------------------------
  // The interceptor
  // ---------------------------------------------------------------------------

  function CacheKey(user: string, key: string): string {
    "idempotency:" + user + ":" + key
  }

  /** One user's keys are never another's: user ids hold no colon. */
  lemma KeysDoNotCollide(user1: string, key1: string, user2: string, key2: string)
    requires ':' !in user1 && ':' !in user2 && CacheKey(user1, key1) == CacheKey(user2, key2)
    ensures user1 == user2 && key1 == key2
  {
    var a, b := user1 + ":" + key1, user2 + ":" + key2;
    assert CacheKey(user1, key1)[12..] == a && CacheKey(user2, key2)[12..] == b;
    // The first colon of either is the one after the user.
    assert a[|user1|] == ':' && forall i :: 0 <= i < |user1| ==> a[i] == user1[i] && user1[i] in user1;
    assert b[|user2|] == ':' && forall i :: 0 <= i < |user2| ==> b[i] == user2[i] && user2[i] in user2;
    assert |user1| == |user2|;
    assert user1 == a[..|user1|] && user2 == b[..|user2|];
    assert key1 == a[|user1| + 1..] && key2 == b[|user2| + 1..];
  }

  datatype Handled = Body(body: Body) | Error

  class Interceptor {
    var store: Store<Record>

    constructor (store: Store<Record>)
      ensures this.store == store
    {
      this.store := store;
    }

    /**
     Claims the key, or gives the record that holds it. `gap` is what the other requests do to Redis
     between a failed SET NX and the GET; a record gone by then leaves the key to be treated as free.
     */
    method Claim(cacheKey: string, fingerprint: string, gap: Store<Record> -> Store<Record>) returns (existing: Option<Record>)
      modifies this
      ensures !old(store).Live(cacheKey) ==>
        existing == None && store == old(store).Set(cacheKey, InFlight(fingerprint), IN_FLIGHT_TTL_MS)
      ensures old(store).Live(cacheKey) ==>
        existing == gap(old(store)).Get(cacheKey) && store == gap(old(store))
    {
      var won := !store.Live(cacheKey);
      store := store.SetNx(cacheKey, InFlight(fingerprint), IN_FLIGHT_TTL_MS);
      if won {
        return None;
      }
      store := gap(store);
      existing := store.Get(cacheKey);
    }

    /**
     The whole of one request. `gap` and `during` are what others do to Redis before the GET and while the
     handler runs; `lands` says whether the store or delete reached Redis.
     */
    method Intercept(user: Option<string>, key: Option<string>, fingerprint: string, handler: Handled,
                     gap: Store<Record> -> Store<Record>, during: Store<Record> -> Store<Record>, lands: bool)
      returns (reply: Reply, runs: nat)
      modifies this
      ensures var named := key.Some? && 8 <= |key.value| <= 200;
              var cacheKey := CacheKey(if user.Some? then user.value else "anon", if key.Some? then key.value else "");
              if !named then reply == KeyRequired && runs == 0 && store == old(store)
              else
                && (store, reply) == Served(old(store), cacheKey, fingerprint, handler, gap, during, lands)
                && runs == if old(store).Live(cacheKey) && gap(old(store)).Live(cacheKey) then 0 else 1
    {
      runs := 0;
      if key.None? || |key.value| < 8 || |key.value| > 200 {
        return KeyRequired, runs;
      }
      var userId := if user.Some? then user.value else "anon";
      var cacheKey := CacheKey(userId, key.value);
      var existing := Claim(cacheKey, fingerprint, gap);
      if existing.Some? {
        if existing.value.fingerprint != fingerprint {
          return KeyReused, runs;
        }
        if existing.value.InFlight? {
          return InProgress, runs;
        }
        return Replayed(existing.value.body), runs;
      }
      runs := runs + 1;
      store := during(store);
      match handler {
        case Body(body) =>
          if lands {
            store := store.Set(cacheKey, Finished(fingerprint, body), RESULT_TTL_MS);
          }
          reply := Fresh(body);
        case Error =>
          if lands {
            store := store.Del(cacheKey);
          }
          reply := HandlerError;
      }
    }
  }

  /** Redis once a handler's result is stored, or its claim deleted, if either gets there. */
  function AfterHandler(store: Store<Record>, cacheKey: string, fingerprint: string, handler: Handled, lands: bool): Store<Record> {
    if !lands then store
    else if handler.Body? then store.Set(cacheKey, Finished(fingerprint, handler.body), RESULT_TTL_MS)
    else store.Del(cacheKey)
  }

  /** What the interceptor leaves and answers, with what others do to Redis before the GET and while the handler runs. */
  function Served(store: Store<Record>, cacheKey: string, fingerprint: string, handler: Handled,
                  gap: Store<Record> -> Store<Record>, during: Store<Record> -> Store<Record>, lands: bool): (Store<Record>, Reply) {
    var free, found := !store.Live(cacheKey), gap(store).Get(cacheKey);
    if !free && found.Some? then (gap(store), Answer(found.value, fingerprint))
    else
      var before := if free then store.Set(cacheKey, InFlight(fingerprint), IN_FLIGHT_TTL_MS) else gap(store);
      (AfterHandler(during(before), cacheKey, fingerprint, handler, lands), if handler.Body? then Fresh(handler.body) else HandlerError)
  }

  /** The steps of other requests, and the passing of time. */
  predicate ByOthers(steps: seq<Step>, r: Request) {
    forall i :: 0 <= i < |steps| ==> steps[i].Elapse? || steps[i].request != r
  }

  lemma {:induction false} RunsInTurn(s: State, a: seq<Step>, b: seq<Step>)
    requires IsRun(s, a) && IsRun(Run(s, a), b)
    ensures IsRun(s, a + b) && Run(s, a + b) == Run(Run(s, a), b)
    decreases |a|
  {
    if a == [] {
      assert a + b == b;
    } else {
      RunsInTurn(Next(s, a[0]), a[1..], b);
      assert (a + b)[1..] == a[1..] + b;
    }
  }

  lemma {:induction false} OthersLeave(s: State, steps: seq<Step>, r: Request)
    requires IsRun(s, steps) && ByOthers(steps, r) && r in s.calls
    ensures r in Run(s, steps).calls && Run(s, steps).calls[r] == s.calls[r]
    decreases |steps|
  {
    if steps != [] {
      OthersLeave(Next(s, steps[0]), steps[1..], r);
    }
  }

  lemma OneStep(s: State, step: Step)
    requires Enabled(s, step)
    ensures IsRun(s, [step]) && Run(s, [step]) == Next(s, step)
  {
    assert [step][1..] == [];
  }

  function Ending(r: Request, handler: Handled, lands: bool): seq<Step> {
    [if handler.Body? then HandlerReturns(r, handler.body) else HandlerThrows(r), if lands then Land(r) else Lose(r)]
  }

  /** A handler from its start to the landing of its result, others' steps in between. */
  lemma HandlerIsARun(s: State, r: Request, during: seq<Step>, handler: Handled, lands: bool)
    requires r in s.calls && s.calls[r].phase.Running? && IsRun(s, during) && ByOthers(during, r)
    ensures var steps := during + Ending(r, handler, lands);
            && IsRun(s, steps) && r in Run(s, steps).calls
            && Run(s, steps).store == AfterHandler(Run(s, during).store, s.calls[r].key, s.calls[r].fingerprint, handler, lands)
            && Run(s, steps).calls[r].phase == Answered(if handler.Body? then Fresh(handler.body) else HandlerError)
  {
    var ending, s1 := Ending(r, handler, lands), Run(s, during);
    OthersLeave(s, during, r);
    var s2 := Next(s1, ending[0]);
    OneStep(s1, ending[0]);
    OneStep(s2, ending[1]);
    RunsInTurn(s1, [ending[0]], [ending[1]]);
    assert [ending[0]] + [ending[1]] == ending;
    RunsInTurn(s, during, ending);
  }

  /** Redis and the requests as the GET of a beaten caller finds them. */
  ghost function AtRead(s: State, r: Request, gap: seq<Step>): State
    requires Enabled(s, Claim(r)) && IsRun(Next(s, Claim(r)), gap)
  {
    Run(Next(s, Claim(r)), gap)
  }

  /**
   The interceptor and the protocol are one. A request that finds its key free, served while other requests take any
   steps of theirs, is a run of the protocol with the same record and answer.
   */
  lemma ServedFreeIsARun(s: State, r: Request, during: seq<Step>, handler: Handled, lands: bool)
    requires Enabled(s, Claim(r)) && !s.store.Live(s.calls[r].key)
    requires IsRun(Next(s, Claim(r)), during) && ByOthers(during, r)
    ensures var steps := [Claim(r)] + (during + Ending(r, handler, lands));
            var after := Run(Next(s, Claim(r)), during).store;
            var served := Served(s.store, s.calls[r].key, s.calls[r].fingerprint, handler, store => store, store => after, lands);
            && IsRun(s, steps) && Run(s, steps).store == served.0
            && r in Run(s, steps).calls && Run(s, steps).calls[r].phase == Answered(served.1)
  {
    OneStep(s, Claim(r));
    HandlerIsARun(Next(s, Claim(r)), r, during, handler, lands);
    RunsInTurn(s, [Claim(r)], during + Ending(r, handler, lands));
  }

  /** And so is one that was beaten to its key, with others' steps before its GET too, if it finds a record there … */
  lemma ServedBeatenIsARun(s: State, r: Request, gap: seq<Step>, handler: Handled, lands: bool)
    requires Enabled(s, Claim(r)) && s.store.Live(s.calls[r].key)
    requires IsRun(Next(s, Claim(r)), gap) && ByOthers(gap, r)
    requires AtRead(s, r, gap).store.Live(s.calls[r].key)
    ensures var steps := [Claim(r)] + (gap + [Read(r)]);
            var found := AtRead(s, r, gap).store;
            var served := Served(s.store, s.calls[r].key, s.calls[r].fingerprint, handler, store => found, store => store, lands);
            && IsRun(s, steps) && Run(s, steps).store == served.0
            && r in Run(s, steps).calls && Run(s, steps).calls[r].phase == Answered(served.1)
  {
    var s1, s2 := Next(s, Claim(r)), AtRead(s, r, gap);
    OneStep(s, Claim(r));
    OthersLeave(s1, gap, r);
    OneStep(s2, Read(r));
    RunsInTurn(s1, gap, [Read(r)]);
    RunsInTurn(s, [Claim(r)], gap + [Read(r)]);
  }

  /** … and if it finds none, and runs its handler with no marker of its own. */
  lemma ServedUnmarkedIsARun(s: State, r: Request, gap: seq<Step>, during: seq<Step>, handler: Handled, lands: bool)
    requires Enabled(s, Claim(r)) && s.store.Live(s.calls[r].key)
    requires IsRun(Next(s, Claim(r)), gap) && ByOthers(gap, r)
    requires !AtRead(s, r, gap).store.Live(s.calls[r].key) && Enabled(AtRead(s, r, gap), Read(r))
    requires IsRun(Next(AtRead(s, r, gap), Read(r)), during) && ByOthers(during, r)
    ensures var steps := [Claim(r)] + (gap + ([Read(r)] + (during + Ending(r, handler, lands))));
            var found, after := AtRead(s, r, gap).store, Run(Next(AtRead(s, r, gap), Read(r)), during).store;
            var served := Served(s.store, s.calls[r].key, s.calls[r].fingerprint, handler, store => found, store => after, lands);
            && IsRun(s, steps) && Run(s, steps).store == served.0
            && r in Run(s, steps).calls && Run(s, steps).calls[r].phase == Answered(served.1)
  {
    var s1, s2 := Next(s, Claim(r)), AtRead(s, r, gap);
    OthersLeave(s1, gap, r);
    var ending := during + Ending(r, handler, lands);
    HandlerIsARun(Next(s2, Read(r)), r, during, handler, lands);
    OneStep(s2, Read(r));
    RunsInTurn(s2, [Read(r)], ending);
    RunsInTurn(s1, gap, [Read(r)] + ending);
    OneStep(s, Claim(r));
    RunsInTurn(s, [Claim(r)], gap + ([Read(r)] + ending));
  }
}
