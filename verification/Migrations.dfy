/**
 The migration runner: pending migrations are applied in the order of their ids, the last one is
 rolled back, and the ids applied are recorded in the database.

 Two orders of ids meet here: the locale's, which sorts the migrations, and the database's, by code
 points, which picks the one to roll back. The first is a parameter.
 */
module Migrations {
  import opened Texts
  import opened Wrappers

  datatype Migration = Migration(id: string, reversible: bool)

  /** How a migration's turn goes: its body throws, the write of its record does, or neither. */
  datatype Fate = Fine | BodyThrows | WriteThrows

  /** What happens in the database, in order. `done` tells whether a body came to its end. */
  datatype Entry = Ran(id: string, done: bool) | Recorded(id: string) | Undid(id: string, done: bool) | Forgotten(id: string)

  datatype Db = Db(recorded: set<string>, log: seq<Entry>)

  datatype UpResult = Applied(ids: seq<string>) | Failed

  datatype DownResult = NothingToUndo | RolledBack(id: string) | Refused

  type Order = (string, string) -> bool

  ghost predicate TotalOrder(atMost: Order) {
    && (forall a, b :: atMost(a, b) || atMost(b, a))
    && (forall a, b, c :: atMost(a, b) && atMost(b, c) ==> atMost(a, c))
  }

  // ---------------------------------------------------------------------------
  // The database's order
  // ---------------------------------------------------------------------------

  ghost predicate IsGreatest(id: string, ids: set<string>) {
    id in ids && forall x :: x in ids ==> AtMost(x, id)
  }

  lemma {:induction false} OneIsGreatest(ids: set<string>)
    requires ids != {}
    ensures exists id :: IsGreatest(id, ids)
    decreases |ids|
  {
    var some :| some in ids;
    var others := ids - {some};
    AtMostIsTotal(some, some);
    if others == {} {
      assert forall x :: x in ids ==> x in others || x == some;
      assert IsGreatest(some, ids);
    } else {
      OneIsGreatest(others);
      var best :| IsGreatest(best, others);
      GreaterOfTwo(some, best, ids);
    }
  }

  lemma GreaterOfTwo(some: string, best: string, ids: set<string>)
    requires some in ids && IsGreatest(best, ids - {some})
    ensures IsGreatest(some, ids) || IsGreatest(best, ids)
  {
    AtMostIsTotal(some, best);
    AtMostIsTotal(some, some);
    if !AtMost(some, best) {
      forall x | x in ids ensures AtMost(x, some) {
        if x != some {
          AtMostIsTransitive(x, best, some);
        }
      }
    }
  }

  lemma GreatestIsOne(a: string, b: string, ids: set<string>)
    requires IsGreatest(a, ids) && IsGreatest(b, ids)
    ensures a == b
  {
    AtMostIsTotal(a, b);
  }

  /** The record a descending sort by id puts first. */
  ghost function Greatest(ids: set<string>): (id: string)
    requires ids != {}
    ensures IsGreatest(id, ids)
  {
    OneIsGreatest(ids);
    var id :| IsGreatest(id, ids);
    id
  }

  // ---------------------------------------------------------------------------
  // The sorted list, and what is pending of it
  // ---------------------------------------------------------------------------

  function Insert(sorted: seq<Migration>, m: Migration, atMost: Order): seq<Migration> {
    if sorted == [] || atMost(sorted[|sorted| - 1].id, m.id) then sorted + [m]
    else Insert(sorted[..|sorted| - 1], m, atMost) + [sorted[|sorted| - 1]]
  }

  /** A stable sort by id. */
  function Sort(ms: seq<Migration>, atMost: Order): seq<Migration> {
    if ms == [] then [] else Insert(Sort(ms[..|ms| - 1], atMost), ms[|ms| - 1], atMost)
  }

  ghost predicate DistinctIds(ms: seq<Migration>) {
    forall i, j :: 0 <= i < j < |ms| ==> ms[i].id != ms[j].id
  }

  ghost predicate InOrder(ms: seq<Migration>, atMost: Order) {
    forall i, j :: 0 <= i < j < |ms| ==> atMost(ms[i].id, ms[j].id)
  }

  function IdsOf(ms: seq<Migration>): set<string> {
    set m | m in ms :: m.id
  }

  function Names(ms: seq<Migration>): seq<string> {
    seq(|ms|, i requires 0 <= i < |ms| => ms[i].id)
  }

  function Pending(sorted: seq<Migration>, recorded: set<string>): seq<Migration> {
    if sorted == [] then []
    else Pending(sorted[..|sorted| - 1], recorded) + if sorted[|sorted| - 1].id in recorded then [] else [sorted[|sorted| - 1]]
  }

  /** How many of them go through before the first that does not. */
  function Done(todo: seq<Migration>, fate: string -> Fate): (n: nat)
    ensures n <= |todo| && (n < |todo| ==> fate(todo[n].id) != Fine)
    ensures forall i :: 0 <= i < n ==> fate(todo[i].id) == Fine
  {
    if todo == [] || fate(todo[0].id) != Fine then 0 else 1 + Done(todo[1..], fate)
  }

  // ---------------------------------------------------------------------------
  // Up and down, as what they leave of the database
  // ---------------------------------------------------------------------------

  /** One migration's turn: its record is written once its body is through. */
  function Attempt(id: string, fate: Fate, db: Db): Db {
    match fate
    case BodyThrows => db.(log := db.log + [Ran(id, false)])
    case WriteThrows => db.(log := db.log + [Ran(id, true)])
    case Fine => Db(db.recorded + {id}, db.log + [Ran(id, true), Recorded(id)])
  }

  /** Turn by turn, up to the first that fails. */
  function RunAll(todo: seq<Migration>, fate: string -> Fate, db: Db): Db
    decreases |todo|
  {
    if todo == [] then db
    else
      var next := Attempt(todo[0].id, fate(todo[0].id), db);
      if fate(todo[0].id) == Fine then RunAll(todo[1..], fate, next) else next
  }

  function AfterUp(sorted: seq<Migration>, fate: string -> Fate, db: Db): Db {
    RunAll(Pending(sorted, db.recorded), fate, db)
  }

  function Find(ms: seq<Migration>, id: string): Option<Migration> {
    if ms == [] then None else if ms[0].id == id then Some(ms[0]) else Find(ms[1..], id)
  }

  predicate CanUndo(ms: seq<Migration>, id: string) {
    Find(ms, id).Some? && Find(ms, id).value.reversible
  }

  ghost function AfterDown(ms: seq<Migration>, fate: string -> Fate, db: Db): Db {
    if db.recorded == {} || !CanUndo(ms, Greatest(db.recorded)) then db
    else
      var id := Greatest(db.recorded);
      if fate(id) != Fine then db.(log := db.log + [Undid(id, fate(id) == WriteThrows)])
      else Db(db.recorded - {id}, db.log + [Undid(id, true), Forgotten(id)])
  }

  // ---------------------------------------------------------------------------
  // The runner
  // ---------------------------------------------------------------------------

  class MigrationRunner {
    const migrations: seq<Migration>
    const atMost: Order
    var recorded: set<string>
    var log: seq<Entry>

    constructor (migrations: seq<Migration>, atMost: Order, recorded: set<string>)
      ensures this.migrations == migrations && this.atMost == atMost && Now() == Db(recorded, [])
    {
      this.migrations, this.atMost, this.recorded, this.log := migrations, atMost, recorded, [];
    }

    ghost function Now(): Db
      reads this
    {
      Db(recorded, log)
    }

    /** The migrations in the order of their ids, or nothing when two share one. */
    method Ordered() returns (sorted: Option<seq<Migration>>)
      requires TotalOrder(atMost)
      ensures sorted == if DistinctIds(migrations) then Some(Sort(migrations, atMost)) else None
    {
      var list := Sort(migrations, atMost);
      var seen: set<string> := {};
      SortKeepsIds(migrations, atMost);
      for i := 0 to |list|
        invariant seen == IdsOf(list[..i]) && DistinctIds(list[..i])
      {
        if list[i].id in seen {
          assert exists j :: 0 <= j < i && list[j].id == list[i].id;
          return None;
        }
        assert list[..i + 1] == list[..i] + [list[i]];
        seen := seen + {list[i].id};
      }
      assert list[..|list|] == list;
      sorted := Some(list);
    }

    /** Which of the migrations are recorded, in order. */
    method Status() returns (lines: Option<seq<(string, bool)>>)
      requires TotalOrder(atMost)
      ensures lines.Some? <==> DistinctIds(migrations)
      ensures lines.Some? ==>
                && |lines.value| == |Sort(migrations, atMost)|
                && forall i :: 0 <= i < |lines.value| ==>
                     lines.value[i] == (Sort(migrations, atMost)[i].id, Sort(migrations, atMost)[i].id in recorded)
    {
      var sorted := Ordered();
      if sorted.None? {
        return None;
      }
      var applied := recorded;
      lines := Some(seq(|sorted.value|, i requires 0 <= i < |sorted.value| => (sorted.value[i].id, sorted.value[i].id in applied)));
    }

    /** Runs one migration and writes its record. */
    method Turn(migration: Migration, fate: Fate) returns (ok: bool)
      modifies this
      ensures Now() == Attempt(migration.id, fate, old(Now())) && (ok <==> fate == Fine)
    {
      if fate == BodyThrows {
        log := log + [Ran(migration.id, false)];
        return false;
      }
      log := log + [Ran(migration.id, true)];
      if fate == WriteThrows {
        return false;
      }
      recorded, log := recorded + {migration.id}, log + [Recorded(migration.id)];
      ok := true;
    }

    /** Runs every pending migration in order, stopping at the first that fails. */
    method Up(fate: string -> Fate) returns (result: UpResult)
      requires TotalOrder(atMost)
      modifies this
      ensures !DistinctIds(migrations) ==> result == Failed && Now() == old(Now())
      ensures DistinctIds(migrations) ==>
                var sorted := Sort(migrations, atMost);
                var todo := Pending(sorted, old(recorded));
                && Now() == AfterUp(sorted, fate, old(Now()))
                && result == if Done(todo, fate) == |todo| then Applied(Names(todo)) else Failed
    {
      var applied := recorded;
      var sorted := Ordered();
      if sorted.None? {
        return Failed;
      }
      var pending := Pending(sorted.value, applied);
      if |pending| == 0 {
        return Applied([]);
      }
      var ran := Turns(pending, fate);
      result := if |ran| == |pending| then Applied(ran) else Failed;
    }

    /** The loop of `Up`: the ids of those that went through. */
    method Turns(pending: seq<Migration>, fate: string -> Fate) returns (ran: seq<string>)
      modifies this
      ensures Now() == RunAll(pending, fate, old(Now()))
      ensures ran == Names(pending)[..Done(pending, fate)]
    {
      ran := [];
      for i := 0 to |pending|
        invariant RunAll(pending[i..], fate, Now()) == RunAll(pending, fate, old(Now()))
        invariant Done(pending, fate) == i + Done(pending[i..], fate)
        invariant ran == Names(pending)[..i]
      {
        assert pending[i..][0] == pending[i] && pending[i..][1..] == pending[i + 1..];
        var ok := Turn(pending[i], fate(pending[i].id));
        if !ok {
          return;
        }
        ran := ran + [pending[i].id];
      }
    }

    /** Rolls back the recorded migration with the greatest id, if it can be. */
    method Down(fate: string -> Fate) returns (result: DownResult)
      modifies this
      ensures Now() == AfterDown(migrations, fate, old(Now()))
      ensures result == if old(recorded) == {} then NothingToUndo
                        else if CanUndo(migrations, Greatest(old(recorded))) && fate(Greatest(old(recorded))) == Fine
                        then RolledBack(Greatest(old(recorded)))
                        else Refused
    {
      if recorded == {} {
        return NothingToUndo;
      }
      OneIsGreatest(recorded);
      assert IsGreatest(Greatest(recorded), recorded);
      var last :| last in recorded && forall x :: x in recorded ==> AtMost(x, last);
      GreatestIsOne(last, Greatest(recorded), recorded);
      var migration := Find(migrations, last);
      if migration.None? || !migration.value.reversible {
        return Refused;
      }
      if fate(last) == BodyThrows {
        log := log + [Undid(last, false)];
        return Refused;
      }
      log := log + [Undid(last, true)];
      if fate(last) == WriteThrows {
        return Refused;
      }
      recorded, log := recorded - {last}, log + [Forgotten(last)];
      result := RolledBack(last);
    }
  }

  // --- Sorting

  lemma LastId(init: seq<Migration>, m: Migration)
    ensures IdsOf(init + [m]) == IdsOf(init) + {m.id}
    ensures DistinctIds(init + [m]) <==> DistinctIds(init) && m.id !in IdsOf(init)
  {
    var all := init + [m];
    if DistinctIds(all) {
      forall i, j | 0 <= i < j < |init| ensures init[i].id != init[j].id {
        assert all[i].id != all[j].id;
      }
      forall i | 0 <= i < |init| ensures init[i].id != m.id {
        assert all[i].id != all[|init|].id;
      }
    }
  }

  lemma {:induction false} InsertKeeps(sorted: seq<Migration>, m: Migration, atMost: Order)
    ensures IdsOf(Insert(sorted, m, atMost)) == IdsOf(sorted) + {m.id}
    ensures DistinctIds(Insert(sorted, m, atMost)) <==> DistinctIds(sorted) && m.id !in IdsOf(sorted)
    ensures |Insert(sorted, m, atMost)| == |sorted| + 1
  {
    if sorted == [] || atMost(sorted[|sorted| - 1].id, m.id) {
      LastId(sorted, m);
    } else {
      var init, last := sorted[..|sorted| - 1], sorted[|sorted| - 1];
      assert sorted == init + [last];
      InsertKeeps(init, m, atMost);
      LastId(init, last);
      LastId(Insert(init, m, atMost), last);
    }
  }

  lemma {:induction false} SortKeepsIds(ms: seq<Migration>, atMost: Order)
    ensures IdsOf(Sort(ms, atMost)) == IdsOf(ms) && |Sort(ms, atMost)| == |ms|
    ensures DistinctIds(Sort(ms, atMost)) <==> DistinctIds(ms)
  {
    if ms != [] {
      var init, last := ms[..|ms| - 1], ms[|ms| - 1];
      assert ms == init + [last];
      SortKeepsIds(init, atMost);
      InsertKeeps(Sort(init, atMost), last, atMost);
      LastId(init, last);
    }
  }

  lemma {:induction false} InsertAdds(sorted: seq<Migration>, m: Migration, atMost: Order)
    ensures multiset(Insert(sorted, m, atMost)) == multiset(sorted) + multiset{m}
  {
    if sorted != [] && !atMost(sorted[|sorted| - 1].id, m.id) {
      assert sorted == sorted[..|sorted| - 1] + [sorted[|sorted| - 1]];
      InsertAdds(sorted[..|sorted| - 1], m, atMost);
    }
  }

  /** The sort keeps the migrations, each as often as before. */
  lemma {:induction false} SortKeeps(ms: seq<Migration>, atMost: Order)
    ensures multiset(Sort(ms, atMost)) == multiset(ms)
  {
    if ms != [] {
      assert ms == ms[..|ms| - 1] + [ms[|ms| - 1]];
      SortKeeps(ms[..|ms| - 1], atMost);
      InsertAdds(Sort(ms[..|ms| - 1], atMost), ms[|ms| - 1], atMost);
    }
  }

  lemma {:induction false} InsertInOrder(sorted: seq<Migration>, m: Migration, atMost: Order)
    requires TotalOrder(atMost) && InOrder(sorted, atMost)
    ensures InOrder(Insert(sorted, m, atMost), atMost)
    ensures forall x :: x in Insert(sorted, m, atMost) ==> x == m || x in sorted
  {
    if sorted == [] || atMost(sorted[|sorted| - 1].id, m.id) {
      forall i | 0 <= i < |sorted| ensures atMost(sorted[i].id, m.id) {
        assert i < |sorted| - 1 ==> atMost(sorted[i].id, sorted[|sorted| - 1].id);
      }
    } else {
      var init, last := sorted[..|sorted| - 1], sorted[|sorted| - 1];
      InsertInOrder(init, m, atMost);
      var inserted := Insert(init, m, atMost);
      forall i | 0 <= i < |inserted| ensures atMost(inserted[i].id, last.id) {
        assert inserted[i] == m || inserted[i] in init;
      }
    }
  }

  lemma {:induction false} SortInOrder(ms: seq<Migration>, atMost: Order)
    requires TotalOrder(atMost)
    ensures InOrder(Sort(ms, atMost), atMost)
  {
    if ms != [] {
      SortInOrder(ms[..|ms| - 1], atMost);
      InsertInOrder(Sort(ms[..|ms| - 1], atMost), ms[|ms| - 1], atMost);
    }
  }

  // ---------------------------------------------------------------------------
  // Runs
  // ---------------------------------------------------------------------------

  datatype Call = Up(fate: string -> Fate) | Down(fate: string -> Fate)

  ghost function After(ms: seq<Migration>, atMost: Order, call: Call, db: Db): Db {
    match call
    case Up(fate) => if DistinctIds(ms) then AfterUp(Sort(ms, atMost), fate, db) else db
    case Down(fate) => AfterDown(ms, fate, db)
  }

  ghost function AfterAll(ms: seq<Migration>, atMost: Order, calls: seq<Call>, db: Db): Db {
    if calls == [] then db
    else After(ms, atMost, calls[|calls| - 1], AfterAll(ms, atMost, calls[..|calls| - 1], db))
  }

  /** The ids recorded, going by what happened. */
  function Replay(initial: set<string>, log: seq<Entry>): set<string> {
    if log == [] then initial else Updated(Replay(initial, log[..|log| - 1]), log[|log| - 1])
  }

  function Updated(recorded: set<string>, e: Entry): set<string> {
    if e.Recorded? then recorded + {e.id} else if e.Forgotten? then recorded - {e.id} else recorded
  }

  predicate Fits(e: Entry, recorded: set<string>) {
    (e.Ran? ==> e.id !in recorded) && (e.Undid? ==> e.id in recorded)
  }

  /** No body ran while its id was recorded, and none was undone while it was not. */
  predicate Safe(initial: set<string>, log: seq<Entry>) {
    log == [] || (Safe(initial, log[..|log| - 1]) && Fits(log[|log| - 1], Replay(initial, log[..|log| - 1])))
  }

  predicate Sound(initial: set<string>, db: Db) {
    Safe(initial, db.log) && Replay(initial, db.log) == db.recorded
  }

  lemma OneMoreEntry(initial: set<string>, log: seq<Entry>, e: Entry)
    ensures Safe(initial, log + [e]) <==> Safe(initial, log) && Fits(e, Replay(initial, log))
    ensures Replay(initial, log + [e]) == Updated(Replay(initial, log), e)
  {
  }

  lemma TwoMoreEntries(initial: set<string>, log: seq<Entry>, e: Entry, f: Entry)
    requires Safe(initial, log) && Fits(e, Replay(initial, log)) && !e.Recorded? && !e.Forgotten? && !f.Ran? && !f.Undid?
    ensures Safe(initial, log + [e, f])
    ensures Replay(initial, log + [e, f]) ==
              if f.Recorded? then Replay(initial, log) + {f.id} else Replay(initial, log) - {f.id}
  {
    OneMoreEntry(initial, log, e);
    OneMoreEntry(initial, log + [e], f);
    assert log + [e] + [f] == log + [e, f];
  }

  lemma AttemptIsSound(initial: set<string>, id: string, fate: Fate, db: Db)
    requires Sound(initial, db) && id !in db.recorded
    ensures Sound(initial, Attempt(id, fate, db))
  {
    OneMoreEntry(initial, db.log, Ran(id, fate != BodyThrows));
    TwoMoreEntries(initial, db.log, Ran(id, true), Recorded(id));
  }

  lemma {:induction false} RunAllIsSound(initial: set<string>, todo: seq<Migration>, fate: string -> Fate, db: Db)
    requires Sound(initial, db) && DistinctIds(todo)
    requires forall i :: 0 <= i < |todo| ==> todo[i].id !in db.recorded
    ensures Sound(initial, RunAll(todo, fate, db))
    decreases |todo|
  {
    if todo != [] {
      AttemptIsSound(initial, todo[0].id, fate(todo[0].id), db);
      if fate(todo[0].id) == Fine {
        RunAllIsSound(initial, todo[1..], fate, Attempt(todo[0].id, Fine, db));
      }
    }
  }

  /** What is pending: in the list's order, those not recorded. */
  lemma {:induction false} PendingIs(sorted: seq<Migration>, recorded: set<string>)
    ensures forall m :: m in Pending(sorted, recorded) <==> m in sorted && m.id !in recorded
    ensures DistinctIds(sorted) ==> DistinctIds(Pending(sorted, recorded))
  {
    if sorted != [] {
      var init, last := sorted[..|sorted| - 1], sorted[|sorted| - 1];
      assert sorted == init + [last];
      PendingIs(init, recorded);
      LastId(init, last);
      LastId(Pending(init, recorded), last);
    }
  }

  /** Whatever throws, no body ever runs while its id is recorded: one call. */
  lemma CallIsSound(initial: set<string>, ms: seq<Migration>, atMost: Order, call: Call, db: Db)
    requires TotalOrder(atMost) && Sound(initial, db)
    ensures Sound(initial, After(ms, atMost, call, db))
  {
    match call
    case Up(fate) =>
      if DistinctIds(ms) {
        SortKeepsIds(ms, atMost);
        PendingIs(Sort(ms, atMost), db.recorded);
        RunAllIsSound(initial, Pending(Sort(ms, atMost), db.recorded), fate, db);
      }
    case Down(fate) =>
      if db.recorded != {} {
        var id := Greatest(db.recorded);
        OneMoreEntry(initial, db.log, Undid(id, fate(id) == WriteThrows));
        TwoMoreEntries(initial, db.log, Undid(id, true), Forgotten(id));
      }
  }

  lemma {:induction false} RunsAreSound(ms: seq<Migration>, atMost: Order, calls: seq<Call>, recorded: set<string>)
    requires TotalOrder(atMost)
    ensures Sound(recorded, AfterAll(ms, atMost, calls, Db(recorded, [])))
  {
    if calls != [] {
      RunsAreSound(ms, atMost, calls[..|calls| - 1], recorded);
      CallIsSound(recorded, ms, atMost, calls[|calls| - 1], AfterAll(ms, atMost, calls[..|calls| - 1], Db(recorded, [])));
    }
  }

  lemma {:induction false} StaysRecorded(initial: set<string>, log: seq<Entry>, k: nat, id: string)
    requires k < |log| && log[k] == Recorded(id)
    requires forall i :: k < i < |log| ==> log[i] != Forgotten(id)
    ensures id in Replay(initial, log)
  {
    if k < |log| - 1 {
      StaysRecorded(initial, log[..|log| - 1], k, id);
    }
  }

  lemma {:induction false} SafeSoFar(initial: set<string>, log: seq<Entry>, n: nat)
    requires n < |log| && Safe(initial, log)
    ensures Fits(log[n], Replay(initial, log[..n]))
  {
    if n < |log| - 1 {
      SafeSoFar(initial, log[..|log| - 1], n);
      assert log[..|log| - 1][..n] == log[..n];
    }
  }

  /** Over any run, a migration recorded is not run again until it has been rolled back. */
  lemma OnceRecorded(ms: seq<Migration>, atMost: Order, calls: seq<Call>, recorded: set<string>, k: nat, j: nat)
    requires TotalOrder(atMost)
    requires var log := AfterAll(ms, atMost, calls, Db(recorded, [])).log;
             k < j < |log| && log[k].Recorded? && log[j].Ran? && log[j].id == log[k].id
    ensures var log := AfterAll(ms, atMost, calls, Db(recorded, [])).log;
            exists i :: k < i < j && log[i] == Forgotten(log[k].id)
  {
    var log := AfterAll(ms, atMost, calls, Db(recorded, [])).log;
    RunsAreSound(ms, atMost, calls, recorded);
    SafeSoFar(recorded, log, j);
    if forall i :: k < i < j ==> log[i] != Forgotten(log[k].id) {
      StaysRecorded(recorded, log[..j], k, log[k].id);
    }
  }

  // --- What the record stands for

  /** A record is written, or removed, only right after its body came to its end; and bodies are those of known migrations. */
  predicate Backed(ms: seq<Migration>, log: seq<Entry>, k: nat)
    requires k < |log|
  {
    var e := log[k];
    match e
    case Recorded(id) => k > 0 && log[k - 1] == Ran(id, true)
    case Forgotten(id) => k > 0 && log[k - 1] == Undid(id, true)
    case Ran(id, _) => exists m :: m in ms && m.id == id
    case Undid(id, _) => exists m :: m in ms && m.id == id && m.reversible
  }

  ghost predicate AllBacked(ms: seq<Migration>, log: seq<Entry>) {
    forall k :: 0 <= k < |log| ==> Backed(ms, log, k)
  }

  lemma OneMoreBacked(ms: seq<Migration>, log: seq<Entry>, e: Entry)
    requires AllBacked(ms, log) && (e.Ran? || e.Undid?) && Backed(ms, [e], 0)
    ensures AllBacked(ms, log + [e])
  {
    forall k | 0 <= k < |log| ensures Backed(ms, log + [e], k) {
      assert Backed(ms, log, k);
    }
  }

  lemma TwoMoreBacked(ms: seq<Migration>, log: seq<Entry>, e: Entry, f: Entry)
    requires AllBacked(ms, log) && Backed(ms, [e], 0)
    requires (exists id :: e == Ran(id, true) && f == Recorded(id)) || (exists id :: e == Undid(id, true) && f == Forgotten(id))
    ensures AllBacked(ms, log + [e, f])
  {
    forall k | 0 <= k < |log| ensures Backed(ms, log + [e, f], k) {
      assert Backed(ms, log, k);
    }
  }

  lemma AttemptIsBacked(ms: seq<Migration>, m: Migration, fate: Fate, db: Db)
    requires AllBacked(ms, db.log) && m in ms
    ensures AllBacked(ms, Attempt(m.id, fate, db).log)
  {
    OneMoreBacked(ms, db.log, Ran(m.id, fate != BodyThrows));
    TwoMoreBacked(ms, db.log, Ran(m.id, true), Recorded(m.id));
  }

  lemma {:induction false} RunAllIsBacked(ms: seq<Migration>, todo: seq<Migration>, fate: string -> Fate, db: Db)
    requires AllBacked(ms, db.log) && forall m :: m in todo ==> m in ms
    ensures AllBacked(ms, RunAll(todo, fate, db).log)
    decreases |todo|
  {
    if todo != [] {
      AttemptIsBacked(ms, todo[0], fate(todo[0].id), db);
      if fate(todo[0].id) == Fine {
        RunAllIsBacked(ms, todo[1..], fate, Attempt(todo[0].id, Fine, db));
      }
    }
  }

  /** A migration can be undone just if it is a known one that has a down; where ids repeat, the first of them decides. */
  lemma {:induction false} UndoableIs(ms: seq<Migration>, id: string)
    ensures CanUndo(ms, id) ==> exists m :: m in ms && m.id == id && m.reversible
    ensures DistinctIds(ms) && (exists m :: m in ms && m.id == id && m.reversible) ==> CanUndo(ms, id)
  {
    if ms != [] {
      assert ms == [ms[0]] + ms[1..];
      UndoableIs(ms[1..], id);
    }
  }

  lemma DownIsBacked(ms: seq<Migration>, fate: string -> Fate, db: Db)
    requires AllBacked(ms, db.log)
    ensures AllBacked(ms, AfterDown(ms, fate, db).log)
  {
    if db.recorded != {} && CanUndo(ms, Greatest(db.recorded)) {
      var id := Greatest(db.recorded);
      UndoableIs(ms, id);
      OneMoreBacked(ms, db.log, Undid(id, fate(id) == WriteThrows));
      TwoMoreBacked(ms, db.log, Undid(id, true), Forgotten(id));
    }
  }

  /** Over any run, whatever throws, whatever is recorded as applied was run to its end, and whatever is forgotten was undone. */
  lemma {:induction false} RecordsAreBacked(ms: seq<Migration>, atMost: Order, calls: seq<Call>, recorded: set<string>)
    ensures AllBacked(ms, AfterAll(ms, atMost, calls, Db(recorded, [])).log)
  {
    if calls != [] {
      var before := AfterAll(ms, atMost, calls[..|calls| - 1], Db(recorded, []));
      RecordsAreBacked(ms, atMost, calls[..|calls| - 1], recorded);
      match calls[|calls| - 1]
      case Up(fate) =>
        SameMigrations(ms, atMost);
        PendingIs(Sort(ms, atMost), before.recorded);
        RunAllIsBacked(ms, Pending(Sort(ms, atMost), before.recorded), fate, before);
      case Down(fate) => DownIsBacked(ms, fate, before);
    }
  }

  lemma SameMigrations(ms: seq<Migration>, atMost: Order)
    ensures forall m :: m in Sort(ms, atMost) <==> m in ms
  {
    SortKeeps(ms, atMost);
    assert forall m :: m in Sort(ms, atMost) <==> m in multiset(Sort(ms, atMost));
  }

  // ---------------------------------------------------------------------------
  // What up and down leave
  // ---------------------------------------------------------------------------

  /** Up records the pending ones before the first that fails, and leaves the others pending in their order. */
  lemma UpRecords(sorted: seq<Migration>, fate: string -> Fate, db: Db)
    requires DistinctIds(sorted)
    ensures var todo := Pending(sorted, db.recorded);
            && AfterUp(sorted, fate, db).recorded == db.recorded + IdsOf(todo[..Done(todo, fate)])
            && Pending(sorted, AfterUp(sorted, fate, db).recorded) == todo[Done(todo, fate)..]
  {
    var todo := Pending(sorted, db.recorded);
    var n := Done(todo, fate);
    PendingIs(sorted, db.recorded);
    RunAllRecords(todo, fate, db);
    PendingAfter(sorted, db.recorded, IdsOf(todo[..n]));
    PendingOfAll(todo, n);
  }

  /** The ids some entries record, in order. */
  function RecordedIn(log: seq<Entry>): seq<string> {
    if log == [] then []
    else RecordedIn(log[..|log| - 1]) + if log[|log| - 1].Recorded? then [log[|log| - 1].id] else []
  }

  lemma AttemptLogs(id: string, fate: Fate, db: Db)
    ensures db.log <= Attempt(id, fate, db).log
    ensures RecordedIn(Attempt(id, fate, db).log) == RecordedIn(db.log) + if fate == Fine then [id] else []
  {
    var log := Attempt(id, fate, db).log;
    if fate == Fine {
      assert log[..|log| - 1] == db.log + [Ran(id, true)];
      assert (db.log + [Ran(id, true)])[..|db.log|] == db.log;
    } else {
      assert log[..|log| - 1] == db.log;
    }
  }

  /** The ids up answers with are just those it recorded, in the order it did. */
  lemma {:induction false} UpAnswersWhatItRecorded(todo: seq<Migration>, fate: string -> Fate, db: Db)
    ensures db.log <= RunAll(todo, fate, db).log
    ensures RecordedIn(RunAll(todo, fate, db).log) == RecordedIn(db.log) + Names(todo)[..Done(todo, fate)]
    decreases |todo|
  {
    if todo != [] {
      AttemptLogs(todo[0].id, fate(todo[0].id), db);
      if fate(todo[0].id) == Fine {
        UpAnswersWhatItRecorded(todo[1..], fate, Attempt(todo[0].id, Fine, db));
        assert Names(todo)[..Done(todo, fate)] == [todo[0].id] + Names(todo[1..])[..Done(todo[1..], fate)];
      }
    }
  }

  lemma PendingOfAll(sorted: seq<Migration>, n: nat)
    requires DistinctIds(sorted) && n <= |sorted|
    ensures Pending(sorted, IdsOf(sorted[..n])) == sorted[n..]
  {
    PendingOfPrefix(sorted, |sorted|, n);
    assert sorted[..|sorted|] == sorted && sorted[n..|sorted|] == sorted[n..];
  }

  lemma {:induction false} RunAllRecords(todo: seq<Migration>, fate: string -> Fate, db: Db)
    ensures RunAll(todo, fate, db).recorded == db.recorded + IdsOf(todo[..Done(todo, fate)])
    decreases |todo|
  {
    if todo != [] && fate(todo[0].id) == Fine {
      RunAllRecords(todo[1..], fate, Attempt(todo[0].id, Fine, db));
      assert todo[..Done(todo, fate)] == [todo[0]] + todo[1..][..Done(todo[1..], fate)];
    }
  }

  /** Recording more leaves pending what was pending and is not recorded now. */
  lemma {:induction false} PendingAfter(sorted: seq<Migration>, recorded: set<string>, more: set<string>)
    ensures Pending(sorted, recorded + more) == Pending(Pending(sorted, recorded), more)
  {
    if sorted != [] {
      var init, last := sorted[..|sorted| - 1], sorted[|sorted| - 1];
      PendingAfter(init, recorded, more);
      var before := Pending(init, recorded);
      if last.id in recorded {
        assert Pending(sorted, recorded) == before;
      } else {
        assert Pending(sorted, recorded) == before + [last] && (before + [last])[..|before|] == before;
      }
    }
  }

  /** With the first `n` recorded, the others are pending. */
  lemma {:induction false} PendingOfPrefix(sorted: seq<Migration>, k: nat, n: nat)
    requires DistinctIds(sorted) && k <= |sorted| && n <= |sorted|
    ensures Pending(sorted[..k], IdsOf(sorted[..n])) == if k <= n then [] else sorted[n..k]
    decreases k
  {
    if k > 0 {
      assert sorted[..k][..k - 1] == sorted[..k - 1];
      PendingOfPrefix(sorted, k - 1, n);
      if k <= n {
        assert sorted[k - 1] in sorted[..n];
      } else {
        assert sorted[k - 1].id !in IdsOf(sorted[..n]);
      }
    }
  }

  ghost predicate IsPrefix(recorded: set<string>, sorted: seq<Migration>) {
    exists n :: 0 <= n <= |sorted| && recorded == IdsOf(sorted[..n])
  }

  lemma UpTakes(sorted: seq<Migration>, fate: string -> Fate, db: Db, n: nat)
    requires DistinctIds(sorted) && n <= |sorted| && db.recorded == IdsOf(sorted[..n])
    ensures AfterUp(sorted, fate, db).recorded == IdsOf(sorted[..n]) + IdsOf(sorted[n..][..Done(sorted[n..], fate)])
  {
    UpRunsTheRest(sorted, fate, db, n);
    RunAllRecords(sorted[n..], fate, db);
  }

  lemma UpKeepsPrefix(sorted: seq<Migration>, fate: string -> Fate, db: Db, n: nat)
    requires DistinctIds(sorted) && n <= |sorted| && db.recorded == IdsOf(sorted[..n])
    ensures AfterUp(sorted, fate, db).recorded == IdsOf(sorted[..n + Done(sorted[n..], fate)])
  {
    UpTakes(sorted, fate, db, n);
    TakenTogether(sorted, n, Done(sorted[n..], fate));
  }

  lemma UpRunsTheRest(sorted: seq<Migration>, fate: string -> Fate, db: Db, n: nat)
    requires DistinctIds(sorted) && n <= |sorted| && db.recorded == IdsOf(sorted[..n])
    ensures AfterUp(sorted, fate, db) == RunAll(sorted[n..], fate, db)
  {
    PendingOfAll(sorted, n);
  }

  lemma TakenTogether(sorted: seq<Migration>, n: nat, more: nat)
    requires n + more <= |sorted|
    ensures IdsOf(sorted[..n + more]) == IdsOf(sorted[..n]) + IdsOf(sorted[n..][..more])
  {
  }

  /** Down removes the greatest recorded id and nothing else, or nothing. */
  lemma DownRemovesGreatest(ms: seq<Migration>, fate: string -> Fate, db: Db)
    ensures AfterDown(ms, fate, db).recorded == db.recorded ||
            (db.recorded != {} && AfterDown(ms, fate, db).recorded == db.recorded - {Greatest(db.recorded)})
    ensures AfterDown(ms, fate, db).recorded != db.recorded <==>
              db.recorded != {} && CanUndo(ms, Greatest(db.recorded)) && fate(Greatest(db.recorded)) == Fine
  {
  }

  lemma {:induction false} PrefixSize(sorted: seq<Migration>, n: nat)
    requires DistinctIds(sorted) && n <= |sorted|
    ensures |IdsOf(sorted[..n])| == n
    decreases n
  {
    if n > 0 {
      PrefixSize(sorted, n - 1);
      LastOfTaken(sorted, n);
    }
  }

  lemma LastOfTaken(sorted: seq<Migration>, n: nat)
    requires DistinctIds(sorted) && 0 < n <= |sorted|
    ensures IdsOf(sorted[..n]) == IdsOf(sorted[..n - 1]) + {sorted[n - 1].id}
    ensures sorted[n - 1].id !in IdsOf(sorted[..n - 1])
  {
  }

  /** Taking one id from a prefix leaves a prefix just if it is the last. */
  lemma LastOfPrefix(sorted: seq<Migration>, n: nat, id: string)
    requires DistinctIds(sorted) && 0 < n <= |sorted| && id in IdsOf(sorted[..n])
    ensures IsPrefix(IdsOf(sorted[..n]) - {id}, sorted) <==> id == sorted[n - 1].id
  {
    var rest := IdsOf(sorted[..n]) - {id};
    LastOfTaken(sorted, n);
    if id == sorted[n - 1].id {
      assert rest == IdsOf(sorted[..n - 1]);
    }
    if IsPrefix(rest, sorted) {
      var m :| 0 <= m <= |sorted| && rest == IdsOf(sorted[..m]);
      PrefixSize(sorted, n);
      PrefixSize(sorted, m);
      assert m == n - 1;
    }
  }

  /** Down keeps a prefix just if what it removes is the last of the sorted list recorded. */
  lemma DownKeepsPrefix(ms: seq<Migration>, sorted: seq<Migration>, fate: string -> Fate, db: Db, n: nat)
    requires DistinctIds(sorted) && n <= |sorted| && db.recorded == IdsOf(sorted[..n])
    ensures IsPrefix(AfterDown(ms, fate, db).recorded, sorted) <==>
              AfterDown(ms, fate, db).recorded == db.recorded || Greatest(db.recorded) == sorted[n - 1].id
  {
    if db.recorded != {} {
      assert n > 0;
      LastOfPrefix(sorted, n, Greatest(db.recorded));
    }
  }

  // ---------------------------------------------------------------------------
  // When the recorded ids stay a prefix of the sorted list
  // ---------------------------------------------------------------------------

  ghost predicate AllReversible(ms: seq<Migration>) {
    forall m :: m in ms ==> CanUndo(ms, m.id)
  }

  /** Of the first `n` recorded, the one a down would take is the last, or cannot be undone. */
  ghost predicate LastOrStuck(ms: seq<Migration>, sorted: seq<Migration>, n: nat)
    requires 0 < n <= |sorted|
  {
    assert sorted[0].id in IdsOf(sorted[..n]);
    var id := Greatest(IdsOf(sorted[..n]));
    id == sorted[n - 1].id || !CanUndo(ms, id)
  }

  ghost predicate UndoesLast(ms: seq<Migration>, sorted: seq<Migration>) {
    forall n :: 0 < n <= |sorted| ==> LastOrStuck(ms, sorted, n)
  }

  lemma CallKeepsPrefix(ms: seq<Migration>, atMost: Order, call: Call, db: Db)
    requires DistinctIds(ms) && UndoesLast(ms, Sort(ms, atMost))
    requires IsPrefix(db.recorded, Sort(ms, atMost))
    ensures IsPrefix(After(ms, atMost, call, db).recorded, Sort(ms, atMost))
  {
    var sorted := Sort(ms, atMost);
    SortKeepsIds(ms, atMost);
    var n :| 0 <= n <= |sorted| && db.recorded == IdsOf(sorted[..n]);
    match call
    case Up(fate) => UpKeepsPrefix(sorted, fate, db, n);
    case Down(fate) =>
      DownKeepsPrefix(ms, sorted, fate, db, n);
      DownRemovesGreatest(ms, fate, db);
      assert n > 0 ==> LastOrStuck(ms, sorted, n);
  }

  lemma LastIsGreatest(sorted: seq<Migration>, n: nat)
    requires DistinctIds(sorted) && 0 < n <= |sorted| && InOrder(sorted, AtMost)
    ensures IdsOf(sorted[..n]) != {} && Greatest(IdsOf(sorted[..n])) == sorted[n - 1].id
  {
    var ids, last := IdsOf(sorted[..n]), sorted[n - 1].id;
    LastOfTaken(sorted, n);
    AtMostIsTotal(last, last);
    forall id | id in ids ensures AtMost(id, last) {
      var m :| m in sorted[..n] && m.id == id;
    }
    GreatestIsOne(last, Greatest(ids), ids);
  }

  /** Then every run keeps a prefix. */
  lemma {:induction false} RunsKeepPrefix(ms: seq<Migration>, atMost: Order, calls: seq<Call>, db: Db)
    requires DistinctIds(ms) && UndoesLast(ms, Sort(ms, atMost))
    requires IsPrefix(db.recorded, Sort(ms, atMost))
    ensures IsPrefix(AfterAll(ms, atMost, calls, db).recorded, Sort(ms, atMost))
  {
    if calls != [] {
      RunsKeepPrefix(ms, atMost, calls[..|calls| - 1], db);
      CallKeepsPrefix(ms, atMost, calls[|calls| - 1], AfterAll(ms, atMost, calls[..|calls| - 1], db));
    }
  }

  /** Every migration goes through but the one at `stop`, if there is one there. */
  function FailsAt(sorted: seq<Migration>, stop: nat): string -> Fate {
    id => if stop < |sorted| && id == sorted[stop].id then BodyThrows else Fine
  }

  function GoesThrough(): string -> Fate {
    id => Fine
  }

  lemma {:induction false} DoneBefore(sorted: seq<Migration>, stop: nat, from: nat)
    requires DistinctIds(sorted) && from <= stop <= |sorted|
    ensures Done(sorted[from..], FailsAt(sorted, stop)) == stop - from
    decreases stop - from
  {
  }

  lemma UpToTheFailure(sorted: seq<Migration>, n: nat)
    requires DistinctIds(sorted) && n <= |sorted|
    ensures AfterUp(sorted, FailsAt(sorted, n), Db({}, [])).recorded == IdsOf(sorted[..n])
  {
    assert IdsOf(sorted[..0]) == {};
    UpKeepsPrefix(sorted, FailsAt(sorted, n), Db({}, []), 0);
    DoneBefore(sorted, n, 0);
  }

  /** From nothing recorded, an up that fails in the right place records any prefix there is. */
  lemma EveryPrefixIsReached(ms: seq<Migration>, atMost: Order, n: nat)
    requires DistinctIds(ms) && n <= |ms|
    ensures var sorted := Sort(ms, atMost);
            |sorted| == |ms| && After(ms, atMost, Up(FailsAt(sorted, n)), Db({}, [])).recorded == IdsOf(sorted[..n])
  {
    var sorted := Sort(ms, atMost);
    SortKeepsIds(ms, atMost);
    UpToTheFailure(sorted, n);
  }

  function Break(sorted: seq<Migration>, n: nat): seq<Call> {
    [Up(FailsAt(sorted, n)), Down(GoesThrough())]
  }

  lemma TwoCalls(ms: seq<Migration>, atMost: Order, a: Call, b: Call, db: Db)
    ensures AfterAll(ms, atMost, [a, b], db) == After(ms, atMost, b, After(ms, atMost, a, db))
  {
    assert [a, b][..1] == [a] && [a][..0] == [];
    assert AfterAll(ms, atMost, [a], db) == After(ms, atMost, a, AfterAll(ms, atMost, [], db));
  }

  /** Otherwise an up and a down leave a hole. */
  lemma BreakLeavesAHole(ms: seq<Migration>, atMost: Order, n: nat)
    requires DistinctIds(ms) && 0 < n <= |Sort(ms, atMost)| && !LastOrStuck(ms, Sort(ms, atMost), n)
    ensures var sorted := Sort(ms, atMost);
            !IsPrefix(AfterAll(ms, atMost, Break(sorted, n), Db({}, [])).recorded, sorted)
  {
    var sorted := Sort(ms, atMost);
    SortKeepsIds(ms, atMost);
    EveryPrefixIsReached(ms, atMost, n);
    TwoCalls(ms, atMost, Up(FailsAt(sorted, n)), Down(GoesThrough()), Db({}, []));
    var db := After(ms, atMost, Up(FailsAt(sorted, n)), Db({}, []));
    DownKeepsPrefix(ms, sorted, GoesThrough(), db, n);
    DownRemovesGreatest(ms, GoesThrough(), db);
  }

  /** Each run from an empty database keeps the recorded ids a prefix of the sorted list, just if down only ever undoes the last. */
  lemma PrefixIsKept(ms: seq<Migration>, atMost: Order)
    requires DistinctIds(ms)
    ensures (forall calls :: IsPrefix(AfterAll(ms, atMost, calls, Db({}, [])).recorded, Sort(ms, atMost)))
            <==> UndoesLast(ms, Sort(ms, atMost))
  {
    var sorted := Sort(ms, atMost);
    if UndoesLast(ms, sorted) {
      forall calls ensures IsPrefix(AfterAll(ms, atMost, calls, Db({}, [])).recorded, sorted) {
        assert IdsOf(sorted[..0]) == {};
        RunsKeepPrefix(ms, atMost, calls, Db({}, []));
      }
    } else {
      var n :| 0 < n <= |sorted| && !LastOrStuck(ms, sorted, n);
      BreakLeavesAHole(ms, atMost, n);
    }
  }

  lemma KnownIsReversible(ms: seq<Migration>, sorted: seq<Migration>, n: nat, id: string)
    requires AllReversible(ms) && IdsOf(sorted) == IdsOf(ms) && n <= |sorted| && id in IdsOf(sorted[..n])
    ensures CanUndo(ms, id)
  {
    var m :| m in sorted[..n] && m.id == id;
    assert m in sorted && id in IdsOf(sorted);
    var k :| k in ms && k.id == id;
  }

  /** Where the locale's order of the ids is the database's, only the last is undone; with every migration reversible, just there. */
  lemma WhenOrdersAgree(ms: seq<Migration>, sorted: seq<Migration>)
    requires DistinctIds(sorted) && IdsOf(sorted) == IdsOf(ms)
    ensures InOrder(sorted, AtMost) ==> UndoesLast(ms, sorted)
    ensures AllReversible(ms) && UndoesLast(ms, sorted) ==> InOrder(sorted, AtMost)
  {
    if InOrder(sorted, AtMost) {
      forall n | 0 < n <= |sorted| ensures LastOrStuck(ms, sorted, n) {
        LastIsGreatest(sorted, n);
      }
    }
    if AllReversible(ms) && UndoesLast(ms, sorted) {
      forall i, j | 0 <= i < j < |sorted| ensures AtMost(sorted[i].id, sorted[j].id) {
        assert LastOrStuck(ms, sorted, j + 1) && sorted[i] in sorted[..j + 1];
        KnownIsReversible(ms, sorted, j + 1, Greatest(IdsOf(sorted[..j + 1])));
      }
    }
  }

  /** With every migration reversible, each such run keeps a prefix just if the two orders agree on the ids. */
  lemma PrefixIsKeptIfReversible(ms: seq<Migration>, atMost: Order)
    requires DistinctIds(ms) && AllReversible(ms)
    ensures (forall calls :: IsPrefix(AfterAll(ms, atMost, calls, Db({}, [])).recorded, Sort(ms, atMost)))
            <==> InOrder(Sort(ms, atMost), AtMost)
  {
    SortKeepsIds(ms, atMost);
    PrefixIsKept(ms, atMost);
    WhenOrdersAgree(ms, Sort(ms, atMost));
  }

  lemma SortOfTwo(a: Migration, b: Migration, atMost: Order)
    requires atMost(a.id, b.id)
    ensures Sort([a, b], atMost) == [a, b]
  {
    assert [a, b][..1] == [a] && [a][..0] == [];
    assert Sort([a], atMost) == [a];
  }

  const A := Migration("a", true)
  const B := Migration("B", true)

  lemma DownUndoesA(db: Db)
    requires db.recorded == {"a", "B"}
    ensures AfterDown([A, B], GoesThrough(), db).recorded == {"B"}
  {
  }

  /** Two ids that a locale and the database order differently: after an up of both, a down undoes the first applied. */
  lemma FirstIsUndone(atMost: Order)
    requires TotalOrder(atMost) && atMost("a", "B")
    ensures AfterAll([A, B], atMost, Break([A, B], 2), Db({}, [])).recorded == {"B"}
  {
    SortOfTwo(A, B, atMost);
    EveryPrefixIsReached([A, B], atMost, 2);
    TwoCalls([A, B], atMost, Up(FailsAt([A, B], 2)), Down(GoesThrough()), Db({}, []));
    assert [A, B][..2] == [A, B] && IdsOf([A, B]) == {"a", "B"};
    DownUndoesA(After([A, B], atMost, Up(FailsAt([A, B], 2)), Db({}, [])));
  }
}
