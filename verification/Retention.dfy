/**
 Retention by weekly cohort: of the people who joined in each of the weeks shown, how many came
 back on a day or in a week after joining; and, coded apart from it, the list of the people
 behind each figure.

 Days are whole numbers since the epoch; a week begins on Monday. The database's grouping of
 events by person and day is an input here, with what it promises.
 */
module Retention {
  import opened Wrappers

  type Id = nat

  datatype User = User(id: Id, createdAt: int)

  datatype Event = Event(user: Id, ts: int)

  /** One row of the grouping: a person, a day they were active, and the last time that day. */
  datatype Row = Row(user: Id, day: int, last: int)

  function DayOf(ms: int): int {
    ms / 86_400_000
  }

  /** The Monday of the week a day is in. 1 January 1970 was a Thursday. */
  function Monday(day: int): int {
    day - (day + 3) % 7
  }

  function WeekOf(ms: int): int {
    Monday(DayOf(ms))
  }

  /** The first Monday of the weeks shown. */
  function FirstWeek(now: int, weeks: int): int {
    WeekOf(now) - (weeks - 1) * 7
  }

  function StartOf(day: int): int {
    day * 86_400_000
  }

  /** a / b in tenths of a percent, rounded half up, or nothing to divide by. */
  function Pct(a: nat, b: nat): Option<int> {
    if b > 0 then Some((2_000 * a + b) / (2 * b)) else None
  }

  function Filter<T>(xs: seq<T>, p: T -> bool): seq<T> {
    if xs == [] then []
    else Filter(xs[..|xs| - 1], p) + if p(xs[|xs| - 1]) then [xs[|xs| - 1]] else []
  }

  datatype BackCount = BackCount(back: nat, eligible: nat)

  /** `weeks` and `weekCounts` hold week 1, 2, … after joining; None for a week not over yet. */
  datatype Cohort = Cohort(week: int, size: nat, weeks: seq<Option<Option<int>>>, weekCounts: seq<Option<nat>>,
                           d1: BackCount, d7: BackCount, d30: BackCount)

  datatype Report = Report(cohorts: seq<Cohort>, joined: nat, d1: BackCount, d7: BackCount, d30: BackCount)

  /** Which figure to list the people behind. */
  datatype Metric = InCohort(k: nat) | OnDay(n: int) | Unknown

  datatype Person = Person(user: Id, at: int)

  function Joined(users: seq<User>): seq<Person> {
    seq(|users|, i requires 0 <= i < |users| => Person(users[i].id, users[i].createdAt))
  }

  // ---------------------------------------------------------------------------
  // What the figures mean
  // ---------------------------------------------------------------------------

  /** The person was active on that day, going by events since `since`. */
  ghost predicate ActiveOn(events: seq<Event>, since: int, user: Id, day: int) {
    exists e :: e in events && e.user == user && since <= e.ts && DayOf(e.ts) == day
  }

  /** The person was active on one of the days after joining that `lo` to `hi` (not included) name. */
  ghost predicate BackWithin(events: seq<Event>, since: int, u: User, lo: int, hi: int) {
    exists day :: lo <= day - DayOf(u.createdAt) < hi && ActiveOn(events, since, u.id, day)
  }

  predicate Eligible(u: User, n: int, today: int) {
    DayOf(u.createdAt) + n < today
  }

  predicate InWeek(u: User, week: int) {
    WeekOf(u.createdAt) == week
  }

  /** What the database promises of its grouping by person and day. */
  ghost predicate Groups(rows: seq<Row>, events: seq<Event>, users: seq<User>, since: int) {
    && (forall r :: r in rows ==> IsLast(events, since, r.user, r.day, r.last))
    && (forall i, day :: 0 <= i < |users| && ActiveOn(events, since, users[i].id, day) ==>
          exists r :: r in rows && r.user == users[i].id && r.day == day)
  }

  /** The last of a person's events of a day. */
  ghost predicate IsLast(events: seq<Event>, since: int, user: Id, day: int, last: int) {
    && (exists e :: e in events && e == Event(user, last) && since <= last && DayOf(last) == day)
    && (forall e :: e in events && e.user == user && since <= e.ts && DayOf(e.ts) == day ==> e.ts <= last)
  }

  /** Who of some people came back on day `n`, of those for whom that day is over. */
  ghost function Back(events: seq<Event>, since: int, users: seq<User>, n: int, today: int): seq<User> {
    Filter(users, u => Eligible(u, n, today) && BackWithin(events, since, u, n, n + 1))
  }

  ghost function BackInWeek(events: seq<Event>, since: int, users: seq<User>, k: int): seq<User> {
    Filter(users, u => BackWithin(events, since, u, 7 * k, 7 * (k + 1)))
  }

  ghost function CountOf(events: seq<Event>, since: int, users: seq<User>, n: int, today: int): BackCount {
    BackCount(|Back(events, since, users, n, today)|, |Filter(users, u => Eligible(u, n, today))|)
  }

  function Members(users: seq<User>, week: int): seq<User> {
    Filter(users, u => InWeek(u, week))
  }

  /** Week `k` after joining is over for the whole of a cohort. */
  predicate IsOver(week: int, k: int, now: int) {
    StartOf(week + (k + 1) * 7) <= now
  }

  /** How many of a cohort came back in week `k`, once that week is over. */
  ghost function WeekCount(events: seq<Event>, since: int, users: seq<User>, week: int, k: int, now: int): Option<nat> {
    if IsOver(week, k, now) then Some(|BackInWeek(events, since, Members(users, week), k)|) else None
  }

  /** Row by row, a cohort is what the definitions above say. */
  ghost predicate IsCohort(c: Cohort, events: seq<Event>, since: int, users: seq<User>, week: int, columns: int, now: int) {
    var members := Members(users, week);
    && c.week == week && c.size == |members|
    && c.d1 == CountOf(events, since, members, 1, DayOf(now))
    && c.d7 == CountOf(events, since, members, 7, DayOf(now))
    && c.d30 == CountOf(events, since, members, 30, DayOf(now))
    && |c.weeks| == |c.weekCounts| == (if columns < 0 then 0 else columns)
    && (forall i :: 0 <= i < |c.weekCounts| ==>
          && c.weekCounts[i] == WeekCount(events, since, users, week, i + 1, now)
          && c.weeks[i] == if c.weekCounts[i].Some? then Some(Pct(c.weekCounts[i].value, c.size)) else None)
  }

  ghost predicate IsReport(report: Report, events: seq<Event>, users: seq<User>, now: int, weeks: int) {
    var first, today := FirstWeek(now, weeks), DayOf(now);
    && |report.cohorts| == (if weeks < 0 then 0 else weeks) && report.joined == |users|
    && (forall w :: 0 <= w < |report.cohorts| ==>
          IsCohort(report.cohorts[w], events, StartOf(first), users, first + w * 7, weeks - w - 1, now))
    && report.d1 == CountOf(events, StartOf(first), users, 1, today)
    && report.d7 == CountOf(events, StartOf(first), users, 7, today)
    && report.d30 == CountOf(events, StartOf(first), users, 30, today)
  }

  /** The last time the person was active between `lo` and `hi` days after joining. */
  ghost predicate IsLatest(events: seq<Event>, since: int, u: User, lo: int, hi: int, ts: int) {
    && (exists e :: e in events && e == Event(u.id, ts) && Counts(e, since, u, lo, hi))
    && (forall e :: e in events && Counts(e, since, u, lo, hi) ==> e.ts <= ts)
  }

  predicate Counts(e: Event, since: int, u: User, lo: int, hi: int) {
    e.user == u.id && since <= e.ts && lo <= DayOf(e.ts) - DayOf(u.createdAt) < hi
  }

  /** Everyone in `who`, in order, each with the last time they were active between those days. */
  ghost predicate Lists(people: seq<Person>, who: seq<User>, events: seq<Event>, since: int, lo: int, hi: int) {
    && |people| == |who|
    && (forall i :: 0 <= i < |who| ==>
          people[i].user == who[i].id && IsLatest(events, since, who[i], lo, hi, people[i].at))
  }

  /** What the list behind a figure holds; None for a figure that has no list. */
  ghost predicate IsPeople(people: Option<seq<Person>>, metric: Metric, week: Option<int>, events: seq<Event>, users: seq<User>, now: int, weeks: int) {
    var since := StartOf(FirstWeek(now, weeks));
    var some := if week.Some? then Members(users, week.value) else users;
    match metric
    case InCohort(k) =>
      if k == 0 then people == Some(Joined(some))
      else people.Some? && Lists(people.value, BackInWeek(events, since, some, k), events, since, 7 * k, 7 * (k + 1))
    case OnDay(n) =>
      if n in {1, 7, 30} then
        people.Some? && Lists(people.value, Back(events, since, some, n, DayOf(now)), events, since, n, n + 1)
      else people.None?
    case Unknown => people.None?
  }

  /** A week runs from Monday to Sunday; 5 January 1970, day 4, was a Monday. */
  lemma WeeksBeginOnMonday(day: int)
    ensures Monday(day) <= day < Monday(day) + 7 && (Monday(day) - 4) % 7 == 0
  {
  }

  /** A person counts for day `n` once that day, the `n`-th after the one they joined on, is over. */
  lemma EligibleOnceOver(u: User, n: int, now: int)
    ensures Eligible(u, n, DayOf(now)) <==> StartOf(DayOf(u.createdAt) + n + 1) <= now
  {
  }

  /** Back in week `k`: some event so many whole weeks after the day of joining. Each event is in one week. */
  lemma BackInWeekMeans(events: seq<Event>, since: int, users: seq<User>, k: int, u: User)
    ensures u in BackInWeek(events, since, users, k) <==>
              u in users && exists e :: e in events && e.user == u.id && since <= e.ts && (DayOf(e.ts) - DayOf(u.createdAt)) / 7 == k
  {
    FilterWithin(users, u => BackWithin(events, since, u, 7 * k, 7 * (k + 1)));
    forall e | e in events && e.user == u.id && since <= e.ts
      ensures (DayOf(e.ts) - DayOf(u.createdAt)) / 7 == k <==> 7 * k <= DayOf(e.ts) - DayOf(u.createdAt) < 7 * (k + 1)
      ensures ActiveOn(events, since, u.id, DayOf(e.ts))
    {
    }
  }

  /** Back on day `n`: that day is over, and some event falls on it. */
  lemma BackOnDayMeans(events: seq<Event>, since: int, users: seq<User>, n: int, now: int, u: User)
    ensures u in Back(events, since, users, n, DayOf(now)) <==>
              && u in users && StartOf(DayOf(u.createdAt) + n + 1) <= now
              && exists e :: e in events && e.user == u.id && since <= e.ts && DayOf(e.ts) == DayOf(u.createdAt) + n
  {
    FilterWithin(users, u => Eligible(u, n, DayOf(now)) && BackWithin(events, since, u, n, n + 1));
    EligibleOnceOver(u, n, now);
    forall e | e in events && e.user == u.id && since <= e.ts ensures ActiveOn(events, since, u.id, DayOf(e.ts)) {
    }
  }

  /** A rate is the nearest tenth of a percent, the higher of two as near. */
  lemma PctIsNearest(a: nat, b: nat)
    ensures Pct(a, b).Some? <==> b > 0
    ensures b > 0 ==> 0 <= 2 * (1_000 * a - Pct(a, b).value * b) + b < 2 * b
  {
    if b > 0 {
      var p := Pct(a, b).value;
      assert 2 * (1_000 * a - p * b) == 2_000 * a - p * (2 * b);
    }
  }

  /** The list of a cohort is its members, each with the time they joined, which lies in its week. */
  lemma JoinedInTheWeek(users: seq<User>, week: int, i: nat)
    requires i < |Joined(Members(users, week))|
    ensures var p := Joined(Members(users, week))[i]; WeekOf(p.at) == week && User(p.user, p.at) in users
  {
    FilterWithin(users, u => InWeek(u, week));
    assert Members(users, week)[i] in Members(users, week);
  }

  // ---------------------------------------------------------------------------
  // The service's own computations
  // ---------------------------------------------------------------------------

  function DaysOf(active: map<Id, set<int>>, user: Id): set<int> {
    if user in active then active[user] else {}
  }

  /** The days after joining on which a person was active. */
  function Offsets(active: map<Id, set<int>>, u: User): set<int> {
    set d | d in DaysOf(active, u.id) :: d - DayOf(u.createdAt)
  }

  ghost predicate InRows(rows: seq<Row>, user: Id, day: int) {
    exists r :: r in rows && r.user == user && r.day == day
  }

  ghost predicate Mirrors(active: map<Id, set<int>>, rows: seq<Row>) {
    forall u, d :: d in DaysOf(active, u) <==> InRows(rows, u, d)
  }

  lemma OneMoreRow(rows: seq<Row>, i: nat, user: Id, day: int)
    requires i < |rows|
    ensures InRows(rows[..i + 1], user, day) <==> InRows(rows[..i], user, day) || (rows[i].user == user && rows[i].day == day)
  {
  }

  /** Each person's active days, row by row. */
  method ActiveDays(rows: seq<Row>) returns (active: map<Id, set<int>>)
    ensures Mirrors(active, rows)
  {
    active := map[];
    for i := 0 to |rows|
      invariant Mirrors(active, rows[..i])
    {
      ghost var before := active;
      var key := rows[i].user;
      if key !in active {
        active := active[key := {}];
      }
      active := active[key := active[key] + {rows[i].day}];
      forall u, d ensures d in DaysOf(active, u) <==> InRows(rows[..i + 1], u, d) {
        OneMoreRow(rows, i, u, d);
        assert d in DaysOf(before, u) <==> InRows(rows[..i], u, d);
      }
    }
    assert rows[..|rows|] == rows;
  }

  function RateOf(active: map<Id, set<int>>, members: seq<User>, n: int, today: int): BackCount {
    var eligible := Filter(members, u => Eligible(u, n, today));
    BackCount(|Filter(eligible, u => n in Offsets(active, u))|, |eligible|)
  }

  predicate SomeOffset(active: map<Id, set<int>>, u: User, lo: int, hi: int) {
    exists o :: o in Offsets(active, u) && lo <= o < hi
  }

  /** The retention page: cohorts by week, and everyone together. `users` are those who joined in the weeks shown. */
  method Retention(users: seq<User>, events: seq<Event>, rows: seq<Row>, now: int, weeks: int) returns (report: Report)
    requires Groups(rows, events, users, StartOf(FirstWeek(now, weeks)))
    ensures IsReport(report, events, users, now, weeks)
  {
    var active := ActiveDays(rows);
    ghost var since := StartOf(FirstWeek(now, weeks));
    var cohorts := Cohorts(users, events, rows, active, FirstWeek(now, weeks), weeks, now, since);
    var today := DayOf(now);
    ThreeRatesAreCounts(users, users, events, rows, active, since, today);
    report := Report(cohorts, |users|, RateOf(active, users, 1, today), RateOf(active, users, 7, today), RateOf(active, users, 30, today));
  }

  method Cohorts(users: seq<User>, ghost events: seq<Event>, ghost rows: seq<Row>, active: map<Id, set<int>>, first: int, weeks: int, now: int, ghost since: int)
    returns (cohorts: seq<Cohort>)
    requires Groups(rows, events, users, since) && Mirrors(active, rows)
    ensures |cohorts| == if weeks < 0 then 0 else weeks
    ensures forall w :: 0 <= w < |cohorts| ==> IsCohort(cohorts[w], events, since, users, first + w * 7, weeks - w - 1, now)
  {
    cohorts := [];
    var w := 0;
    while w < weeks
      invariant 0 <= w && |cohorts| == w && (if 0 <= weeks then w <= weeks else w == 0)
      invariant forall v :: 0 <= v < w ==> IsCohort(cohorts[v], events, since, users, first + v * 7, weeks - v - 1, now)
    {
      var cohort := CohortOf(users, events, rows, active, first + w * 7, weeks - w - 1, now, since);
      cohorts := cohorts + [cohort];
      w := w + 1;
    }
  }

  method CohortOf(users: seq<User>, ghost events: seq<Event>, ghost rows: seq<Row>, active: map<Id, set<int>>, week: int, columns: int, now: int, ghost since: int)
    returns (c: Cohort)
    requires Groups(rows, events, users, since) && 0 <= columns
    requires Mirrors(active, rows)
    ensures IsCohort(c, events, since, users, week, columns, now)
  {
    var members, today := Members(users, week), DayOf(now);
    FilterWithin(users, u => InWeek(u, week));
    var weekRates: seq<Option<Option<int>>>, weekBack: seq<Option<nat>> := [], [];
    var k := 1;
    while k <= columns
      invariant 1 <= k <= columns + 1 && |weekRates| == |weekBack| == k - 1
      invariant forall i :: 0 <= i < k - 1 ==>
        && weekBack[i] == WeekCount(events, since, users, week, i + 1, now)
        && weekRates[i] == if weekBack[i].Some? then Some(Pct(weekBack[i].value, |members|)) else None
    {
      if !IsOver(week, k, now) {
        weekRates, weekBack := weekRates + [None], weekBack + [None];
      } else {
        var back := Filter(members, u => SomeOffset(active, u, 7 * k, 7 * (k + 1)));
        WeeksAreCounts(users, members, events, rows, active, since, k);
        weekRates, weekBack := weekRates + [Some(Pct(|back|, |members|))], weekBack + [Some(|back|)];
      }
      k := k + 1;
    }
    ThreeRatesAreCounts(users, members, events, rows, active, since, today);
    c := Cohort(week, |members|, weekRates, weekBack,
                RateOf(active, members, 1, today), RateOf(active, members, 7, today), RateOf(active, members, 30, today));
  }

  // --- The figures are what they mean

  lemma {:induction false} FilterWithin<T>(xs: seq<T>, p: T -> bool)
    ensures forall x :: x in Filter(xs, p) <==> x in xs && p(x)
  {
    if xs != [] {
      FilterWithin(xs[..|xs| - 1], p);
      assert xs == xs[..|xs| - 1] + [xs[|xs| - 1]];
    }
  }

  lemma {:induction false} FilterAlike<T>(xs: seq<T>, p: T -> bool, q: T -> bool)
    requires forall x :: x in xs ==> p(x) == q(x)
    ensures Filter(xs, p) == Filter(xs, q)
  {
    if xs != [] {
      FilterAlike(xs[..|xs| - 1], p, q);
    }
  }

  function Both<T>(p: T -> bool, q: T -> bool): T -> bool {
    x => p(x) && q(x)
  }

  lemma {:induction false} FilterTwice<T>(xs: seq<T>, p: T -> bool, q: T -> bool)
    ensures Filter(Filter(xs, p), q) == Filter(xs, Both(p, q))
  {
    if xs != [] {
      var init, last := xs[..|xs| - 1], xs[|xs| - 1];
      FilterTwice(init, p, q);
      if p(last) {
        assert Filter(xs, p)[..|Filter(xs, p)| - 1] == Filter(init, p);
      } else {
        assert Filter(xs, p) == Filter(init, p);
      }
    }
  }

  lemma ActiveIsActive(users: seq<User>, events: seq<Event>, rows: seq<Row>, active: map<Id, set<int>>, since: int, u: User, day: int)
    requires Groups(rows, events, users, since) && Mirrors(active, rows) && u in users
    ensures day in DaysOf(active, u.id) <==> ActiveOn(events, since, u.id, day)
  {
  }

  lemma BackIsSomeOffset(users: seq<User>, events: seq<Event>, rows: seq<Row>, active: map<Id, set<int>>, since: int, u: User, lo: int, hi: int)
    requires Groups(rows, events, users, since) && Mirrors(active, rows) && u in users
    ensures SomeOffset(active, u, lo, hi) <==> BackWithin(events, since, u, lo, hi)
  {
    if SomeOffset(active, u, lo, hi) {
      var o :| o in Offsets(active, u) && lo <= o < hi;
      ActiveIsActive(users, events, rows, active, since, u, DayOf(u.createdAt) + o);
    }
    if BackWithin(events, since, u, lo, hi) {
      var day :| lo <= day - DayOf(u.createdAt) < hi && ActiveOn(events, since, u.id, day);
      ActiveIsActive(users, events, rows, active, since, u, day);
      assert day - DayOf(u.createdAt) in Offsets(active, u);
    }
  }

  lemma RatesAreCounts(users: seq<User>, members: seq<User>, events: seq<Event>, rows: seq<Row>, active: map<Id, set<int>>, since: int, n: int, today: int)
    requires Groups(rows, events, users, since) && Mirrors(active, rows)
    requires forall u :: u in members ==> u in users
    ensures RateOf(active, members, n, today) == CountOf(events, since, members, n, today)
  {
    var p, q := u => Eligible(u, n, today), u => n in Offsets(active, u);
    FilterTwice(members, p, q);
    forall u | u in members
      ensures Both(p, q)(u) == (Eligible(u, n, today) && BackWithin(events, since, u, n, n + 1))
    {
      BackIsSomeOffset(users, events, rows, active, since, u, n, n + 1);
      assert SomeOffset(active, u, n, n + 1) <==> n in Offsets(active, u);
    }
    FilterAlike(members, Both(p, q), u => Eligible(u, n, today) && BackWithin(events, since, u, n, n + 1));
  }

  lemma ThreeRatesAreCounts(users: seq<User>, members: seq<User>, events: seq<Event>, rows: seq<Row>, active: map<Id, set<int>>, since: int, today: int)
    requires Groups(rows, events, users, since) && Mirrors(active, rows)
    requires forall u :: u in members ==> u in users
    ensures RateOf(active, members, 1, today) == CountOf(events, since, members, 1, today)
    ensures RateOf(active, members, 7, today) == CountOf(events, since, members, 7, today)
    ensures RateOf(active, members, 30, today) == CountOf(events, since, members, 30, today)
  {
    RatesAreCounts(users, members, events, rows, active, since, 1, today);
    RatesAreCounts(users, members, events, rows, active, since, 7, today);
    RatesAreCounts(users, members, events, rows, active, since, 30, today);
  }

  lemma WeeksAreCounts(users: seq<User>, members: seq<User>, events: seq<Event>, rows: seq<Row>, active: map<Id, set<int>>, since: int, k: int)
    requires Groups(rows, events, users, since) && Mirrors(active, rows)
    requires forall u :: u in members ==> u in users
    ensures Filter(members, u => SomeOffset(active, u, 7 * k, 7 * (k + 1))) == BackInWeek(events, since, members, k)
  {
    forall u | u in members
      ensures SomeOffset(active, u, 7 * k, 7 * (k + 1)) == BackWithin(events, since, u, 7 * k, 7 * (k + 1))
    {
      BackIsSomeOffset(users, events, rows, active, since, u, 7 * k, 7 * (k + 1));
    }
    FilterAlike(members, u => SomeOffset(active, u, 7 * k, 7 * (k + 1)), u => BackWithin(events, since, u, 7 * k, 7 * (k + 1)));
  }

  // ---------------------------------------------------------------------------
  // The people behind a figure
  // ---------------------------------------------------------------------------

  function JoinedDays(users: seq<User>): map<Id, int> {
    if users == [] then map[]
    else JoinedDays(users[..|users| - 1])[users[|users| - 1].id := DayOf(users[|users| - 1].createdAt)]
  }

  /** Ids are the users' own. */
  ghost predicate DistinctIds(users: seq<User>) {
    forall u, v :: u in users && v in users && u.id == v.id ==> u == v
  }

  lemma {:induction false} JoinedDaysHold(users: seq<User>, u: User)
    requires DistinctIds(users) && u in users
    ensures u.id in JoinedDays(users) && JoinedDays(users)[u.id] == DayOf(u.createdAt)
  {
    var last := users[|users| - 1];
    assert users == users[..|users| - 1] + [last];
    if u.id == last.id {
      assert last in users;
    } else {
      JoinedDaysHold(users[..|users| - 1], u);
    }
  }

  function OffsetOf(joined: map<Id, int>, r: Row): int {
    r.day - if r.user in joined then joined[r.user] else 0
  }

  function LastsOf(days: map<Id, map<int, int>>, user: Id): map<int, int> {
    if user in days then days[user] else map[]
  }

  ghost predicate FromRows(days: map<Id, map<int, int>>, joined: map<Id, int>, rows: seq<Row>) {
    && (forall u, o :: o in LastsOf(days, u) ==> HasRow(rows, joined, u, o, LastsOf(days, u)[o]))
    && (forall r :: r in rows ==> OffsetOf(joined, r) in LastsOf(days, r.user))
  }

  ghost predicate HasRow(rows: seq<Row>, joined: map<Id, int>, user: Id, offset: int, last: int) {
    exists r :: r in rows && r.user == user && OffsetOf(joined, r) == offset && r.last == last
  }

  /** Each person's last activity by days after joining, row by row. */
  method LastByOffset(rows: seq<Row>, joined: map<Id, int>) returns (days: map<Id, map<int, int>>)
    ensures FromRows(days, joined, rows)
  {
    days := map[];
    for i := 0 to |rows|
      invariant FromRows(days, joined, rows[..i])
    {
      ghost var before := days;
      var r := rows[i];
      assert rows[..i + 1] == rows[..i] + [r];
      if r.user !in days {
        days := days[r.user := map[]];
      }
      days := days[r.user := days[r.user][OffsetOf(joined, r) := r.last]];
      forall u, o | o in LastsOf(days, u) ensures HasRow(rows[..i + 1], joined, u, o, LastsOf(days, u)[o]) {
        if u == r.user && o == OffsetOf(joined, r) {
          assert r in rows[..i + 1];
        } else {
          assert o in LastsOf(before, u);
          assert HasRow(rows[..i], joined, u, o, LastsOf(before, u)[o]);
        }
      }
    }
    assert rows[..|rows|] == rows;
  }

  /** The latest of some times, if there are any. */
  method Latest(seen: map<int, int>) returns (last: Option<int>)
    ensures last.None? <==> seen == map[]
    ensures last.Some? ==> (exists o :: o in seen && seen[o] == last.value) && forall o :: o in seen ==> seen[o] <= last.value
  {
    last := None;
    ghost var at := 0;
    var left := seen.Items;
    while left != {}
      invariant left <= seen.Items
      invariant last.None? <==> left == seen.Items
      invariant last.Some? ==> at in seen && seen[at] == last.value
      invariant last.Some? ==> forall entry :: entry in seen.Items && entry !in left ==> entry.1 <= last.value
      decreases |left|
    {
      var entry :| entry in left;
      if last.None? || entry.1 > last.value {
        last, at := Some(entry.1), entry.0;
      }
      left := left - {entry};
    }
    forall o | o in seen ensures last.Some? && seen[o] <= last.value {
      assert (o, seen[o]) in seen.Items;
    }
  }

  /** What the events say of one person, the rows say. */
  lemma SeenIsActive(users: seq<User>, u: User, events: seq<Event>, rows: seq<Row>, since: int, days: map<Id, map<int, int>>, e: Event)
    requires DistinctIds(users) && u in users && Groups(rows, events, users, since)
    requires FromRows(days, JoinedDays(users), rows)
    requires e in events && e.user == u.id && since <= e.ts
    ensures var o := DayOf(e.ts) - DayOf(u.createdAt);
            o in LastsOf(days, u.id) && e.ts <= LastsOf(days, u.id)[o]
  {
    JoinedDaysHold(users, u);
    ActivityHasARow(users, u, events, rows, since, e);
    var r :| r in rows && r.user == u.id && r.day == DayOf(e.ts);
    var o := OffsetOf(JoinedDays(users), r);
    assert HasRow(rows, JoinedDays(users), u.id, o, LastsOf(days, u.id)[o]);
    var s :| s in rows && s.user == u.id && OffsetOf(JoinedDays(users), s) == o && s.last == LastsOf(days, u.id)[o];
    assert IsLast(events, since, s.user, s.day, s.last);
  }

  lemma ActivityHasARow(users: seq<User>, u: User, events: seq<Event>, rows: seq<Row>, since: int, e: Event)
    requires u in users && Groups(rows, events, users, since)
    requires e in events && e.user == u.id && since <= e.ts
    ensures exists r :: r in rows && r.user == u.id && r.day == DayOf(e.ts)
  {
    assert ActiveOn(events, since, u.id, DayOf(e.ts));
  }

  /** And what the rows say, the events say. */
  lemma SeenIsAnEvent(users: seq<User>, u: User, events: seq<Event>, rows: seq<Row>, since: int, days: map<Id, map<int, int>>, o: int)
    requires DistinctIds(users) && u in users && Groups(rows, events, users, since)
    requires FromRows(days, JoinedDays(users), rows)
    requires o in LastsOf(days, u.id)
    ensures var e := Event(u.id, LastsOf(days, u.id)[o]);
            e in events && Counts(e, since, u, o, o + 1)
  {
    JoinedDaysHold(users, u);
    assert HasRow(rows, JoinedDays(users), u.id, o, LastsOf(days, u.id)[o]);
    var s :| s in rows && s.user == u.id && OffsetOf(JoinedDays(users), s) == o && s.last == LastsOf(days, u.id)[o];
    assert IsLast(events, since, s.user, s.day, s.last);
  }

  function Within(lasts: map<int, int>, lo: int, hi: int): map<int, int> {
    map o | o in lasts && lo <= o < hi :: lasts[o]
  }

  /** The times one person was seen between those days tell whether they were back. */
  lemma SeenWithin(users: seq<User>, u: User, events: seq<Event>, rows: seq<Row>, since: int, days: map<Id, map<int, int>>, lo: int, hi: int)
    requires DistinctIds(users) && u in users && Groups(rows, events, users, since)
    requires FromRows(days, JoinedDays(users), rows)
    ensures Within(LastsOf(days, u.id), lo, hi) != map[] <==> BackWithin(events, since, u, lo, hi)
  {
    var seen := Within(LastsOf(days, u.id), lo, hi);
    if o :| o in seen {
      SeenIsAnEvent(users, u, events, rows, since, days, o);
      EventIsBack(events, since, u, lo, hi, Event(u.id, seen[o]));
    }
    if BackWithin(events, since, u, lo, hi) {
      forall day | ActiveOn(events, since, u.id, day) ensures day - DayOf(u.createdAt) in LastsOf(days, u.id) {
        ActiveIsSeen(users, u, events, rows, since, days, day);
      }
      BackIsSeen(u, events, since, LastsOf(days, u.id), lo, hi);
    }
  }

  lemma BackIsSeen(u: User, events: seq<Event>, since: int, lasts: map<int, int>, lo: int, hi: int)
    requires forall day :: ActiveOn(events, since, u.id, day) ==> day - DayOf(u.createdAt) in lasts
    requires BackWithin(events, since, u, lo, hi)
    ensures Within(lasts, lo, hi) != map[]
  {
    var day :| lo <= day - DayOf(u.createdAt) < hi && ActiveOn(events, since, u.id, day);
    IsWithin(lasts, lo, hi, day - DayOf(u.createdAt));
  }

  lemma EventIsBack(events: seq<Event>, since: int, u: User, lo: int, hi: int, e: Event)
    requires e in events && Counts(e, since, u, lo, hi)
    ensures BackWithin(events, since, u, lo, hi)
  {
    assert ActiveOn(events, since, u.id, DayOf(e.ts));
  }

  lemma IsWithin(lasts: map<int, int>, lo: int, hi: int, o: int)
    requires o in lasts && lo <= o < hi
    ensures Within(lasts, lo, hi) != map[]
  {
    assert o in Within(lasts, lo, hi);
  }

  lemma ActiveIsSeen(users: seq<User>, u: User, events: seq<Event>, rows: seq<Row>, since: int, days: map<Id, map<int, int>>, day: int)
    requires DistinctIds(users) && u in users && Groups(rows, events, users, since)
    requires FromRows(days, JoinedDays(users), rows)
    requires ActiveOn(events, since, u.id, day)
    ensures day - DayOf(u.createdAt) in LastsOf(days, u.id)
  {
    var e :| e in events && e.user == u.id && since <= e.ts && DayOf(e.ts) == day;
    SeenIsActive(users, u, events, rows, since, days, e);
  }

  lemma LatestSeenIsLatest(users: seq<User>, u: User, events: seq<Event>, rows: seq<Row>, since: int, days: map<Id, map<int, int>>, lo: int, hi: int, last: int)
    requires DistinctIds(users) && u in users && Groups(rows, events, users, since)
    requires FromRows(days, JoinedDays(users), rows)
    requires var seen := Within(LastsOf(days, u.id), lo, hi);
             (exists o :: o in seen && seen[o] == last) && forall o :: o in seen ==> seen[o] <= last
    ensures IsLatest(events, since, u, lo, hi, last)
  {
    var seen := Within(LastsOf(days, u.id), lo, hi);
    var o :| o in seen && seen[o] == last;
    SeenIsAnEvent(users, u, events, rows, since, days, o);
    forall e | e in events && Counts(e, since, u, lo, hi) ensures e.ts <= last {
      SeenIsActive(users, u, events, rows, since, days, e);
      assert DayOf(e.ts) - DayOf(u.createdAt) in seen;
    }
  }

  lemma OneMoreListed(who: seq<User>, i: nat, back: User -> bool)
    requires i < |who|
    ensures Filter(who[..i + 1], back) == Filter(who[..i], back) + if back(who[i]) then [who[i]] else []
  {
    assert who[..i + 1][..i] == who[..i];
  }

  /** Those of `who` seen between `lo` and `hi` days after joining, each with the last time. */
  method BackOn(who: seq<User>, days: map<Id, map<int, int>>, lo: int, hi: int,
                ghost users: seq<User>, ghost events: seq<Event>, ghost rows: seq<Row>, ghost since: int)
    returns (people: seq<Person>)
    requires DistinctIds(users) && Groups(rows, events, users, since)
    requires FromRows(days, JoinedDays(users), rows)
    requires forall u :: u in who ==> u in users
    ensures Lists(people, Filter(who, u => BackWithin(events, since, u, lo, hi)), events, since, lo, hi)
  {
    ghost var back := u => BackWithin(events, since, u, lo, hi);
    people := [];
    for i := 0 to |who|
      invariant Lists(people, Filter(who[..i], back), events, since, lo, hi)
    {
      OneMoreListed(who, i, back);
      var seen := LastSeen(who[i], days, lo, hi, users, events, rows, since);
      if seen.Some? {
        people := people + [Person(who[i].id, seen.value)];
      }
    }
    assert who[..|who|] == who;
  }

  /** When one person was last seen between those days, if they were. */
  method LastSeen(u: User, days: map<Id, map<int, int>>, lo: int, hi: int,
                  ghost users: seq<User>, ghost events: seq<Event>, ghost rows: seq<Row>, ghost since: int)
    returns (last: Option<int>)
    requires DistinctIds(users) && Groups(rows, events, users, since)
    requires FromRows(days, JoinedDays(users), rows) && u in users
    ensures last.Some? <==> BackWithin(events, since, u, lo, hi)
    ensures last.Some? ==> IsLatest(events, since, u, lo, hi, last.value)
  {
    last := Latest(Within(LastsOf(days, u.id), lo, hi));
    SeenWithin(users, u, events, rows, since, days, lo, hi);
    if last.Some? {
      LatestSeenIsLatest(users, u, events, rows, since, days, lo, hi, last.value);
    }
  }

  /** The list behind a figure, by its own reading of the same grouping. */
  method RetentionPeople(metric: Metric, week: Option<int>, users: seq<User>, events: seq<Event>, rows: seq<Row>, now: int, weeks: int)
    returns (people: Option<seq<Person>>)
    requires DistinctIds(users)
    requires Groups(rows, events, if week.Some? then Members(users, week.value) else users, StartOf(FirstWeek(now, weeks)))
    ensures IsPeople(people, metric, week, events, users, now, weeks)
  {
    ghost var since := StartOf(FirstWeek(now, weeks));
    var some := if week.Some? then Members(users, week.value) else users;
    if week.Some? {
      FilterWithin(users, u => InWeek(u, week.value));
    }
    if metric == InCohort(0) {
      return Some(Joined(some));
    }
    var days := LastByOffset(rows, JoinedDays(some));
    match metric {
      case InCohort(k) =>
        var list := BackOn(some, days, 7 * k, 7 * (k + 1), some, events, rows, since);
        return Some(list);
      case OnDay(n) =>
        if n !in {1, 7, 30} {
          return None;
        }
        var eligible := Filter(some, u => Eligible(u, n, DayOf(now)));
        FilterWithin(some, u => Eligible(u, n, DayOf(now)));
        var list := BackOn(eligible, days, n, n + 1, some, events, rows, since);
        BackIsEligible(some, events, since, n, DayOf(now));
        return Some(list);
      case Unknown =>
        return None;
    }
  }

  lemma BackIsEligible(users: seq<User>, events: seq<Event>, since: int, n: int, today: int)
    ensures Filter(Filter(users, u => Eligible(u, n, today)), u => BackWithin(events, since, u, n, n + 1))
         == Back(events, since, users, n, today)
  {
    var p, q := u => Eligible(u, n, today), u => BackWithin(events, since, u, n, n + 1);
    FilterTwice(users, p, q);
    FilterAlike(users, Both(p, q), u => Eligible(u, n, today) && BackWithin(events, since, u, n, n + 1));
  }

  // ---------------------------------------------------------------------------
  // The figures against each other, and against the lists
  // ---------------------------------------------------------------------------

  /** Joined in one of the weeks shown, the week under way the last of them. */
  predicate Shown(u: User, now: int, weeks: int) {
    FirstWeek(now, weeks) <= WeekOf(u.createdAt) <= WeekOf(now)
  }

  function Total(cohorts: seq<Cohort>, f: Cohort -> nat): nat {
    if cohorts == [] then 0 else Total(cohorts[..|cohorts| - 1], f) + f(cohorts[|cohorts| - 1])
  }

  /** A week of the page begins on a Monday, and each Monday in its span is one of them. */
  lemma InOneWeek(u: User, now: int, weeks: int)
    requires 0 <= weeks
    ensures Shown(u, now, weeks) <==> exists w :: 0 <= w < weeks && InWeek(u, FirstWeek(now, weeks) + w * 7)
    ensures forall v, w :: InWeek(u, FirstWeek(now, weeks) + v * 7) && InWeek(u, FirstWeek(now, weeks) + w * 7) ==> v == w
  {
    var first, week := FirstWeek(now, weeks), WeekOf(u.createdAt);
    assert (week - first) % 7 == 0;
    var w := (week - first) / 7;
    assert week == first + w * 7;
    if Shown(u, now, weeks) {
      assert 0 <= w < weeks && InWeek(u, first + w * 7);
    }
  }

  lemma {:induction false} FilterApart<T>(xs: seq<T>, p: T -> bool, q: T -> bool, both: T -> bool)
    requires forall x :: x in xs ==> both(x) == (p(x) || q(x)) && !(p(x) && q(x))
    ensures |Filter(xs, both)| == |Filter(xs, p)| + |Filter(xs, q)|
  {
    if xs != [] {
      FilterApart(xs[..|xs| - 1], p, q, both);
      assert xs[|xs| - 1] in xs;
    }
  }

  lemma {:induction false} FilterNone<T>(xs: seq<T>, p: T -> bool)
    requires forall x :: x in xs ==> !p(x)
    ensures Filter(xs, p) == []
  {
    if xs != [] {
      FilterNone(xs[..|xs| - 1], p);
      assert xs[|xs| - 1] in xs;
    }
  }

  /** Nobody is left out of a count only if it counts everybody. */
  lemma {:induction false} FilterAll<T>(xs: seq<T>, p: T -> bool)
    ensures |Filter(xs, p)| <= |xs|
    ensures |Filter(xs, p)| == |xs| <==> forall x :: x in xs ==> p(x)
  {
    if xs != [] {
      FilterAll(xs[..|xs| - 1], p);
      assert xs == xs[..|xs| - 1] + [xs[|xs| - 1]];
    }
  }

  predicate Before(u: User, first: int, w: nat) {
    first <= WeekOf(u.createdAt) < first + w * 7
  }

  /** However people are picked, those picked from each of the first `w` weeks add up to those picked from all of them. */
  lemma {:induction false} WeeksAddUp(users: seq<User>, p: User -> bool, cohorts: seq<Cohort>, f: Cohort -> nat, first: int)
    requires first % 7 == 4
    requires forall w :: 0 <= w < |cohorts| ==> f(cohorts[w]) == |Filter(Members(users, first + w * 7), p)|
    ensures Total(cohorts, f) == |Filter(users, u => p(u) && Before(u, first, |cohorts|))|
    decreases |cohorts|
  {
    if cohorts == [] {
      FilterNone(users, u => p(u) && Before(u, first, 0));
    } else {
      var w := |cohorts| - 1;
      WeeksAddUp(users, p, cohorts[..w], f, first);
      FilterTwice(users, u => InWeek(u, first + w * 7), p);
      forall u ensures Before(u, first, w + 1) == (Before(u, first, w) || InWeek(u, first + w * 7))
               ensures !(Before(u, first, w) && InWeek(u, first + w * 7)) {
        assert WeekOf(u.createdAt) % 7 == 4;
      }
      FilterApart(users, u => p(u) && Before(u, first, w), Both(u => InWeek(u, first + w * 7), p), u => p(u) && Before(u, first, w + 1));
    }
  }

  function SizeOf(c: Cohort): nat {
    c.size
  }

  function Rate(d1: BackCount, d7: BackCount, d30: BackCount, n: int): BackCount {
    if n == 1 then d1 else if n == 7 then d7 else d30
  }

  function BackIn(n: int): Cohort -> nat {
    (c: Cohort) => Rate(c.d1, c.d7, c.d30, n).back
  }

  function EligibleIn(n: int): Cohort -> nat {
    (c: Cohort) => Rate(c.d1, c.d7, c.d30, n).eligible
  }

  /** What the query for users promises. */
  predicate JoinedSince(users: seq<User>, since: int) {
    forall u :: u in users ==> since <= u.createdAt
  }

  /** Someone the query found joined in a week shown, if not past the week under way. */
  lemma BeforeIsShown(u: User, now: int, weeks: nat)
    requires StartOf(FirstWeek(now, weeks)) <= u.createdAt
    ensures Before(u, FirstWeek(now, weeks), weeks) <==> WeekOf(u.createdAt) <= WeekOf(now)
    ensures DayOf(u.createdAt) < DayOf(now) ==> WeekOf(u.createdAt) <= WeekOf(now)
  {
  }

  function IsEligible(n: int, today: int): User -> bool {
    u => Eligible(u, n, today)
  }

  ghost function IsBack(events: seq<Event>, since: int, n: int, today: int): User -> bool {
    u => Eligible(u, n, today) && BackWithin(events, since, u, n, n + 1)
  }

  lemma CountsArePicks(events: seq<Event>, since: int, users: seq<User>, n: int, today: int)
    ensures CountOf(events, since, users, n, today)
         == BackCount(|Filter(users, IsBack(events, since, n, today))|, |Filter(users, IsEligible(n, today))|)
  {
  }

  lemma CohortRates(report: Report, events: seq<Event>, users: seq<User>, now: int, weeks: nat, n: int, w: nat)
    requires IsReport(report, events, users, now, weeks) && n in {1, 7, 30} && w < weeks
    ensures var members, since := Members(users, FirstWeek(now, weeks) + w * 7), StartOf(FirstWeek(now, weeks));
            && SizeOf(report.cohorts[w]) == |members|
            && BackIn(n)(report.cohorts[w]) == |Filter(members, IsBack(events, since, n, DayOf(now)))|
            && EligibleIn(n)(report.cohorts[w]) == |Filter(members, IsEligible(n, DayOf(now)))|
  {
  }

  /** Everyone picked is in a week shown, so the cohorts leave nobody out. */
  lemma WeeksCoverThosePicked(users: seq<User>, p: User -> bool, cohorts: seq<Cohort>, f: Cohort -> nat, first: int)
    requires first % 7 == 4
    requires forall w :: 0 <= w < |cohorts| ==> f(cohorts[w]) == |Filter(Members(users, first + w * 7), p)|
    requires forall u :: u in users && p(u) ==> Before(u, first, |cohorts|)
    ensures Total(cohorts, f) == |Filter(users, p)|
  {
    WeeksAddUp(users, p, cohorts, f, first);
    FilterAlike(users, u => p(u) && Before(u, first, |cohorts|), p);
  }

  /** The cohorts' sizes add up to everyone who joined, just if nobody has a joining date past the week under way. */
  lemma SizesAddUp(report: Report, events: seq<Event>, users: seq<User>, now: int, weeks: nat)
    requires IsReport(report, events, users, now, weeks)
    requires JoinedSince(users, StartOf(FirstWeek(now, weeks)))
    ensures Total(report.cohorts, SizeOf) == report.joined <==> forall u :: u in users ==> WeekOf(u.createdAt) <= WeekOf(now)
  {
    var first, anyone := FirstWeek(now, weeks), (u: User) => true;
    forall w | 0 <= w < weeks ensures SizeOf(report.cohorts[w]) == |Filter(Members(users, first + w * 7), anyone)| {
      CohortRates(report, events, users, now, weeks, 1, w);
      FilterAll(Members(users, first + w * 7), anyone);
    }
    WeeksAddUp(users, anyone, report.cohorts, SizeOf, first);
    FilterAll(users, u => anyone(u) && Before(u, first, |report.cohorts|));
    forall u | u in users ensures Before(u, first, weeks) <==> WeekOf(u.createdAt) <= WeekOf(now) {
      BeforeIsShown(u, now, weeks);
    }
  }

  /** For each of day 1, 7 and 30, those back and those counted add up to the overall figures. */
  lemma RatesAddUp(report: Report, events: seq<Event>, users: seq<User>, now: int, weeks: nat, n: int)
    requires IsReport(report, events, users, now, weeks) && n in {1, 7, 30}
    requires JoinedSince(users, StartOf(FirstWeek(now, weeks)))
    ensures Total(report.cohorts, BackIn(n)) == Rate(report.d1, report.d7, report.d30, n).back
    ensures Total(report.cohorts, EligibleIn(n)) == Rate(report.d1, report.d7, report.d30, n).eligible
  {
    var first, today := FirstWeek(now, weeks), DayOf(now);
    forall w | 0 <= w < weeks
      ensures EligibleIn(n)(report.cohorts[w]) == |Filter(Members(users, first + w * 7), IsEligible(n, today))|
      ensures BackIn(n)(report.cohorts[w]) == |Filter(Members(users, first + w * 7), IsBack(events, StartOf(first), n, today))|
    {
      CohortRates(report, events, users, now, weeks, n, w);
    }
    forall u | u in users && Eligible(u, n, today) ensures Before(u, first, weeks) {
      BeforeIsShown(u, now, weeks);
    }
    WeeksCoverThosePicked(users, IsEligible(n, today), report.cohorts, EligibleIn(n), first);
    WeeksCoverThosePicked(users, IsBack(events, StartOf(first), n, today), report.cohorts, BackIn(n), first);
    CountsArePicks(events, StartOf(first), users, n, today);
  }

  /** In each row exactly the last week is still open: it is the one under way. */
  lemma OnlyTheWeekUnderWayIsOpen(report: Report, events: seq<Event>, users: seq<User>, now: int, weeks: nat, w: nat, i: nat)
    requires IsReport(report, events, users, now, weeks)
    requires w < weeks && i < weeks - w - 1
    ensures report.cohorts[w].weekCounts[i].None? <==> i == weeks - w - 2
    ensures report.cohorts[w].weeks[i].None? <==> i == weeks - w - 2
  {
  }

  /** Each figure of the page is the length of the list behind it. */
  lemma FiguresAreLists(report: Report, people: Option<seq<Person>>, metric: Metric, w: Option<nat>, events: seq<Event>, users: seq<User>, now: int, weeks: nat)
    requires IsReport(report, events, users, now, weeks) && (w.Some? ==> w.value < weeks)
    requires IsPeople(people, metric, if w.Some? then Some(FirstWeek(now, weeks) + w.value * 7) else None, events, users, now, weeks)
    ensures metric.OnDay? && w.None? && metric.n in {1, 7, 30} ==>
              people.Some? && |people.value| == Rate(report.d1, report.d7, report.d30, metric.n).back
    ensures metric.OnDay? && w.Some? && metric.n in {1, 7, 30} ==>
              people.Some? && |people.value| == BackIn(metric.n)(report.cohorts[w.value])
    ensures metric.InCohort? && w.Some? && metric.k == 0 ==>
              people.Some? && |people.value| == report.cohorts[w.value].size
    ensures metric.InCohort? && w.Some? && 0 < metric.k < weeks - w.value && report.cohorts[w.value].weekCounts[metric.k - 1].Some? ==>
              people.Some? && |people.value| == report.cohorts[w.value].weekCounts[metric.k - 1].value
  {
  }

  /** The events leave no choice: there is one report they allow, and one list behind a figure, latest times and all. */
  lemma OneList(people: seq<Person>, others: seq<Person>, who: seq<User>, events: seq<Event>, since: int, lo: int, hi: int)
    requires Lists(people, who, events, since, lo, hi) && Lists(others, who, events, since, lo, hi)
    ensures people == others
    ensures forall i, e :: 0 <= i < |who| && e in events && Counts(e, since, who[i], lo, hi) ==> e.ts <= people[i].at
  {
    forall i | 0 <= i < |who| ensures people[i] == others[i] {
      assert IsLatest(events, since, who[i], lo, hi, people[i].at) && IsLatest(events, since, who[i], lo, hi, others[i].at);
    }
  }

  lemma OneReport(report: Report, other: Report, events: seq<Event>, users: seq<User>, now: int, weeks: int)
    requires IsReport(report, events, users, now, weeks) && IsReport(other, events, users, now, weeks)
    ensures report == other
  {
    forall w | 0 <= w < |report.cohorts| ensures report.cohorts[w] == other.cohorts[w] {
      OneCohort(report.cohorts[w], other.cohorts[w], events, StartOf(FirstWeek(now, weeks)), users, FirstWeek(now, weeks) + w * 7, weeks - w - 1, now);
    }
  }

  lemma OneCohort(c: Cohort, d: Cohort, events: seq<Event>, since: int, users: seq<User>, week: int, columns: int, now: int)
    requires IsCohort(c, events, since, users, week, columns, now) && IsCohort(d, events, since, users, week, columns, now)
    ensures c == d
  {
    assert c.weekCounts == d.weekCounts;
    assert c.weeks == d.weeks;
  }
}
