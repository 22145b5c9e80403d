/**
 Instants and what the clocks of a zone show at them.

 A zone is any function from an instant to the milliseconds its wall clock is ahead of UTC
 there. `Intl` formatting an instant into the zone is then a reading of instant plus offset:
 whole seconds only, midnight possibly shown as hour 24, and a year before 1 shown by its
 number BC without the era.
 */
module Zoned {
  import opened Calendar

  datatype Zone = Zone(off: int -> int, midnightAs24: bool)

  /** What the wall clock shows at an instant, as milliseconds on a calendar of its own. */
  function LocalMs(z: Zone, utc: int): int {
    utc + z.off(utc)
  }

  /** The year as `Intl` prints it: 1 BC, which is year 0, comes out as 1. */
  function IntlYear(year: int): int {
    if year >= 1 then year else 1 - year
  }

  /** The parts `Intl.DateTimeFormat` gives for an instant in a zone. */
  function FormatToParts(z: Zone, utc: int): Civil {
    var c := CivilOf(LocalMs(z, utc));
    c.(year := IntlYear(c.year), hour := if c.hour == 0 && z.midnightAs24 then 24 else c.hour)
  }

  function ZoneOffsetMs(z: Zone, utc: int): int {
    var parts := FormatToParts(z, utc);
    DateUtc(parts.year, parts.month - 1, parts.day, parts.hour % 24, parts.minute, parts.second) - utc
  }

  /** A zone's offsets, as read off the formatted parts. */
  function OffsetReader(z: Zone): int -> int {
    utc => ZoneOffsetMs(z, utc)
  }

  /** The two-pass search; `guess` is the wall time read as if it were UTC, `read` gives the offset at an instant. */
  function Search(read: int -> int, guess: int): int {
    var offset := read(guess);
    var utc := guess - offset;
    var offset2 := read(utc);
    if offset2 != offset then guess - offset2 else utc
  }

  /** The instant at which a zone's clocks should show these fields. */
  function ZonedWallTimeToUtc(z: Zone, year: int, month: int, day: int, hour: int, minute: int): int {
    Search(OffsetReader(z), DateUtc(year, month - 1, day, hour, minute, 0))
  }

  function YearInZone(z: Zone, from: int): int {
    IntlYear(YearOf(LocalMs(z, from)))
  }

  /** This year's instant if it is still to come, else next year's; each is searched for from its guess. */
  function NextRelease(read: int -> int, thisYears: int, nextYears: int, from: int): int {
    var release := Search(read, thisYears);
    if release <= from then Search(read, nextYears) else release
  }

  function MidnightAfter(z: Zone, year: int, month: int, day: int, from: int): int {
    NextRelease(OffsetReader(z), DateUtc(year, month - 1, day, 0, 0, 0), DateUtc(year + 1, month - 1, day, 0, 0, 0), from)
  }

  /** The next `month`/`day` at local midnight after `from`, rolling to next year if this year's has passed. */
  function NextLocalMidnight(z: Zone, month: int, day: int, from: int): int {
    MidnightAfter(z, YearInZone(z, from), month, day, from)
  }

  /** The local date and hour at an instant. */
  function ZonedNow(z: Zone, at: int): (int, int, int, int) {
    var parts := FormatToParts(z, at);
    (parts.year, parts.month, parts.day, parts.hour % 24)
  }

  // ---------------------------------------------------------------------------
  // What reading an offset off the formatted fields gives
  // ---------------------------------------------------------------------------

  /** What is printed is the local time, but for a BC year and, in some runtimes, midnight. */
  lemma PrintedIsLocalTime(z: Zone, utc: int)
    ensures var parts, c := FormatToParts(z, utc), CivilOf(LocalMs(z, utc));
            && (parts == c <==> c.year >= 1 && !(c.hour == 0 && z.midnightAs24))
            && (parts.hour == 24 <==> c.hour == 0 && z.midnightAs24)
            && (parts.year, parts.month, parts.day) == (IntlYear(c.year), c.month, c.day)
  {
    CivilOfIsExact(LocalMs(z, utc));
  }

  /** Naming what was printed gives the instant back from the year 100 on, and never before it. */
  lemma PrintedFieldsReadBack(c: Civil, midnightAs24: bool)
    requires c.Valid()
    ensures var hour := if c.hour == 0 && midnightAs24 then 24 else c.hour;
            DateUtc(IntlYear(c.year), c.month - 1, c.day, hour % 24, c.minute, c.second) == c.Instant()
            <==> c.year >= 100
  {
    var shown := FullYear(IntlYear(c.year));
    HourIsNormalised(c.hour, midnightAs24);
    assert shown == c.year <==> c.year >= 100;
    if shown != c.year {
      DifferentYears(c, shown);
    }
  }

  /** The offset comes out exact but for the milliseconds of the local time, and does so from the year 100 on and never before it. */
  lemma ZoneOffsetIsExact(z: Zone, utc: int)
    ensures ZoneOffsetMs(z, utc) == z.off(utc) - LocalMs(z, utc) % 1_000
       <==> CivilOf(LocalMs(z, utc)).year >= 100
  {
    CivilOfIsExact(LocalMs(z, utc));
    PrintedFieldsReadBack(CivilOf(LocalMs(z, utc)), z.midnightAs24);
  }

  /** The local time shown by `ZonedNow`, whichever way midnight is printed. */
  lemma ZonedNowReadsTheClock(z: Zone, at: int)
    ensures var c := CivilOf(LocalMs(z, at));
            && ZonedNow(z, at) == (IntlYear(c.year), c.month, c.day, c.hour)
            && (ZonedNow(z, at).0 == c.year <==> c.year >= 1)
  {
    CivilOfIsExact(LocalMs(z, at));
    HourIsNormalised(CivilOf(LocalMs(z, at)).hour, z.midnightAs24);
  }

  lemma HourIsNormalised(hour: int, midnightAs24: bool)
    requires 0 <= hour < 24
    ensures (if hour == 0 && midnightAs24 then 24 else hour) % 24 == hour
  {
  }

  // ---------------------------------------------------------------------------
  // The two-pass search
  // ---------------------------------------------------------------------------

  ghost predicate WholeSeconds(z: Zone) {
    forall u :: z.off(u) % 1_000 == 0
  }

  ghost predicate Bounded(z: Zone, m: int) {
    forall u :: -m <= z.off(u) <= m
  }

  /** Between `lo` and `hi` the zone is at `a` before the instant `c` and at `b` from it on; `c` may lie outside. */
  ghost predicate OneChange(z: Zone, lo: int, hi: int, c: int, a: int, b: int) {
    forall u :: lo <= u <= hi ==> z.off(u) == if u < c then a else b
  }

  ghost predicate Exists(z: Zone, wall: int) {
    exists u :: LocalMs(z, u) == wall
  }

  /** Everything the search asks of a zone around one wall time: offsets at most `m`, read exactly, and one change at most. */
  ghost predicate Searchable(z: Zone, read: int -> int, wall: int, m: int, c: int, a: int, b: int) {
    && WholeSeconds(z) && Bounded(z, m) && wall % 1_000 == 0
    && ReadsExactly(z, read, wall - m)
    && OneChange(z, wall - m, wall + m, c, a, b) && -m <= a <= m && -m <= b <= m
  }

  /** From `lo` on, reading an offset at a whole second gives the zone's own. */
  ghost predicate ReadsExactly(z: Zone, read: int -> int, lo: int) {
    forall u :: lo <= u && u % 1_000 == 0 ==> read(u) == z.off(u)
  }

  /** The instant found for a wall time, by where the guess and the first candidate fall beside the change. */
  function Found(wall: int, c: int, a: int, b: int): int {
    if wall < c then (if wall - a < c then wall - a else wall - b)
    else (if c <= wall - b then wall - b else wall - a)
  }

  /** What the search returns, told by where the guess and the change lie: both offsets it asks for are asked at whole seconds. */
  lemma SearchResult(z: Zone, read: int -> int, wall: int, m: int, c: int, a: int, b: int)
    requires Searchable(z, read, wall, m, c, a, b)
    ensures Search(read, wall) == Found(wall, c, a, b)
  {
    assert -m <= z.off(wall) <= m;
    assert read(wall) == z.off(wall) == if wall < c then a else b;
    var utc := wall - z.off(wall);
    assert utc % 1_000 == 0;
    assert read(utc) == z.off(utc) == if utc < c then a else b;
  }

  /** The instants that read as a wall time are the one before the change and the one after it, where they fall on their own sides. */
  lemma Candidates(z: Zone, wall: int, m: int, c: int, a: int, b: int, u: int)
    requires Bounded(z, m) && OneChange(z, wall - m, wall + m, c, a, b)
    ensures LocalMs(z, u) == wall <==> (u == wall - a && u < c && -m <= a <= m) || (u == wall - b && c <= u && -m <= b <= m)
  {
  }

  /** The search is exact when and only when some instant reads as the wall time, a repeated hour included. */
  lemma SearchFindsWallTime(z: Zone, read: int -> int, wall: int, m: int, c: int, a: int, b: int)
    requires Searchable(z, read, wall, m, c, a, b)
    ensures LocalMs(z, Search(read, wall)) == wall <==> Exists(z, wall)
  {
    SearchResult(z, read, wall, m, c, a, b);
    var r := Search(read, wall);
    Candidates(z, wall, m, c, a, b, r);
    if Exists(z, wall) {
      var u :| LocalMs(z, u) == wall;
      Candidates(z, wall, m, c, a, b, u);
      Candidates(z, wall, m, c, a, b, wall - a);
      Candidates(z, wall, m, c, a, b, wall - b);
    }
  }

  /** In a skipped interval the result reads the size of the shift away: earlier if the guess is before the change, later if not. */
  lemma SearchInAGap(z: Zone, read: int -> int, wall: int, m: int, c: int, a: int, b: int)
    requires Searchable(z, read, wall, m, c, a, b) && !Exists(z, wall)
    ensures a < b && c + a <= wall < c + b
    ensures LocalMs(z, Search(read, wall)) == if wall < c then wall - (b - a) else wall + (b - a)
  {
    SearchResult(z, read, wall, m, c, a, b);
    assert -m <= z.off(wall) <= m;
    assert z.off(wall) == if wall < c then a else b;
    var u := wall - z.off(wall);
    assert LocalMs(z, u) != wall;
    assert -m <= z.off(u) <= m;
    assert z.off(u) == if u < c then a else b;
    var r := Search(read, wall);
    assert r == wall - z.off(u);
    assert LocalMs(z, r) != wall;
    assert z.off(r) == if r < c then a else b;
  }

  /** Two instants read as the wall time: one still at `a`, one already at `b`. */
  predicate Repeated(wall: int, c: int, a: int, b: int) {
    wall - a < c <= wall - b
  }

  /** Of the two readings of a repeated hour, the search takes the one on the guess's own side of the change. */
  lemma SearchInARepeatedHour(z: Zone, read: int -> int, wall: int, m: int, c: int, a: int, b: int)
    requires Searchable(z, read, wall, m, c, a, b) && Repeated(wall, c, a, b)
    ensures LocalMs(z, wall - a) == wall == LocalMs(z, wall - b)
    ensures Search(read, wall) == if wall < c then wall - a else wall - b
  {
    SearchResult(z, read, wall, m, c, a, b);
    Candidates(z, wall, m, c, a, b, wall - a);
    Candidates(z, wall, m, c, a, b, wall - b);
  }

  /** The first instant of the year 100. */
  function Year100(): int {
    Days(DayFromYear(100))
  }

  /** The formatted parts give the zone's own offsets on whole seconds of the year 100 and after. */
  lemma ReaderIsExact(z: Zone, m: int, lo: int)
    requires WholeSeconds(z) && Bounded(z, m) && Year100() + m <= lo
    ensures ReadsExactly(z, OffsetReader(z), lo)
  {
    forall u | lo <= u && u % 1_000 == 0 ensures OffsetReader(z)(u) == z.off(u) {
      ReaderIsExactAt(z, u);
    }
  }

  lemma ReaderIsExactAt(z: Zone, u: int)
    requires WholeSeconds(z) && u % 1_000 == 0 && Year100() <= LocalMs(z, u)
    ensures ZoneOffsetMs(z, u) == z.off(u)
  {
    FromYear(100, LocalMs(z, u));
    ZoneOffsetIsExact(z, u);
    WholeSecondSum(u, z.off(u));
  }

  lemma WholeSecondSum(u: int, off: int)
    requires u % 1_000 == 0 && off % 1_000 == 0
    ensures (u + off) % 1_000 == 0
  {
  }

  /** The wall time a caller asks for; a year from 0 to 99 asks for one of the twentieth century. */
  function WallTime(year: int, month: int, day: int, hour: int, minute: int): int {
    At(MakeDay(FullYear(year), month - 1, day), MakeTime(hour, minute, 0))
  }

  lemma WallTimeIsWholeSecond(day: int, hour: int, minute: int)
    ensures At(day, MakeTime(hour, minute, 0)) % 1_000 == 0
  {
    assert At(day, MakeTime(hour, minute, 0)) == 1_000 * (86_400 * day + 3_600 * hour + 60 * minute);
  }

  /** How a zone behaves around one moment: at most one change of offset, from `a` to `b` at `c`. */
  datatype Edge = Edge(c: int, a: int, b: int)

  /** The zone around one moment: at most one change of offset, and every offset bounded by `m`. */
  ghost predicate ChangesOnceAround(z: Zone, wall: int, m: int, e: Edge) {
    OneChange(z, wall - m, wall + m, e.c, e.a, e.b) && -m <= e.a <= m && -m <= e.b <= m
  }

  /** The caller's wall time is searched for, and the formatter's offsets are the zone's own throughout. */
  lemma SearchableWallTime(z: Zone, year: int, month: int, day: int, hour: int, minute: int, m: int, e: Edge)
    requires WholeSeconds(z) && Bounded(z, m)
    requires var wall := WallTime(year, month, day, hour, minute); Year100() + 2 * m <= wall && ChangesOnceAround(z, wall, m, e)
    ensures var wall := WallTime(year, month, day, hour, minute);
            && Searchable(z, OffsetReader(z), wall, m, e.c, e.a, e.b)
            && ZonedWallTimeToUtc(z, year, month, day, hour, minute) == Search(OffsetReader(z), wall)
  {
    var wall := WallTime(year, month, day, hour, minute);
    WallTimeIsWholeSecond(MakeDay(FullYear(year), month - 1, day), hour, minute);
    ReaderIsExact(z, m, wall - m);
  }

  /** `r` reads as the wall time exactly when some instant does; if none does it reads the shift away, on the guess's side. */
  ghost predicate ReadsOrMissesByTheShift(z: Zone, wall: int, e: Edge, r: int) {
    if Exists(z, wall) then LocalMs(z, r) == wall
    else e.a < e.b && LocalMs(z, r) == if wall < e.c then wall - (e.b - e.a) else wall + (e.b - e.a)
  }

  /** Both outcomes of `zonedWallTimeToUtc` and no third. */
  lemma WallTimeIsFound(z: Zone, year: int, month: int, day: int, hour: int, minute: int, m: int, e: Edge)
    requires WholeSeconds(z) && Bounded(z, m)
    requires var wall := WallTime(year, month, day, hour, minute); Year100() + 2 * m <= wall && ChangesOnceAround(z, wall, m, e)
    ensures ReadsOrMissesByTheShift(z, WallTime(year, month, day, hour, minute), e, ZonedWallTimeToUtc(z, year, month, day, hour, minute))
  {
    SearchableWallTime(z, year, month, day, hour, minute, m, e);
    FoundOrMissed(z, OffsetReader(z), WallTime(year, month, day, hour, minute), m, e);
  }

  lemma FoundOrMissed(z: Zone, read: int -> int, wall: int, m: int, e: Edge)
    requires Searchable(z, read, wall, m, e.c, e.a, e.b)
    ensures ReadsOrMissesByTheShift(z, wall, e, Search(read, wall))
  {
    SearchFindsWallTime(z, read, wall, m, e.c, e.a, e.b);
    if !Exists(z, wall) {
      SearchInAGap(z, read, wall, m, e.c, e.a, e.b);
    }
  }

  /** An instant that reads as the wall time of real fields shows exactly those fields. */
  lemma WallTimeShowsItsFields(z: Zone, c: Civil, r: int)
    requires c.(year := FullYear(c.year)).Valid() && c.second == 0
    requires LocalMs(z, r) == WallTime(c.year, c.month, c.day, c.hour, c.minute)
    ensures CivilOf(LocalMs(z, r)) == c.(year := FullYear(c.year))
  {
    FieldsRoundTrip(c.(year := FullYear(c.year)));
  }

  // --- Before the year 100

  lemma {:induction false} InstantsApart(c: Civil, year: int)
    requires 1 <= c.month <= 12 && c.year < year
    ensures c.Instant() + 365 * 86_400_000 <= c.(year := year).Instant()
    decreases year - c.year
  {
    NextYearsDay(year - 1, c.month, c.day);
    if c.year < year - 1 {
      InstantsApart(c, year - 1);
    }
  }

  /** Fields printed of a year before 100 name an instant of a later year. */
  lemma PrintedFieldsAreLater(c: Civil, midnightAs24: bool)
    requires c.Valid() && c.year < 100
    ensures var hour := if c.hour == 0 && midnightAs24 then 24 else c.hour;
            DateUtc(IntlYear(c.year), c.month - 1, c.day, hour % 24, c.minute, c.second) >= c.Instant() + 365 * 86_400_000
  {
    HourIsNormalised(c.hour, midnightAs24);
    InstantsApart(c, FullYear(IntlYear(c.year)));
  }

  /** An offset read before the year 100 is too great by most of a year or more. */
  lemma EarlyOffsetIsTooGreat(z: Zone, u: int)
    requires LocalMs(z, u) < Year100()
    ensures ZoneOffsetMs(z, u) >= z.off(u) + 364 * 86_400_000
  {
    var c := CivilOf(LocalMs(z, u));
    CivilOfIsExact(LocalMs(z, u));
    BeforeYear(100, LocalMs(z, u));
    PrintedFieldsAreLater(c, z.midnightAs24);
    OffsetByFields(z, u, c);
    assert LocalMs(z, u) % 1_000 < 1_000;
  }

  lemma OffsetByFields(z: Zone, u: int, c: Civil)
    requires c == CivilOf(LocalMs(z, u))
    ensures var hour := if c.hour == 0 && z.midnightAs24 then 24 else c.hour;
            ZoneOffsetMs(z, u) == DateUtc(IntlYear(c.year), c.month - 1, c.day, hour % 24, c.minute, c.second) - u
  {
  }

  lemma BeforeYear(year: int, ms: int)
    requires ms < Days(DayFromYear(year))
    ensures YearOf(ms) < year && CivilOf(ms).year < year
  {
    DayBefore(ms, DayFromYear(year));
    var y := YearFromDay(ms / 86_400_000);
    if year <= y {
      YearsAreOrdered(year, y);
    }
  }

  lemma DayBefore(ms: int, day: int)
    requires ms < Days(day)
    ensures ms / 86_400_000 < day
  {
  }

  /** Of a wall time before the year 100 the search makes an earlier one, whatever the zone. */
  lemma EarlyWallTimeIsMissed(z: Zone, year: int, month: int, day: int, hour: int, minute: int, m: int)
    requires Bounded(z, m) && m <= 180 * 86_400_000
    requires WallTime(year, month, day, hour, minute) + m < Year100()
    ensures LocalMs(z, ZonedWallTimeToUtc(z, year, month, day, hour, minute)) < WallTime(year, month, day, hour, minute)
  {
    EarlySearchIsMissed(z, WallTime(year, month, day, hour, minute), m);
  }

  lemma EarlySearchIsMissed(z: Zone, wall: int, m: int)
    requires Bounded(z, m) && m <= 180 * 86_400_000 && wall + m < Year100()
    ensures LocalMs(z, Search(OffsetReader(z), wall)) < wall
  {
    forall u | LocalMs(z, u) < Year100() ensures OffsetReader(z)(u) >= z.off(u) + 364 * 86_400_000 {
      EarlyOffsetIsTooGreat(z, u);
    }
    SearchFallsShort(z, OffsetReader(z), wall, m, Year100());
  }

  lemma SearchFallsShort(z: Zone, read: int -> int, wall: int, m: int, end: int)
    requires Bounded(z, m) && m <= 180 * 86_400_000 && wall + m < end
    requires forall u :: LocalMs(z, u) < end ==> read(u) >= z.off(u) + 364 * 86_400_000
    ensures LocalMs(z, Search(read, wall)) < wall
  {
    var utc, r := wall - read(wall), Search(read, wall);
    assert -m <= z.off(wall) <= m && LocalMs(z, wall) < end;
    assert -m <= z.off(utc) <= m && LocalMs(z, utc) < end;
    assert -m <= z.off(r) <= m;
  }

  // ---------------------------------------------------------------------------
  // The next local midnight of a month and day
  // ---------------------------------------------------------------------------

  /** Midnight of a month and day, on the wall calendar; a day past the end of its month is the first of the next. */
  function Wall(year: int, month: int, day: int): int {
    At(MakeDay(year, month - 1, day), 0)
  }

  function NewYear(year: int): int {
    Days(DayFromYear(year))
  }

  /** Between `lo` and `hi` the clock never falls back by more than a day; how far it may leap ahead is not limited. */
  ghost predicate FallsBackWithinADay(z: Zone, lo: int, hi: int) {
    forall u, v :: lo <= u <= v <= hi ==> z.off(u) <= z.off(v) + 86_400_000
  }

  /** A change of offset by no more than a day. */
  predicate WithinADay(e: Edge) {
    -86_400_000 <= e.b - e.a <= 86_400_000
  }

  ghost predicate Near(z: Zone, wall: int, u: int) {
    wall - 86_400_000 <= LocalMs(z, u) <= wall + 86_400_000
  }

  /** The zone has one offset wherever its clock is within a day of `wall`. */
  ghost predicate Quiet(z: Zone, wall: int) {
    forall u, v :: Near(z, wall, u) && Near(z, wall, v) ==> z.off(u) == z.off(v)
  }

  /** A clock that has passed a quiet moment never shows an earlier one. */
  lemma StaysPast(z: Zone, wall: int, u: int, v: int, lo: int, hi: int)
    requires FallsBackWithinADay(z, lo, hi) && Quiet(z, wall) && lo <= u <= v <= hi && wall <= LocalMs(z, u)
    ensures wall <= LocalMs(z, v)
  {
    if LocalMs(z, v) < wall {
      assert z.off(u) <= z.off(v) + 86_400_000;
      assert Near(z, wall, u) && Near(z, wall, v);
    }
  }

  /** The midnights of one month and day: one a year, each within its own year and at least 365 days after the last. */
  ghost predicate Yearly(wall: int -> int, newYear: int -> int) {
    && (forall y :: newYear(y) <= wall(y) && wall(y) + 86_400_000 <= newYear(y + 1))
    && (forall y1, y2 :: y1 < y2 ==> wall(y1) + 365 * 86_400_000 <= wall(y2))
    && (forall y :: wall(y) == newYear(y) || wall(y) >= newYear(y) + 86_400_000)
  }

  /** Some midnight of the month and day falls at `u`. */
  ghost predicate IsMidnight(z: Zone, wall: int -> int, u: int) {
    exists y: int :: LocalMs(z, u) == wall(y)
  }

  ghost predicate Around(z: Zone, read: int -> int, wall: int, m: int, e: Edge) {
    Searchable(z, read, wall, m, e.c, e.a, e.b) && WithinADay(e)
  }

  /** What is asked of the zone for the midnights of `year` and the year after, seen from `from`. */
  ghost predicate Setting(z: Zone, read: int -> int, wall: int -> int, newYear: int -> int, year: int, from: int, m: int, e1: Edge, e2: Edge) {
    && FallsBackWithinADay(z, newYear(year) - m, wall(year + 1) + m) && Yearly(wall, newYear)
    && Quiet(z, newYear(year)) && Quiet(z, newYear(year + 1))
    && newYear(year) <= LocalMs(z, from) < newYear(year + 1)
    && Around(z, read, wall(year), m, e1) && Around(z, read, wall(year + 1), m, e2)
  }

  /** The search is never more than a day off on the wall clock. */
  lemma SearchWithinADay(z: Zone, read: int -> int, wall: int, m: int, e: Edge)
    requires Around(z, read, wall, m, e)
    ensures var local := LocalMs(z, Search(read, wall)); wall - 86_400_000 <= local <= wall + 86_400_000
    ensures Exists(z, wall) ==> LocalMs(z, Search(read, wall)) == wall
  {
    SearchFindsWallTime(z, read, wall, m, e.c, e.a, e.b);
    if !Exists(z, wall) {
      SearchInAGap(z, read, wall, m, e.c, e.a, e.b);
    }
  }

  /** A new year's own midnight is never skipped in a zone that is quiet around it. */
  lemma QuietMidnightExists(z: Zone, read: int -> int, wall: int, m: int, e: Edge)
    requires Quiet(z, wall) && Around(z, read, wall, m, e)
    ensures Exists(z, wall)
  {
    // The clock just before and just after the change, were the midnight to fall between.
    var before, after := Near(z, wall, e.c - 1), Near(z, wall, e.c);
    if !Exists(z, wall) {
      SearchInAGap(z, read, wall, m, e.c, e.a, e.b);
    }
  }

  lemma InWindow(z: Zone, newYear: int, wall: int, from: int, m: int)
    requires Bounded(z, m) && newYear <= LocalMs(z, from) <= wall
    ensures newYear - m <= from <= wall + m
  {
    assert -m <= z.off(from) <= m;
  }

  /** The result is always after `from`. */
  lemma NextReleaseIsLater(z: Zone, read: int -> int, wall: int -> int, newYear: int -> int, year: int, from: int, m: int, e1: Edge, e2: Edge)
    requires Setting(z, read, wall, newYear, year, from, m, e1, e2)
    ensures from < NextRelease(read, wall(year), wall(year + 1), from)
  {
    var w, ny := wall(year + 1), newYear(year + 1);
    var r := Search(read, w);
    SearchWithinADay(z, read, w, m, e2);
    if w == ny {
      QuietMidnightExists(z, read, w, m, e2);
    }
    assert ny <= LocalMs(z, r);
    if r <= from {
      InWindow(z, newYear(year), w, from, m);
      StaysPast(z, ny, r, from, newYear(year) - m, w + m);
    }
  }

  /** The result reads as the midnight of this year or next wherever that midnight exists. */
  lemma NextReleaseReadsMidnight(z: Zone, read: int -> int, wall: int -> int, newYear: int -> int, year: int, from: int, m: int, e1: Edge, e2: Edge)
    requires Setting(z, read, wall, newYear, year, from, m, e1, e2)
    ensures var y := if Found(wall(year), e1.c, e1.a, e1.b) <= from then year + 1 else year;
            LocalMs(z, NextRelease(read, wall(year), wall(year + 1), from)) == wall(y) <==> Exists(z, wall(y))
  {
    SearchResult(z, read, wall(year), m, e1.c, e1.a, e1.b);
    SearchFindsWallTime(z, read, wall(year), m, e1.c, e1.a, e1.b);
    SearchFindsWallTime(z, read, wall(year + 1), m, e2.c, e2.a, e2.b);
  }

  /**
   A midnight the clock shows twice can be passed over: the search takes the later showing, or this year's first
   showing is past and the second is still to come.
   */
  predicate PassesOver(thisYears: int, nextYears: int, from: int, e1: Edge, e2: Edge) {
    var first := Repeated(thisYears, e1.c, e1.a, e1.b);
    if from < Found(thisYears, e1.c, e1.a, e1.b) then
      first && e1.c <= thisYears && from < thisYears - e1.a
    else
      || (first && thisYears < e1.c && from < thisYears - e1.b)
      || (Repeated(nextYears, e2.c, e2.a, e2.b) && e2.c <= nextYears)
  }

  /** Within the window a later instant is never shown more than a day earlier. */
  lemma NotAhead(z: Zone, u: int, r: int, lo: int, hi: int)
    requires FallsBackWithinADay(z, lo, hi) && lo <= u <= r <= hi
    ensures LocalMs(z, u) <= LocalMs(z, r) + 86_400_000
  {
  }

  lemma FoundInWindow(z: Zone, read: int -> int, wall: int, m: int, e: Edge)
    requires Around(z, read, wall, m, e)
    ensures wall - m <= Search(read, wall) <= wall + m
  {
    SearchResult(z, read, wall, m, e.c, e.a, e.b);
  }

  lemma NotEarlier(z: Zone, wall: int -> int, newYear: int -> int, year: int, from: int, u: int, y: int, lo: int, hi: int)
    requires FallsBackWithinADay(z, lo, hi) && lo <= from <= u <= hi && Yearly(wall, newYear) && Quiet(z, newYear(year))
    requires newYear(year) <= LocalMs(z, from) && LocalMs(z, u) == wall(y)
    ensures year <= y
  {
    if y < year {
      YearsInOrder(wall, newYear, y, year);
      StaysPast(z, newYear(year), from, u, lo, hi);
    }
  }

  /** Only this year's and next year's midnights can lie between `from` and the result. */
  lemma OnlyTheseYears(z: Zone, read: int -> int, wall: int -> int, newYear: int -> int, year: int, from: int, m: int, e1: Edge, e2: Edge, u: int, y: int)
    requires Setting(z, read, wall, newYear, year, from, m, e1, e2)
    requires from < u < NextRelease(read, wall(year), wall(year + 1), from)
    requires LocalMs(z, u) == wall(y)
    ensures y == year || (y == year + 1 && Search(read, wall(year)) <= from)
  {
    var r := NextRelease(read, wall(year), wall(year + 1), from);
    ReleaseInWindow(z, read, wall, newYear, year, from, m, e1, e2);
    NotEarlier(z, wall, newYear, year, from, u, y, newYear(year) - m, wall(year + 1) + m);
    NotAhead(z, u, r, newYear(year) - m, wall(year + 1) + m);
    NotLater(wall, newYear, y, if Search(read, wall(year)) <= from then year + 1 else year);
  }

  lemma NotLater(wall: int -> int, newYear: int -> int, y: int, year: int)
    requires Yearly(wall, newYear) && wall(y) <= wall(year) + 2 * 86_400_000
    ensures y <= year
  {
    assert year < y ==> wall(year) + 365 * 86_400_000 <= wall(y);
  }

  /** Both `from` and the result lie in the window, and the result within a day of the midnight it was searched for. */
  lemma ReleaseInWindow(z: Zone, read: int -> int, wall: int -> int, newYear: int -> int, year: int, from: int, m: int, e1: Edge, e2: Edge)
    requires Setting(z, read, wall, newYear, year, from, m, e1, e2)
    ensures newYear(year) - m <= from && NextRelease(read, wall(year), wall(year + 1), from) <= wall(year + 1) + m
    ensures LocalMs(z, NextRelease(read, wall(year), wall(year + 1), from))
         <= wall(if Search(read, wall(year)) <= from then year + 1 else year) + 86_400_000
  {
    var w1, w2 := wall(year), wall(year + 1);
    SearchWithinADay(z, read, w1, m, e1);
    SearchWithinADay(z, read, w2, m, e2);
    FoundInWindow(z, read, w1, m, e1);
    FoundInWindow(z, read, w2, m, e2);
    assert w1 <= w2 && newYear(year + 1) <= w2;
    InWindow(z, newYear(year), w2, from, m);
  }

  lemma {:induction false} YearsInOrder(wall: int -> int, newYear: int -> int, y: int, year: int)
    requires Yearly(wall, newYear) && y < year
    ensures wall(y) + 86_400_000 <= newYear(year)
    decreases year - y
  {
    assert newYear(y) <= wall(y) && wall(y) + 86_400_000 <= newYear(y + 1);
    if y + 1 < year {
      assert newYear(y + 1) <= wall(y + 1);
      YearsInOrder(wall, newYear, y + 1, year);
    }
  }

  ghost predicate MidnightBetween(z: Zone, wall: int -> int, from: int, r: int) {
    exists u :: from < u < r && IsMidnight(z, wall, u)
  }

  /** No midnight of the month and day lies strictly between `from` and the result, but for a midnight shown twice. */
  lemma NextReleaseIsTheNext(z: Zone, read: int -> int, wall: int -> int, newYear: int -> int, year: int, from: int, m: int, e1: Edge, e2: Edge)
    requires Setting(z, read, wall, newYear, year, from, m, e1, e2)
    ensures MidnightBetween(z, wall, from, NextRelease(read, wall(year), wall(year + 1), from))
       <==> PassesOver(wall(year), wall(year + 1), from, e1, e2)
  {
    var r := NextRelease(read, wall(year), wall(year + 1), from);
    if MidnightBetween(z, wall, from, r) {
      var u :| from < u < r && IsMidnight(z, wall, u);
      var y: int :| LocalMs(z, u) == wall(y);
      BetweenIsPassedOver(z, read, wall, newYear, year, from, m, e1, e2, u, y);
    }
    if PassesOver(wall(year), wall(year + 1), from, e1, e2) {
      PassedOver(z, read, wall, newYear, year, from, m, e1, e2);
    }
  }

  lemma BetweenIsPassedOver(z: Zone, read: int -> int, wall: int -> int, newYear: int -> int, year: int, from: int, m: int, e1: Edge, e2: Edge, u: int, y: int)
    requires Setting(z, read, wall, newYear, year, from, m, e1, e2)
    requires from < u < NextRelease(read, wall(year), wall(year + 1), from)
    requires LocalMs(z, u) == wall(y)
    ensures PassesOver(wall(year), wall(year + 1), from, e1, e2)
  {
    OnlyTheseYears(z, read, wall, newYear, year, from, m, e1, e2, u, y);
    SearchResult(z, read, wall(year), m, e1.c, e1.a, e1.b);
    if y == year {
      Candidates(z, wall(year), m, e1.c, e1.a, e1.b, u);
    } else {
      SearchResult(z, read, wall(year + 1), m, e2.c, e2.a, e2.b);
      Candidates(z, wall(year + 1), m, e2.c, e2.a, e2.b, u);
    }
  }

  /** This year's midnight is still to come, and is shown before it is found. */
  lemma PassedOverThisYear(z: Zone, read: int -> int, wall: int -> int, newYear: int -> int, year: int, from: int, m: int, e1: Edge, e2: Edge)
    requires Setting(z, read, wall, newYear, year, from, m, e1, e2)
    requires PassesOver(wall(year), wall(year + 1), from, e1, e2) && from < Search(read, wall(year))
    ensures MidnightBetween(z, wall, from, Search(read, wall(year)))
  {
    var w1 := wall(year);
    SearchResult(z, read, w1, m, e1.c, e1.a, e1.b);
    FirstShowingIsMissed(z, read, w1, m, e1);
    Witness(z, wall, from, Search(read, w1), w1 - e1.a, year);
  }

  /** It has been found already, and is shown again; or next year's is shown before it is found. */
  lemma PassedOverNextYear(z: Zone, read: int -> int, wall: int -> int, newYear: int -> int, year: int, from: int, m: int, e1: Edge, e2: Edge)
    requires Setting(z, read, wall, newYear, year, from, m, e1, e2)
    requires PassesOver(wall(year), wall(year + 1), from, e1, e2) && Search(read, wall(year)) <= from
    ensures MidnightBetween(z, wall, from, Search(read, wall(year + 1)))
  {
    var w1, w2 := wall(year), wall(year + 1);
    SearchResult(z, read, w1, m, e1.c, e1.a, e1.b);
    if Repeated(w1, e1.c, e1.a, e1.b) && w1 < e1.c && from < w1 - e1.b {
      SecondShowingIsMissed(z, read, wall, newYear, year, from, m, e1, e2);
      Witness(z, wall, from, Search(read, w2), w1 - e1.b, year);
    } else {
      NextFirstIsMissed(z, read, wall, newYear, year, from, m, e1, e2);
      Witness(z, wall, from, Search(read, w2), w2 - e2.a, year + 1);
    }
  }

  lemma PassedOver(z: Zone, read: int -> int, wall: int -> int, newYear: int -> int, year: int, from: int, m: int, e1: Edge, e2: Edge)
    requires Setting(z, read, wall, newYear, year, from, m, e1, e2)
    requires PassesOver(wall(year), wall(year + 1), from, e1, e2)
    ensures MidnightBetween(z, wall, from, NextRelease(read, wall(year), wall(year + 1), from))
  {
    if from < Search(read, wall(year)) {
      PassedOverThisYear(z, read, wall, newYear, year, from, m, e1, e2);
    } else {
      PassedOverNextYear(z, read, wall, newYear, year, from, m, e1, e2);
    }
  }

  lemma SecondShowingIsMissed(z: Zone, read: int -> int, wall: int -> int, newYear: int -> int, year: int, from: int, m: int, e1: Edge, e2: Edge)
    requires Setting(z, read, wall, newYear, year, from, m, e1, e2) && Repeated(wall(year), e1.c, e1.a, e1.b)
    ensures LocalMs(z, wall(year) - e1.b) == wall(year) && wall(year) - e1.b < Search(read, wall(year + 1))
  {
    assert newYear(year) <= wall(year) && wall(year) + 365 * 86_400_000 <= wall(year + 1);
    SecondShowingIsBefore(z, read, wall(year), wall(year + 1), m, e1, e2, newYear(year) - m);
  }

  lemma NextFirstIsMissed(z: Zone, read: int -> int, wall: int -> int, newYear: int -> int, year: int, from: int, m: int, e1: Edge, e2: Edge)
    requires Setting(z, read, wall, newYear, year, from, m, e1, e2)
    requires Repeated(wall(year + 1), e2.c, e2.a, e2.b) && e2.c <= wall(year + 1)
    ensures LocalMs(z, wall(year + 1) - e2.a) == wall(year + 1) && from < wall(year + 1) - e2.a < Search(read, wall(year + 1))
  {
    assert newYear(year) <= newYear(year + 1) <= wall(year + 1);
    FirstShowingIsAfter(z, read, wall(year + 1), newYear(year + 1), from, m, e2, newYear(year) - m);
  }

  lemma Witness(z: Zone, wall: int -> int, from: int, r: int, u: int, y: int)
    requires from < u < r && LocalMs(z, u) == wall(y)
    ensures MidnightBetween(z, wall, from, r)
  {
    assert IsMidnight(z, wall, u);
  }

  lemma FirstShowingIsMissed(z: Zone, read: int -> int, w: int, m: int, e: Edge)
    requires Around(z, read, w, m, e) && Repeated(w, e.c, e.a, e.b) && e.c <= w
    ensures LocalMs(z, w - e.a) == w && w - e.a < Search(read, w)
  {
    SearchInARepeatedHour(z, read, w, m, e.c, e.a, e.b);
  }

  lemma SecondShowingIsBefore(z: Zone, read: int -> int, w1: int, w2: int, m: int, e1: Edge, e2: Edge, lo: int)
    requires FallsBackWithinADay(z, lo, w2 + m) && lo <= w2 - m && w1 + 365 * 86_400_000 <= w2
    requires Around(z, read, w1, m, e1) && Around(z, read, w2, m, e2) && Repeated(w1, e1.c, e1.a, e1.b)
    ensures LocalMs(z, w1 - e1.b) == w1 && w1 - e1.b < Search(read, w2)
  {
    SearchInARepeatedHour(z, read, w1, m, e1.c, e1.a, e1.b);
    SearchWithinADay(z, read, w2, m, e2);
    SearchResult(z, read, w2, m, e2.c, e2.a, e2.b);
  }

  lemma FirstShowingIsAfter(z: Zone, read: int -> int, w: int, newYear: int, from: int, m: int, e: Edge, lo: int)
    requires FallsBackWithinADay(z, lo, w + m) && lo <= newYear - m
    requires Quiet(z, newYear) && LocalMs(z, from) < newYear <= w
    requires Around(z, read, w, m, e) && Repeated(w, e.c, e.a, e.b) && e.c <= w
    ensures LocalMs(z, w - e.a) == w && from < w - e.a < Search(read, w)
  {
    SearchInARepeatedHour(z, read, w, m, e.c, e.a, e.b);
    assert -m <= z.off(from) <= m;
    if w - e.a <= from {
      StaysPast(z, newYear, w - e.a, from, lo, w + m);
    }
  }

  /** The midnights of one month and day, by year. */
  function Midnights(month: int, day: int): int -> int {
    year => Wall(year, month, day)
  }

  function NewYears(): int -> int {
    year => NewYear(year)
  }

  lemma MidnightWithinItsYear(year: int, month: int, day: int)
    requires 1 <= month <= 12 && 1 <= day <= 31
    ensures NewYear(year) <= Wall(year, month, day) && Wall(year, month, day) + 86_400_000 <= NewYear(year + 1)
    ensures Wall(year, month, day) == NewYear(year) || Wall(year, month, day) >= NewYear(year) + 86_400_000
  {
    StaysInYear(year, month, day);
  }

  lemma AYearApart(year: int, month: int, day: int)
    requires 1 <= month <= 12
    ensures Wall(year, month, day) + 365 * 86_400_000 <= Wall(year + 1, month, day)
  {
    NextYearsDay(year, month, day);
  }

  lemma {:induction false} YearsApart(y1: int, y2: int, month: int, day: int)
    requires 1 <= month <= 12 && y1 < y2
    ensures Wall(y1, month, day) + 365 * 86_400_000 <= Wall(y2, month, day)
    decreases y2 - y1
  {
    AYearApart(y2 - 1, month, day);
    if y1 < y2 - 1 {
      YearsApart(y1, y2 - 1, month, day);
    }
  }

  lemma MidnightsAreYearly(month: int, day: int)
    requires 1 <= month <= 12 && 1 <= day <= 31
    ensures Yearly(Midnights(month, day), NewYears())
  {
    forall y: int
      ensures NewYears()(y) <= Midnights(month, day)(y) && Midnights(month, day)(y) + 86_400_000 <= NewYears()(y + 1)
      ensures Midnights(month, day)(y) == NewYears()(y) || Midnights(month, day)(y) >= NewYears()(y) + 86_400_000
    {
      MidnightWithinItsYear(y, month, day);
    }
    forall y1: int, y2: int | y1 < y2
      ensures Midnights(month, day)(y1) + 365 * 86_400_000 <= Midnights(month, day)(y2)
    {
      YearsApart(y1, y2, month, day);
    }
  }

  /**
   What the three results below ask of the zone from this new year to next year's midnight: whole-second offsets,
   quiet new years, at most one change around each of the two midnights, and no change beyond a day, well after the
   year 100. Nothing is asked of what its offsets have been before or will be after.
   */
  ghost predicate ZoneInGoodOrder(z: Zone, month: int, day: int, year: int, m: int, e1: Edge, e2: Edge) {
    && WholeSeconds(z) && Bounded(z, m)
    && FallsBackWithinADay(z, NewYear(year) - m, Wall(year + 1, month, day) + m) && WithinADay(e1) && WithinADay(e2)
    && Year100() + 2 * m <= NewYear(year)
    && Quiet(z, NewYear(year)) && Quiet(z, NewYear(year + 1))
    && ChangesOnceAround(z, Wall(year, month, day), m, e1)
    && ChangesOnceAround(z, Wall(year + 1, month, day), m, e2)
  }

  lemma After100(year: int)
    requires Year100() <= NewYear(year)
    ensures year >= 100
  {
    if year < 100 {
      YearsAreOrdered(year, 100);
    }
  }

  lemma GuessIsTheWallTime(year: int, month: int, day: int)
    requires year >= 100
    ensures DateUtc(year, month - 1, day, 0, 0, 0) == Wall(year, month, day)
  {
    assert FullYear(year) == year;
    assert MakeTime(0, 0, 0) == 0;
  }

  /** `year` is the year the zone's clock shows. */
  predicate ShowsYear(z: Zone, from: int, year: int) {
    NewYear(year) <= LocalMs(z, from) < NewYear(year + 1)
  }

  lemma SettingHolds(z: Zone, month: int, day: int, from: int, year: int, m: int, e1: Edge, e2: Edge)
    requires 1 <= month <= 12 && 1 <= day <= 31
    requires ZoneInGoodOrder(z, month, day, year, m, e1, e2)
    requires ShowsYear(z, from, year)
    ensures Setting(z, OffsetReader(z), Midnights(month, day), NewYears(), year, from, m, e1, e2)
  {
    MidnightsAreYearly(month, day);
    BothSearchable(z, month, day, year, m, e1, e2);
    assert Midnights(month, day)(year) == Wall(year, month, day) && Midnights(month, day)(year + 1) == Wall(year + 1, month, day);
    assert NewYears()(year) == NewYear(year) && NewYears()(year + 1) == NewYear(year + 1);
  }

  lemma BothSearchable(z: Zone, month: int, day: int, year: int, m: int, e1: Edge, e2: Edge)
    requires 1 <= month <= 12 && 1 <= day <= 31
    requires ZoneInGoodOrder(z, month, day, year, m, e1, e2)
    ensures Around(z, OffsetReader(z), Wall(year, month, day), m, e1)
    ensures Around(z, OffsetReader(z), Wall(year + 1, month, day), m, e2)
  {
    MidnightWithinItsYear(year, month, day);
    MidnightWithinItsYear(year + 1, month, day);
    SearchableMidnight(z, year, month, day, m, e1);
    SearchableMidnight(z, year + 1, month, day, m, e2);
  }

  lemma SearchableMidnight(z: Zone, year: int, month: int, day: int, m: int, e: Edge)
    requires WholeSeconds(z) && Bounded(z, m) && Year100() + 2 * m <= Wall(year, month, day)
    requires ChangesOnceAround(z, Wall(year, month, day), m, e) && WithinADay(e)
    ensures Around(z, OffsetReader(z), Wall(year, month, day), m, e)
  {
    MidnightIsWholeSecond(year, month, day);
    ReaderIsExact(z, m, Wall(year, month, day) - m);
  }

  lemma MidnightIsWholeSecond(year: int, month: int, day: int)
    ensures Wall(year, month, day) % 1_000 == 0
  {
    assert Wall(year, month, day) == 1_000 * (86_400 * MakeDay(year, month - 1, day));
  }

  lemma YearInZoneIsShown(z: Zone, from: int, year: int)
    requires ShowsYear(z, from, year)
    ensures YearInZone(z, from) == IntlYear(year)
    ensures YearInZone(z, from) == year <==> year >= 1
  {
    var ms := LocalMs(z, from);
    DayAtLeast(DayFromYear(year), ms);
    DayBefore(ms, DayFromYear(year + 1));
    YearIsUnique(ms / 86_400_000, year);
  }

  lemma ReleaseForm(z: Zone, month: int, day: int, from: int, year: int)
    requires year >= 100
    ensures MidnightAfter(z, year, month, day, from) ==
            NextRelease(OffsetReader(z), Wall(year, month, day), Wall(year + 1, month, day), from)
  {
    GuessIsTheWallTime(year, month, day);
    GuessIsTheWallTime(year + 1, month, day);
  }

  /** What is known of `from` and its zone, with the year its clock shows. */
  ghost predicate AskedFrom(z: Zone, month: int, day: int, from: int, year: int, m: int, e1: Edge, e2: Edge) {
    && 1 <= month <= 12 && 1 <= day <= 31
    && ShowsYear(z, from, year) && ZoneInGoodOrder(z, month, day, year, m, e1, e2)
  }

  lemma YearShown(z: Zone, month: int, day: int, from: int, year: int, m: int, e1: Edge, e2: Edge)
    requires AskedFrom(z, month, day, from, year, m, e1, e2)
    ensures NextLocalMidnight(z, month, day, from) ==
            NextRelease(OffsetReader(z), Wall(year, month, day), Wall(year + 1, month, day), from)
  {
    assert 0 <= m by { assert -m <= z.off(0) <= m; }
    After100(year);
    YearInZoneIsShown(z, from, year);
    ReleaseForm(z, month, day, from, year);
  }

  /** `r` reads as midnight of the year it was searched for, this one or the next, exactly when that midnight exists. */
  ghost predicate ReadsMidnight(z: Zone, w1: int, w2: int, from: int, e1: Edge, r: int) {
    var w := if Found(w1, e1.c, e1.a, e1.b) <= from then w2 else w1;
    LocalMs(z, r) == w <==> Exists(z, w)
  }

  /** A midnight lies strictly between `from` and `r` exactly when one that is shown twice is passed over. */
  ghost predicate NextUnlessPassedOver(z: Zone, midnights: int -> int, w1: int, w2: int, from: int, e1: Edge, e2: Edge, r: int) {
    MidnightBetween(z, midnights, from, r) <==> PassesOver(w1, w2, from, e1, e2)
  }

  lemma Results(z: Zone, month: int, day: int, from: int, year: int, m: int, e1: Edge, e2: Edge)
    requires AskedFrom(z, month, day, from, year, m, e1, e2)
    ensures var read, w1, w2 := OffsetReader(z), Wall(year, month, day), Wall(year + 1, month, day);
            var r := NextRelease(read, w1, w2, from);
            && from < r
            && ReadsMidnight(z, w1, w2, from, e1, r)
            && NextUnlessPassedOver(z, Midnights(month, day), w1, w2, from, e1, e2, r)
  {
    var read, midnights := OffsetReader(z), Midnights(month, day);
    SettingHolds(z, month, day, from, year, m, e1, e2);
    NextReleaseIsLater(z, read, midnights, NewYears(), year, from, m, e1, e2);
    NextReleaseReadsMidnight(z, read, midnights, NewYears(), year, from, m, e1, e2);
    NextReleaseIsTheNext(z, read, midnights, NewYears(), year, from, m, e1, e2);
  }

  /** The next midnight of a month and day is strictly later than `from`. */
  lemma NextLocalMidnightIsLater(z: Zone, month: int, day: int, from: int, year: int, m: int, e1: Edge, e2: Edge)
    requires AskedFrom(z, month, day, from, year, m, e1, e2)
    ensures from < NextLocalMidnight(z, month, day, from)
  {
    YearShown(z, month, day, from, year, m, e1, e2);
    Results(z, month, day, from, year, m, e1, e2);
  }

  /** It is a local midnight of that month and day, this year's or next year's, where there is one. */
  lemma NextLocalMidnightIsAMidnight(z: Zone, month: int, day: int, from: int, year: int, m: int, e1: Edge, e2: Edge)
    requires AskedFrom(z, month, day, from, year, m, e1, e2)
    ensures ReadsMidnight(z, Wall(year, month, day), Wall(year + 1, month, day), from, e1,
                          NextLocalMidnight(z, month, day, from))
  {
    YearShown(z, month, day, from, year, m, e1, e2);
    Results(z, month, day, from, year, m, e1, e2);
  }

  /** No midnight of the month and day is skipped on the way, but for one that the clock shows twice. */
  lemma NextLocalMidnightIsTheNext(z: Zone, month: int, day: int, from: int, year: int, m: int, e1: Edge, e2: Edge)
    requires AskedFrom(z, month, day, from, year, m, e1, e2)
    ensures NextUnlessPassedOver(z, Midnights(month, day), Wall(year, month, day), Wall(year + 1, month, day),
                                 from, e1, e2, NextLocalMidnight(z, month, day, from))
  {
    YearShown(z, month, day, from, year, m, e1, e2);
    Results(z, month, day, from, year, m, e1, e2);
  }

  // ---------------------------------------------------------------------------
  // A midnight passed over
  // ---------------------------------------------------------------------------

  /** A zone three hours ahead that goes back to two at one in the morning of 1 July 1970, so that midnight is shown twice. */
  function TwiceMidnight(): Zone {
    Zone(u => if u < 181 * 86_400_000 - 7_200_000 then 10_800_000 else 7_200_000, true)
  }

  lemma FirstOfJuly()
    ensures Wall(1970, 7, 1) == 181 * 86_400_000 && Wall(1971, 7, 1) == 546 * 86_400_000
    ensures NewYear(1970) == 0 && NewYear(1971) == 365 * 86_400_000
    ensures Year100() <= -1_000 * 86_400_000
  {
    TwelveMonths(false);
    YearsAreOrdered(100, 1970);
    assert DaysBeforeMonth(false, 6) == 181 by { FirstHalfYear(); }
    assert DayFromYear(1971) == 365;
    assert DayFromYear(1970) == 0;
  }

  lemma FirstHalfYear()
    ensures DaysBeforeMonth(false, 6) == 181
  {
    MonthsClosedForm(false, 6);
  }

  const FallsBack := Edge(181 * 86_400_000 - 7_200_000, 10_800_000, 7_200_000)

  lemma JulyIsQuietAtNewYear()
    ensures Quiet(TwiceMidnight(), NewYear(1970)) && Quiet(TwiceMidnight(), NewYear(1971))
  {
    FirstOfJuly();
  }

  lemma JulyChangesOnce()
    ensures ChangesOnceAround(TwiceMidnight(), Wall(1970, 7, 1), 10_800_000, FallsBack)
    ensures ChangesOnceAround(TwiceMidnight(), Wall(1971, 7, 1), 10_800_000, FallsBack)
  {
    FirstOfJuly();
  }

  lemma JulyIsBounded(lo: int, hi: int)
    ensures WholeSeconds(TwiceMidnight()) && Bounded(TwiceMidnight(), 10_800_000)
    ensures FallsBackWithinADay(TwiceMidnight(), lo, hi) && WithinADay(FallsBack)
  {
  }

  lemma JulyIsInGoodOrder(from: int)
    requires from == 181 * 86_400_000 - 14_400_000
    ensures AskedFrom(TwiceMidnight(), 7, 1, from, 1970, 10_800_000, FallsBack, FallsBack)
  {
    FirstOfJuly();
    JulyIsQuietAtNewYear();
    JulyChangesOnce();
    JulyIsBounded(NewYear(1970) - 10_800_000, Wall(1971, 7, 1) + 10_800_000);
    assert TwiceMidnight().off(from) == 10_800_000;
  }

  lemma JulyIsPassedOver(from: int)
    requires from == 181 * 86_400_000 - 14_400_000
    ensures PassesOver(Wall(1970, 7, 1), Wall(1971, 7, 1), from, FallsBack, FallsBack)
  {
    FirstOfJuly();
    JulyIsInGoodOrder(from);
    SettingHolds(TwiceMidnight(), 7, 1, from, 1970, 10_800_000, FallsBack, FallsBack);
    SearchResult(TwiceMidnight(), OffsetReader(TwiceMidnight()), Wall(1970, 7, 1), 10_800_000, FallsBack.c, FallsBack.a, FallsBack.b);
  }

  /** Asked an hour before the clock first shows midnight, `nextLocalMidnight` answers with the second showing. */
  lemma AMidnightIsPassedOver()
    ensures var from := 181 * 86_400_000 - 14_400_000;
            MidnightBetween(TwiceMidnight(), Midnights(7, 1), from, NextLocalMidnight(TwiceMidnight(), 7, 1, from))
  {
    var from := 181 * 86_400_000 - 14_400_000;
    JulyIsInGoodOrder(from);
    NextLocalMidnightIsTheNext(TwiceMidnight(), 7, 1, from, 1970, 10_800_000, FallsBack, FallsBack);
    JulyIsPassedOver(from);
  }
}
