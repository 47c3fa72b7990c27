/**
 `_fetch_last_known`: the walk back from today, over at most sixty days, to
 the first day whose cumulative meter reading is at least 0.0001. Month pages
 are read through a one-page cache keyed by the `year/month` text. `Walk` is
 the loop as the client runs it, recording the days it examined and the
 months it fetched; `Scan` is the same search fetching every day's page
 afresh, and `CacheIsTransparent` shows the cache changes nothing.
 */
module LastKnown {
  import opened Py
  import opened Calendar
  import Client

  /** The most days the walk examines. */
  const SearchBound := 60
  /** A reading at least this large ends the walk. */
  const FoundThreshold: real := 0.0001

  /** The month pages as the portal answers them, by (year, month). */
  type Pages = (int, int) -> Client.Reply<Json>

  /** The loop condition `last_known_good is None or last_known_good < 0.0001`. */
  predicate Searching(last: Option<real>) {
    last.None? || last.value < FoundThreshold
  }

  function YM(d: Date): (int, int) {
    (d.year, d.month)
  }

  /** Month `a` comes before month `b`. */
  predicate Earlier(a: (int, int), b: (int, int)) {
    a.0 < b.0 || (a.0 == b.0 && a.1 < b.1)
  }

  /** The day before lies in the same month or in an earlier one. */
  lemma PrevDayMonth(d: Date)
    requires Valid(d) && PrevDay(d).Some?
    ensures YM(PrevDay(d).value) == YM(d) || Earlier(YM(PrevDay(d).value), YM(d))
  {
  }

  /** `date_txt, delta, total = page[day - 1]` and `ensure_type([total], [(int, float)])`:
      the third cell of row `day - 1`. A missing row or one that does not hold
      exactly three cells is not a SuezError; a total that is not a number is. */
  function RowTotal(page: Json, day: int): (r: Result<real>)
    ensures r.Ok? <==>
      && Index(page, day - 1).Ok?
      && Unpack3(Index(page, day - 1).value).Ok?
      && Unpack3(Index(page, day - 1).value).value.2.JNum?
    ensures r.Ok? ==> r.value == Unpack3(Index(page, day - 1).value).value.2.n
    ensures r.Err? ==>
      (r.error.SuezError? <==> Index(page, day - 1).Ok? && Unpack3(Index(page, day - 1).value).Ok?)
    ensures r.Err? && r.error.SuezError? ==>
      r.error == SuezError(Mismatch(Unpack3(Index(page, day - 1).value).value.2, ExpectNumber))
  {
    var row :- Index(page, day - 1);
    var cells :- Unpack3(row);
    var _ :- Client.EnsureType([cells.2], [ExpectNumber]);
    Ok(cells.2.n)
  }

  /** The reading for day `d` with its month page fetched afresh. */
  function DayTotal(pages: Pages, d: Date): Result<real> {
    var page :- Client.FetchData(pages(d.year, d.month));
    RowTotal(page, d.day)
  }

  /** The outcome of the walk, the days it examined in order, and the months it fetched in order. */
  datatype Run = Run(outcome: Result<Option<real>>, steps: seq<Date>, fetched: seq<(int, int)>)

  /** The page for day `now`: fetched when `key` is not the text of its
      month, the cached `page` otherwise. */
  function Source(pages: Pages, now: Date, key: string, page: Json): (r: Result<Json>)
    requires Valid(now)
    ensures key != Client.MonthKey(now.year, now.month) ==> r == Client.FetchData(pages(now.year, now.month))
    ensures key == Client.MonthKey(now.year, now.month) ==> r == Ok(page)
  {
    if key != Client.MonthKey(now.year, now.month) then Client.FetchData(pages(now.year, now.month)) else Ok(page)
  }

  /** The page for day `now` and the reading taken from it. Only a page that
      is not `null` is read (`if candidate is not None`). */
  function Read(pages: Pages, now: Date, key: string, page: Json, last: Option<real>): (r: Result<(Json, Option<real>)>)
    requires Valid(now)
    ensures
      var source := Source(pages, now, key, page);
      && (r.Err? <==> source.Err? || (source.value != JNull && RowTotal(source.value, now.day).Err?))
      && (source.Err? ==> r == Err(source.error))
      && (r.Ok? ==> r.value.0 == source.value)
      && (r.Ok? && source.value == JNull ==> r.value.1 == last)
      && (r.Ok? && source.value != JNull ==>
            r.value.1 == Some(Unpack3(Index(source.value, now.day - 1).value).value.2.n))
  {
    var candidate :- Source(pages, now, key, page);
    if candidate == JNull then Ok((candidate, last))
    else
      var total :- RowTotal(candidate, now.day);
      Ok((candidate, Some(total)))
  }

  /** One pass of the loop from day `now` after `count` passes: `key` is the
      `year/month` text of the cached page `page` (`null` before the first
      fetch), `last` the last reading taken. */
  function Walk(pages: Pages, now: Date, key: string, page: Json, last: Option<real>, count: nat): (run: Run)
    requires Valid(now) && count <= SearchBound
    decreases SearchBound - count
    ensures |run.steps| <= SearchBound - count
    ensures run.steps == [] <==> !(Searching(last) && count < SearchBound)
    ensures run.steps == [] ==> run.outcome == Ok(last) && run.fetched == []
    ensures run.steps != [] ==> run.steps[0] == now
    ensures forall i | 0 <= i < |run.steps| :: Valid(run.steps[i])
    ensures forall i | 0 <= i < |run.steps| - 1 :: PrevDay(run.steps[i]) == Some(run.steps[i + 1])
  {
    if !(Searching(last) && count < SearchBound) then Run(Ok(last), [], [])
    else
      var here := Client.MonthKey(now.year, now.month);
      var fetched := if key != here then [YM(now)] else [];
      match Read(pages, now, key, page, last)
      case Err(e) => Run(Err(e), [now], fetched)
      case Ok((candidate, reading)) =>
        match PrevDay(now)
        case None => Run(Err(Escaped(OverflowError)), [now], fetched)
        case Some(prev) =>
          // `_year_month` is the text of `now`'s month from here on, fetched or not
          var rest := Walk(pages, prev, here, candidate, reading, count + 1);
          Run(rest.outcome, [now] + rest.steps, fetched + rest.fetched)
  }

  /** The months a walk from `now` fetched: the first pass fetches unless the
      cache (keyed `key`) already holds its month, and later fetches go strictly
      back in time, so no month is fetched twice. */
  predicate FetchOrder(fetched: seq<(int, int)>, steps: seq<Date>, now: Date, key: string)
    requires Valid(now)
  {
    && (steps != [] && key != Client.MonthKey(now.year, now.month) ==> fetched != [] && fetched[0] == YM(now))
    && (forall i | 0 <= i < |fetched| :: fetched[i] == YM(now) || Earlier(fetched[i], YM(now)))
    && (key == Client.MonthKey(now.year, now.month) ==> forall i | 0 <= i < |fetched| :: Earlier(fetched[i], YM(now)))
    && (forall i, j | 0 <= i < j < |fetched| :: Earlier(fetched[j], fetched[i]))
  }

  /** One pass keeps the fetch order: the month fetched now, if any, comes after
      every month the rest of the walk fetches. */
  lemma FetchOrderStep(now: Date, prev: Date, key: string, restFetched: seq<(int, int)>, restSteps: seq<Date>)
    requires Valid(now) && Valid(prev) && PrevDay(now) == Some(prev)
    requires FetchOrder(restFetched, restSteps, prev, Client.MonthKey(now.year, now.month))
    ensures FetchOrder((if key != Client.MonthKey(now.year, now.month) then [YM(now)] else []) + restFetched,
                       [now] + restSteps, now, key)
  {
    var here := Client.MonthKey(now.year, now.month);
    PrevDayMonth(now);
    Client.MonthKeyInjective(prev.year, prev.month, now.year, now.month);
    if YM(prev) == YM(now) {
      assert here == Client.MonthKey(prev.year, prev.month);
    }
    assert forall i | 0 <= i < |restFetched| :: Earlier(restFetched[i], YM(now));
  }

  /** How a pass that continues composes with the rest of the walk. */
  lemma WalkUnfolds(pages: Pages, now: Date, key: string, page: Json, last: Option<real>, count: nat)
    requires Valid(now) && count < SearchBound && Searching(last)
    requires Read(pages, now, key, page, last).Ok? && PrevDay(now).Some?
    ensures var r := Read(pages, now, key, page, last).value;
      var rest := Walk(pages, PrevDay(now).value, Client.MonthKey(now.year, now.month), r.0, r.1, count + 1);
      && Walk(pages, now, key, page, last, count).steps == [now] + rest.steps
      && Walk(pages, now, key, page, last, count).fetched ==
           (if key != Client.MonthKey(now.year, now.month) then [YM(now)] else []) + rest.fetched
  {
  }

  /** A pass that ends the walk examines `now` at most and fetches its month at most. */
  lemma WalkEnds(pages: Pages, now: Date, key: string, page: Json, last: Option<real>, count: nat)
    requires Valid(now) && count <= SearchBound
    requires !(Searching(last) && count < SearchBound && Read(pages, now, key, page, last).Ok? && PrevDay(now).Some?)
    ensures Walk(pages, now, key, page, last, count).steps == (if Searching(last) && count < SearchBound then [now] else [])
    ensures Walk(pages, now, key, page, last, count).fetched ==
      (if Searching(last) && count < SearchBound && key != Client.MonthKey(now.year, now.month) then [YM(now)] else [])
  {
  }

  /** A continuing pass composes its own fetch with the rest of the walk's. */
  lemma WalkFetchesStep(pages: Pages, now: Date, key: string, page: Json, last: Option<real>, count: nat)
    requires Valid(now) && count < SearchBound && Searching(last)
    requires Read(pages, now, key, page, last).Ok? && PrevDay(now).Some?
    requires var r := Read(pages, now, key, page, last).value;
      var rest := Walk(pages, PrevDay(now).value, Client.MonthKey(now.year, now.month), r.0, r.1, count + 1);
      FetchOrder(rest.fetched, rest.steps, PrevDay(now).value, Client.MonthKey(now.year, now.month))
    ensures FetchOrder(Walk(pages, now, key, page, last, count).fetched, Walk(pages, now, key, page, last, count).steps, now, key)
  {
    var r := Read(pages, now, key, page, last).value;
    var prev := PrevDay(now).value;
    var rest := Walk(pages, prev, Client.MonthKey(now.year, now.month), r.0, r.1, count + 1);
    WalkUnfolds(pages, now, key, page, last, count);
    FetchOrderStep(now, prev, key, rest.fetched, rest.steps);
  }

  lemma {:induction false} WalkFetches(pages: Pages, now: Date, key: string, page: Json, last: Option<real>, count: nat)
    requires Valid(now) && count <= SearchBound
    decreases SearchBound - count
    ensures FetchOrder(Walk(pages, now, key, page, last, count).fetched, Walk(pages, now, key, page, last, count).steps, now, key)
  {
    if Searching(last) && count < SearchBound && Read(pages, now, key, page, last).Ok? && PrevDay(now).Some? {
      var r := Read(pages, now, key, page, last).value;
      WalkFetches(pages, PrevDay(now).value, Client.MonthKey(now.year, now.month), r.0, r.1, count + 1);
      WalkFetchesStep(pages, now, key, page, last, count);
    } else {
      WalkEndsInOrder(pages, now, key, page, last, count);
    }
  }

  /** A pass that ends the walk fetches in order. */
  lemma WalkEndsInOrder(pages: Pages, now: Date, key: string, page: Json, last: Option<real>, count: nat)
    requires Valid(now) && count <= SearchBound
    requires !(Searching(last) && count < SearchBound && Read(pages, now, key, page, last).Ok? && PrevDay(now).Some?)
    ensures FetchOrder(Walk(pages, now, key, page, last, count).fetched, Walk(pages, now, key, page, last, count).steps, now, key)
  {
    WalkEnds(pages, now, key, page, last, count);
  }

  /** The reading of each day, or why it cannot be taken. */
  type Reading = Date -> Result<real>

  /** Each day's reading with its month page fetched afresh. */
  function Readings(pages: Pages): Reading {
    d => DayTotal(pages, d)
  }

  /** The reference search: the same loop over the readings of `reading`, one day at a time, without a cache. */
  function Scan(reading: Reading, d: Date, last: Option<real>, count: nat): (r: Result<Option<real>>)
    requires Valid(d) && count <= SearchBound
    decreases SearchBound - count
    ensures !(Searching(last) && count < SearchBound) ==> r == Ok(last)
    ensures r.Ok? && (last.Some? || count < SearchBound) ==> r.value.Some?
    ensures Searching(last) && count < SearchBound && reading(d).Err? ==> r == Err(reading(d).error)
  {
    if !(Searching(last) && count < SearchBound) then Ok(last)
    else
      var total :- reading(d);
      match PrevDay(d)
      case None => Err(Escaped(OverflowError))
      case Some(prev) => Scan(reading, prev, Some(total), count + 1)
  }

  /** The cached page is the page of `d`'s month whenever the key names that month. */
  predicate Cached(pages: Pages, d: Date, key: string, page: Json)
    requires Valid(d)
  {
    key == Client.MonthKey(d.year, d.month) ==> Client.FetchData(pages(d.year, d.month)) == Ok(page)
  }

  /** With a faithful cache, one pass reads what a fresh fetch would. */
  lemma ReadIsDayTotal(pages: Pages, d: Date, key: string, page: Json, last: Option<real>)
    requires Valid(d) && Cached(pages, d, key, page)
    ensures Read(pages, d, key, page, last).Ok? <==> DayTotal(pages, d).Ok?
    ensures DayTotal(pages, d).Ok? ==>
      Read(pages, d, key, page, last) == Ok((Client.FetchData(pages(d.year, d.month)).value, Some(DayTotal(pages, d).value)))
    ensures DayTotal(pages, d).Err? ==> Read(pages, d, key, page, last) == Err(DayTotal(pages, d).error)
  {
  }

  /** A pass that reads its day and steps back ends as the walk from the day before does. */
  lemma WalkOutcomeUnfolds(pages: Pages, now: Date, key: string, page: Json, last: Option<real>, count: nat)
    requires Valid(now) && count < SearchBound && Searching(last)
    requires Read(pages, now, key, page, last).Ok? && PrevDay(now).Some?
    ensures var r := Read(pages, now, key, page, last).value;
      Walk(pages, now, key, page, last, count).outcome ==
      Walk(pages, PrevDay(now).value, Client.MonthKey(now.year, now.month), r.0, r.1, count + 1).outcome
  {
  }

  /** A searching pass that cannot read its day, or cannot step back, ends the walk with that failure. */
  lemma WalkOutcomeStops(pages: Pages, now: Date, key: string, page: Json, last: Option<real>, count: nat)
    requires Valid(now) && count < SearchBound && Searching(last)
    requires !(Read(pages, now, key, page, last).Ok? && PrevDay(now).Some?)
    ensures Walk(pages, now, key, page, last, count).outcome ==
      if Read(pages, now, key, page, last).Err? then Err(Read(pages, now, key, page, last).error)
      else Err(Escaped(OverflowError))
  {
  }

  /** Keying the cache by the `year/month` text loses nothing: the walk ends as the reference search does. */
  lemma {:induction false} CacheIsTransparent(pages: Pages, d: Date, key: string, page: Json, last: Option<real>, count: nat)
    requires Valid(d) && count <= SearchBound
    requires Cached(pages, d, key, page)
    ensures Walk(pages, d, key, page, last, count).outcome == Scan(Readings(pages), d, last, count)
    decreases SearchBound - count
  {
    if Searching(last) && count < SearchBound {
      ReadIsDayTotal(pages, d, key, page, last);
      assert Readings(pages)(d) == DayTotal(pages, d);
      if DayTotal(pages, d).Ok? && PrevDay(d).Some? {
        var prev := PrevDay(d).value;
        var here := Client.MonthKey(d.year, d.month);
        var r := Read(pages, d, key, page, last).value;
        Client.MonthKeyInjective(prev.year, prev.month, d.year, d.month);
        assert Cached(pages, prev, here, r.0);
        CacheIsTransparent(pages, prev, here, r.0, r.1, count + 1);
        WalkOutcomeUnfolds(pages, d, key, page, last, count);
        ScanUnfolds(Readings(pages), d, last, count);
      } else {
        WalkOutcomeStops(pages, d, key, page, last, count);
      }
    }
  }

  /** The walk from today with nothing cached, as `_fetch_last_known(today)` runs it. */
  function Trace(pages: Pages, today: Date): (run: Run)
    requires Valid(today)
    ensures 1 <= |run.steps| <= SearchBound
    ensures run.steps[0] == today
    ensures forall i | 0 <= i < |run.steps| :: Valid(run.steps[i])
    ensures forall i | 0 <= i < |run.steps| - 1 :: PrevDay(run.steps[i]) == Some(run.steps[i + 1])
    ensures run.fetched != [] && run.fetched[0] == YM(today)
    ensures forall i, j | 0 <= i < j < |run.fetched| :: Earlier(run.fetched[j], run.fetched[i])
  {
    WalkFetches(pages, today, "", JNull, None, 0);
    Walk(pages, today, "", JNull, None, 0)
  }

  /** Each month page is fetched at most once. */
  lemma FetchedOnce(pages: Pages, today: Date)
    requires Valid(today)
    ensures forall i, j | 0 <= i < j < |Trace(pages, today).fetched| ::
      Trace(pages, today).fetched[i] != Trace(pages, today).fetched[j]
  {
  }

  /** `_fetch_last_known(today)`: never `None` when it returns, and equal to the
      reference search. */
  function Search(pages: Pages, today: Date): (r: Result<Option<real>>)
    requires Valid(today)
    ensures r == Scan(Readings(pages), today, None, 0)
    ensures r.Ok? ==> r.value.Some?
  {
    CacheIsTransparent(pages, today, "", JNull, None, 0);
    Trace(pages, today).outcome
  }

  /** The day `k` days before `d`, if the calendar reaches it. */
  function Back(d: Date, k: nat): (r: Option<Date>)
    requires Valid(d)
    ensures r.Some? ==> Valid(r.value)
    decreases k
  {
    if k == 0 then Some(d)
    else match PrevDay(d)
      case None => None
      case Some(p) => Back(p, k - 1)
  }

  /** The readings of the `n` days from `d` back are all available. */
  predicate Readable(reading: Reading, d: Date, n: nat)
    requires Valid(d)
  {
    forall i | 0 <= i < n :: Back(d, i).Some? && reading(Back(d, i).value).Ok?
  }

  function ReadingAt(reading: Reading, d: Date, i: nat): real
    requires Valid(d) && Back(d, i).Some? && reading(Back(d, i).value).Ok?
  {
    reading(Back(d, i).value).value
  }

  lemma BackShift(d: Date, i: nat)
    requires Valid(d) && PrevDay(d).Some?
    ensures Back(d, i + 1) == Back(PrevDay(d).value, i)
  {
  }

  /** A pass of the reference search that reads a day and steps back continues from the day before. */
  lemma ScanUnfolds(reading: Reading, d: Date, last: Option<real>, count: nat)
    requires Valid(d) && count < SearchBound && Searching(last)
    requires reading(d).Ok? && PrevDay(d).Some?
    ensures Scan(reading, d, last, count) == Scan(reading, PrevDay(d).value, Some(reading(d).value), count + 1)
  {
  }

  /** Seen from the day before `d`, the days and readings are those of `d` shifted by one. */
  lemma ShiftBack(reading: Reading, d: Date, n: nat)
    requires Valid(d) && 1 <= n
    requires Readable(reading, d, n) && Back(d, n).Some?
    ensures PrevDay(d).Some?
    ensures Readable(reading, PrevDay(d).value, n - 1) && Back(PrevDay(d).value, n - 1) == Back(d, n)
    ensures forall i | 0 <= i < n - 1 :: ReadingAt(reading, PrevDay(d).value, i) == ReadingAt(reading, d, i + 1)
  {
    assert Back(d, n).Some?;
    var prev := PrevDay(d).value;
    forall i | 0 <= i <= n - 1 ensures Back(prev, i) == Back(d, i + 1) {
      BackShift(d, i);
    }
  }

  lemma {:induction false} ScanStops(reading: Reading, d: Date, last: Option<real>, count: nat, n: nat)
    requires Valid(d) && 1 <= n && count + n <= SearchBound && Searching(last)
    requires Readable(reading, d, n) && Back(d, n).Some?
    requires forall i | 0 <= i < n - 1 :: ReadingAt(reading, d, i) < FoundThreshold
    requires ReadingAt(reading, d, n - 1) >= FoundThreshold || count + n == SearchBound
    ensures Scan(reading, d, last, count) == Ok(Some(ReadingAt(reading, d, n - 1)))
    decreases n, 1
  {
    if n > 1 {
      ScanContinues(reading, d, last, count, n);
    } else {
      assert Back(d, 0) == Some(d);
      assert PrevDay(d).Some? by {
        assert Back(d, 1).Some?;
      }
      ScanUnfolds(reading, d, last, count);
    }
  }

  /** The step of `ScanStops` when the first day's reading is below the threshold. */
  lemma {:induction false} ScanContinues(reading: Reading, d: Date, last: Option<real>, count: nat, n: nat)
    requires Valid(d) && 2 <= n && count + n <= SearchBound && Searching(last)
    requires Readable(reading, d, n) && Back(d, n).Some?
    requires forall i | 0 <= i < n - 1 :: ReadingAt(reading, d, i) < FoundThreshold
    requires ReadingAt(reading, d, n - 1) >= FoundThreshold || count + n == SearchBound
    ensures Scan(reading, d, last, count) == Ok(Some(ReadingAt(reading, d, n - 1)))
    decreases n, 0
  {
    assert Back(d, 0) == Some(d);
    var t := ReadingAt(reading, d, 0);
    ShiftBack(reading, d, n);
    var prev := PrevDay(d).value;
    ScanUnfolds(reading, d, last, count);
    ScanStops(reading, prev, Some(t), count + 1, n - 1);
  }

  lemma {:induction false} ScanFails(reading: Reading, d: Date, last: Option<real>, count: nat, n: nat)
    requires Valid(d) && count + n < SearchBound && Searching(last)
    requires Readable(reading, d, n) && Back(d, n).Some?
    requires forall i | 0 <= i < n :: ReadingAt(reading, d, i) < FoundThreshold
    requires reading(Back(d, n).value).Err?
    ensures Scan(reading, d, last, count) == Err(reading(Back(d, n).value).error)
    decreases n
  {
    assert Back(d, 0) == Some(d);
    if n > 0 {
      var t := ReadingAt(reading, d, 0);
      ShiftBack(reading, d, n);
      var prev := PrevDay(d).value;
      ScanUnfolds(reading, d, last, count);
      ScanFails(reading, prev, Some(t), count + 1, n - 1);
    }
  }

  /** The search returns the reading of the first day at or above the
      threshold; if none of the sixty days reaches it, the reading of the
      sixtieth day, not 0. Every examined day is stepped back from, so the day
      after the last one examined must exist too. */
  lemma SearchStopsAtFirstFound(pages: Pages, today: Date, n: nat)
    requires Valid(today) && 1 <= n <= SearchBound
    requires Readable(Readings(pages), today, n) && Back(today, n).Some?
    requires forall i | 0 <= i < n - 1 :: ReadingAt(Readings(pages), today, i) < FoundThreshold
    requires ReadingAt(Readings(pages), today, n - 1) >= FoundThreshold || n == SearchBound
    ensures Search(pages, today) == Ok(Some(ReadingAt(Readings(pages), today, n - 1)))
  {
    ScanStops(Readings(pages), today, None, 0, n);
  }

  /** A reading that cannot be taken ends the search with its error, whatever
      kind it is: a page envelope or a total that is not a number (SuezError),
      or a missing row, a row without exactly three cells, a failed fetch. */
  lemma SearchFailsAt(pages: Pages, today: Date, n: nat)
    requires Valid(today) && n < SearchBound
    requires Readable(Readings(pages), today, n) && Back(today, n).Some?
    requires forall i | 0 <= i < n :: ReadingAt(Readings(pages), today, i) < FoundThreshold
    requires DayTotal(pages, Back(today, n).value).Err?
    ensures Search(pages, today) == Err(DayTotal(pages, Back(today, n).value).error)
  {
    assert Readings(pages)(Back(today, n).value) == DayTotal(pages, Back(today, n).value);
    ScanFails(Readings(pages), today, None, 0, n);
  }
}
