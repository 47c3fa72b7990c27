/**
 `SuezClient` itself and its `_fetch_data` refresh: log in, discover the
 counter when none is configured, run the last-known search, fetch the month
 pages and the history, then convert the payloads field by field, each under
 its own "Cannot …" error, and finally mark the client successful and up to
 date. The portal is a set of functions from request URLs to replies, and
 today's date is a parameter.
 */
module DataUpdate {
  import opened Py
  import opened Text
  import opened Calendar
  import Client
  import Scrape
  import LastKnown

  /** The first meter reading of yesterday must exceed this for the data to count as up to date. */
  const Epsilon: real := 0.000001

  /** The client's state: its configuration and the fields a refresh assigns.
      Fields that hold Python `None` before the first refresh are `JNull` or `None`. */
  datatype SuezClient = SuezClient(
    username: string,
    password: string,
    counterId: Option<string>,
    provider: string,
    success: bool,
    uptodate: bool,
    attribution: Option<string>,
    last: Json,
    thisMonth: Option<map<Json, Json>>,
    prevMonth: Option<map<Json, Json>>,
    history: Option<map<Json, Json>>,
    thisYearOverall: Json,
    lastYearOverall: Json,
    highestMonthly: Json,
    lastKnown: Option<real>)

  /** `SuezClient(username, password, counter_id, provider)` */
  function New(username: string, password: string, counterId: Option<string>, provider: Option<string>): (c: SuezClient)
    ensures c.username == username && c.password == password && c.counterId == counterId
    ensures c.provider == Client.ChooseProvider(provider)
    ensures !c.success && !c.uptodate && c.attribution.None? && c.lastKnown.None?
    ensures c.last == JNull && c.thisMonth.None? && c.prevMonth.None? && c.history.None?
    ensures c.thisYearOverall == JNull && c.lastYearOverall == JNull && c.highestMonthly == JNull
  {
    SuezClient(username, password, counterId, Client.ChooseProvider(provider), false, false, None,
               JNull, None, None, None, JNull, JNull, JNull, None)
  }

  /** The state a refresh leaves behind, and the exception it raises, if any.
      A failed refresh keeps whatever it assigned before failing. */
  datatype Updated = Updated(client: SuezClient, raised: Option<Error>) {
    predicate IsFailure() {
      raised.Some?
    }

    function PropagateFailure(): Updated
      requires IsFailure()
    {
      this
    }

    function Extract(): SuezClient
      requires !IsFailure()
    {
      client
    }
  }

  // ---------------------------------------------------------------------------
  // Dict comprehensions over payloads

  /** Where a comprehension finds its key (`j[keyAt]`) and value (`j[lo:hi]`) in each row. */
  datatype Shape = Shape(keyAt: int, lo: Option<int>, hi: Option<int>)

  /** `{j[0]: j[1:] for j in page}` */
  const MonthShape := Shape(0, Some(1), None)
  /** `{j[3]: j[1:3] for j in history[:-3]}` */
  const HistoryShape := Shape(3, Some(1), Some(3))

  /** One row's key and value. The key is read first, then the value, and the
      key is hashed on insertion: lists and dicts are rejected then. */
  function Entry(row: Json, shape: Shape): (r: Result<(Json, Json)>)
    ensures r.Ok? <==> Index(row, shape.keyAt).Ok? && Hashable(Index(row, shape.keyAt).value)
    ensures r.Ok? ==> r.value.0 == Index(row, shape.keyAt).value
    ensures r.Ok? ==> Slice(row, shape.lo, shape.hi) == Ok(r.value.1)
  {
    var key :- Index(row, shape.keyAt);
    // indexing succeeded, so `row` is a list or a string and slicing it succeeds
    var value := Slice(row, shape.lo, shape.hi).value;
    if Hashable(key) then Ok((key, value)) else Err(Escaped(TypeError))
  }

  /** Row `i` is the last row with key `k`: its value is the one the dict keeps. */
  predicate LastFor(rows: seq<Json>, shape: Shape, i: nat, k: Json) {
    && i < |rows|
    && Entry(rows[i], shape).Ok?
    && Entry(rows[i], shape).value.0 == k
    && forall j | i < j < |rows| :: Entry(rows[j], shape).Ok? ==> Entry(rows[j], shape).value.0 != k
  }

  /** The comprehension over `rows`, row by row. The first row that cannot
      give an entry raises. */
  function BuildMap(rows: seq<Json>, shape: Shape): (r: Result<map<Json, Json>>)
    decreases |rows|
    ensures r.Ok? <==> forall i | 0 <= i < |rows| :: Entry(rows[i], shape).Ok?
    ensures r.Err? ==>
      exists i | 0 <= i < |rows| ::
        && Entry(rows[i], shape).Err?
        && r.error == Entry(rows[i], shape).error
        && forall j | 0 <= j < i :: Entry(rows[j], shape).Ok?
  {
    if |rows| == 0 then Ok(map[])
    else
      var front := rows[..|rows| - 1];
      assert forall i | 0 <= i < |front| :: front[i] == rows[i];
      var m :- BuildMap(front, shape);
      var e :- Entry(rows[|rows| - 1], shape);
      Ok(m[e.0 := e.1])
  }

  /** The last row's entry is added to the dict of the rows before it. */
  lemma BuildMapSnoc(rows: seq<Json>, shape: Shape)
    requires |rows| > 0 && BuildMap(rows, shape).Ok?
    ensures BuildMap(rows[..|rows| - 1], shape).Ok? && Entry(rows[|rows| - 1], shape).Ok?
    ensures BuildMap(rows, shape).value ==
      BuildMap(rows[..|rows| - 1], shape).value[Entry(rows[|rows| - 1], shape).value.0 := Entry(rows[|rows| - 1], shape).value.1]
  {
  }

  /** A row that is the last with its key among the rows before row `n`, and
      whose key row `n` does not carry, stays the last with it. */
  lemma LastForExtends(rows: seq<Json>, shape: Shape, i: nat, k: Json)
    requires |rows| > 0 && LastFor(rows[..|rows| - 1], shape, i, k)
    requires Entry(rows[|rows| - 1], shape).Ok? && Entry(rows[|rows| - 1], shape).value.0 != k
    ensures LastFor(rows, shape, i, k)
  {
    var front := rows[..|rows| - 1];
    assert forall j | 0 <= j < |front| :: front[j] == rows[j];
  }

  /** Every row's key is in the dict the comprehension builds. */
  lemma {:induction false} BuildMapKeys(rows: seq<Json>, shape: Shape)
    requires BuildMap(rows, shape).Ok?
    ensures forall i | 0 <= i < |rows| :: Entry(rows[i], shape).value.0 in BuildMap(rows, shape).value
    decreases |rows|
  {
    if |rows| > 0 {
      var n := |rows| - 1;
      var front := rows[..n];
      BuildMapSnoc(rows, shape);
      BuildMapKeys(front, shape);
      forall i | 0 <= i < n ensures Entry(rows[i], shape).value.0 in BuildMap(rows, shape).value {
        assert front[i] == rows[i];
      }
    }
  }

  /** Each key of the dict holds the value of the last row carrying it. */
  lemma {:induction false} BuildMapLastWins(rows: seq<Json>, shape: Shape)
    requires BuildMap(rows, shape).Ok?
    ensures forall k | k in BuildMap(rows, shape).value ::
      exists i: nat :: LastFor(rows, shape, i, k) && BuildMap(rows, shape).value[k] == Entry(rows[i], shape).value.1
    decreases |rows|
  {
    if |rows| > 0 {
      var n := |rows| - 1;
      var front := rows[..n];
      BuildMapSnoc(rows, shape);
      BuildMapLastWins(front, shape);
      var m := BuildMap(front, shape).value;
      var e := Entry(rows[n], shape).value;
      var r := BuildMap(rows, shape).value;
      forall k | k in r ensures exists i: nat :: LastFor(rows, shape, i, k) && r[k] == Entry(rows[i], shape).value.1 {
        if k == e.0 {
          assert LastFor(rows, shape, n, k);
        } else {
          var i: nat :| LastFor(front, shape, i, k) && m[k] == Entry(front[i], shape).value.1;
          LastForExtends(rows, shape, i, k);
          assert front[i] == rows[i];
        }
      }
    }
  }

  /** The dict a comprehension builds from a payload: the rows are what iterating it yields. */
  function Table(payload: Json, shape: Shape): (r: Result<map<Json, Json>>)
    ensures Iter(payload).Err? ==> r == Err(Iter(payload).error)
    ensures Iter(payload).Ok? ==> r == BuildMap(Iter(payload).value, shape)
  {
    var rows :- Iter(payload);
    BuildMap(rows, shape)
  }

  /** What the conversion loop accepts of a dict: every key a string, every
      value passing the two-number check. */
  predicate WellTyped(m: map<Json, Json>) {
    forall k | k in m :: k.JStr? && Client.NumericPair(m[k])
  }

  /** Only the values the dict keeps are checked: a row overwritten by a later
      row with the same key is never looked at, whatever its cells hold. */
  lemma ShadowedRowUnchecked(tag: string, bad: Json, good: seq<real>)
    requires |good| == 2
    ensures BuildMap([JList([JStr(tag), bad]), JList([JStr(tag), JNum(good[0]), JNum(good[1])])], MonthShape)
         == Ok(map[JStr(tag) := JList([JNum(good[0]), JNum(good[1])])])
    ensures WellTyped(map[JStr(tag) := JList([JNum(good[0]), JNum(good[1])])])
  {
    var first := [JStr(tag), bad];
    var second := [JStr(tag), JNum(good[0]), JNum(good[1])];
    var rows := [JList(first), JList(second)];
    assert SliceBounds(Some(1), None, 2) == (1, 2);
    assert first[1..2] == [bad];
    assert Entry(rows[0], MonthShape) == Ok((JStr(tag), JList([bad])));
    assert SliceBounds(Some(1), None, 3) == (1, 3);
    assert second[1..3] == [JNum(good[0]), JNum(good[1])];
    assert Entry(rows[1], MonthShape) == Ok((JStr(tag), JList([JNum(good[0]), JNum(good[1])])));
    assert rows[..1] == [rows[0]];
    assert rows[..1][..0] == [];
    assert BuildMap(rows[..1], MonthShape) == Ok(map[JStr(tag) := JList([bad])]);
    assert BuildMap(rows, MonthShape).Ok?;
    BuildMapSnoc(rows, MonthShape);
    assert map[JStr(tag) := JList([bad])][JStr(tag) := JList([JNum(good[0]), JNum(good[1])])]
        == map[JStr(tag) := JList([JNum(good[0]), JNum(good[1])])];
    Client.NumericPairOfList([JNum(good[0]), JNum(good[1])]);
  }

  // ---------------------------------------------------------------------------
  // The conversion stages, in source order

  const YesterdayFailed := SuezError(Text("Cannot read yesterday data"))
  const ThisMonthFailed := SuezError(Text("Cannot read this month data"))
  const PrevMonthFailed := SuezError(Text("Cannot read previous month data"))
  const HighestFailed := SuezError(Text("Cannot convert highest_monthly"))
  const LastYearFailed := SuezError(Text("Cannot convert last_year_overall"))
  const ThisYearFailed := SuezError(Text("Cannot convert this_year_overall"))
  const HistoryFailed := SuezError(Text("Cannot convert history"))

  /** The stage (1 to 7) whose failure raises `e`, or 0 for any other exception. */
  function StageOf(e: Error): nat {
    if e == YesterdayFailed then 1
    else if e == ThisMonthFailed then 2
    else if e == PrevMonthFailed then 3
    else if e == HighestFailed then 4
    else if e == LastYearFailed then 5
    else if e == ThisYearFailed then 6
    else if e == HistoryFailed then 7
    else 0
  }

  lemma StageNumbers()
    ensures StageOf(YesterdayFailed) == 1 && StageOf(ThisMonthFailed) == 2 && StageOf(PrevMonthFailed) == 3
    ensures StageOf(HighestFailed) == 4 && StageOf(LastYearFailed) == 5 && StageOf(ThisYearFailed) == 6
    ensures StageOf(HistoryFailed) == 7
  {
  }

  /** `last` as the first stage leaves it: a list or string slice passing the two-number check. */
  predicate LastConverted(last: Json) {
    (last.JList? || last.JStr?) && Client.NumericPair(last)
  }

  predicate TableConverted(t: Option<map<Json, Json>>) {
    t.Some? && WellTyped(t.value)
  }

  /** The fields of the first `n` stages hold converted values. */
  predicate ConvertedUpTo(d: SuezClient, n: nat) {
    && (n >= 1 ==> LastConverted(d.last))
    && (n >= 2 ==> TableConverted(d.thisMonth))
    && (n >= 3 ==> TableConverted(d.prevMonth))
    && (n >= 4 ==> d.highestMonthly.JNum?)
    && (n >= 5 ==> d.lastYearOverall.JNum?)
    && (n >= 6 ==> d.thisYearOverall.JNum?)
    && (n >= 7 ==> TableConverted(d.history))
  }

  /** Every payload field holds a converted value. */
  predicate Converted(d: SuezClient) {
    ConvertedUpTo(d, 7)
  }

  /** The fields of the stages after stage `n` are as in `c`. */
  predicate UntouchedAfter(c: SuezClient, d: SuezClient, n: nat) {
    && (n < 1 ==> d.last == c.last)
    && (n < 2 ==> d.thisMonth == c.thisMonth)
    && (n < 3 ==> d.prevMonth == c.prevMonth)
    && (n < 4 ==> d.highestMonthly == c.highestMonthly)
    && (n < 5 ==> d.lastYearOverall == c.lastYearOverall)
    && (n < 6 ==> d.thisYearOverall == c.thisYearOverall)
    && (n < 7 ==> d.history == c.history)
  }

  /** `d` differs from `c` at most in the payload fields. */
  predicate OnlyPayloadFields(c: SuezClient, d: SuezClient) {
    d.(last := c.last, thisMonth := c.thisMonth, prevMonth := c.prevMonth, highestMonthly := c.highestMonthly,
       lastYearOverall := c.lastYearOverall, thisYearOverall := c.thisYearOverall, history := c.history) == c
  }

  /** Stage 1, `last = yesterday_page[day - 1][1:]`: the row's cells after the
      date. The slice is assigned before it is checked. */
  function ReadLast(c: SuezClient, page: Json, day: int): (u: Updated)
    ensures Index(page, day - 1).Err? ==> u == Updated(c, Some(YesterdayFailed))
    ensures Index(page, day - 1).Ok? ==> u.client == c.(last := u.client.last)
    ensures Index(page, day - 1).Ok? && Index(page, day - 1).value.JList? ==>
      var cells := Index(page, day - 1).value.items;
      u.client.last == JList(if |cells| == 0 then [] else cells[1..])
    ensures Index(page, day - 1).Ok? && Index(page, day - 1).value.JStr? ==>
      var text := Index(page, day - 1).value.s;
      u.client.last == JStr(if |text| == 0 then "" else text[1..])
    ensures u.raised.None? <==>
      && Index(page, day - 1).Ok?
      && (Index(page, day - 1).value.JList? || Index(page, day - 1).value.JStr?)
      && Client.NumericPair(u.client.last)
    ensures u.raised.None? ==> LastConverted(u.client.last)
    ensures u.raised.None? ==> Slice(Index(page, day - 1).value, Some(1), None) == Ok(u.client.last)
    ensures u.raised.Some? ==> u.raised == Some(YesterdayFailed)
  {
    match Index(page, day - 1)
    case Err(_) => Updated(c, Some(YesterdayFailed))
    case Ok(row) =>
      match Slice(row, Some(1), None)
      case Err(_) => Updated(c, Some(YesterdayFailed))
      case Ok(last) =>
        var d := c.(last := last);
        if Client.NumericPair(last) then Updated(d, None) else Updated(d, Some(YesterdayFailed))
  }

  /** A dict stage: the dict is assigned once built, then its entries are checked. */
  function ReadTable(payload: Json, shape: Shape, failed: Error): (r: (Option<map<Json, Json>>, Option<Error>))
    ensures r.0.None? <==> Table(payload, shape).Err?
    ensures r.0.Some? ==> r.0.value == Table(payload, shape).value
    ensures r.1.None? <==> TableConverted(r.0)
    ensures r.1.Some? ==> r.1 == Some(failed)
  {
    match Table(payload, shape)
    case Err(_) => (None, Some(failed))
    case Ok(m) => (Some(m), if WellTyped(m) then None else Some(failed))
  }

  /** Stage 2, `this_month` from today's page. */
  function ReadThisMonth(c: SuezClient, page: Json): (u: Updated)
    ensures Table(page, MonthShape).Err? ==> u == Updated(c, Some(ThisMonthFailed))
    ensures Table(page, MonthShape).Ok? ==> u.client == c.(thisMonth := Some(Table(page, MonthShape).value))
    ensures u.raised.None? <==> Table(page, MonthShape).Ok? && WellTyped(Table(page, MonthShape).value)
    ensures u.raised.None? ==> TableConverted(u.client.thisMonth)
    ensures u.raised.Some? ==> u.raised == Some(ThisMonthFailed)
  {
    var (t, raised) := ReadTable(page, MonthShape, ThisMonthFailed);
    Updated(if t.Some? then c.(thisMonth := t) else c, raised)
  }

  /** Stage 3, `prev_month` from the previous month's page. */
  function ReadPrevMonth(c: SuezClient, page: Json): (u: Updated)
    ensures Table(page, MonthShape).Err? ==> u == Updated(c, Some(PrevMonthFailed))
    ensures Table(page, MonthShape).Ok? ==> u.client == c.(prevMonth := Some(Table(page, MonthShape).value))
    ensures u.raised.None? <==> Table(page, MonthShape).Ok? && WellTyped(Table(page, MonthShape).value)
    ensures u.raised.None? ==> TableConverted(u.client.prevMonth)
    ensures u.raised.Some? ==> u.raised == Some(PrevMonthFailed)
  {
    var (t, raised) := ReadTable(page, MonthShape, PrevMonthFailed);
    Updated(if t.Some? then c.(prevMonth := t) else c, raised)
  }

  /** The history item `back` places from the end (`history[-back]`), if the history is a list that long. */
  predicate HasFromEnd(history: Json, back: nat) {
    history.JList? && 1 <= back <= |history.items|
  }

  function FromEnd(history: Json, back: nat): Json
    requires HasFromEnd(history, back)
  {
    history.items[|history.items| - back]
  }

  /** A number stage: `history[-back]`, assigned before it is checked. */
  function ReadOverall(history: Json, back: nat, failed: Error): (r: (Option<Json>, Option<Error>))
    requires 1 <= back
    ensures HasFromEnd(history, back) ==> r.0 == Some(FromEnd(history, back))
    ensures r.0.None? ==> r.1 == Some(failed)
    ensures r.1.None? <==> HasFromEnd(history, back) && FromEnd(history, back).JNum?
    ensures r.1.Some? ==> r.1 == Some(failed)
  {
    match Index(history, -(back as int))
    case Err(_) => (None, Some(failed))
    case Ok(v) => (Some(v), if Client.EnsureType([v], [ExpectNumber]).Ok? then None else Some(failed))
  }

  /** Stage 4, `highest_monthly = history[-1]`. */
  function ReadHighest(c: SuezClient, history: Json): (u: Updated)
    ensures HasFromEnd(history, 1) ==> u.client == c.(highestMonthly := FromEnd(history, 1))
    ensures !HasFromEnd(history, 1) ==> u.client == c.(highestMonthly := u.client.highestMonthly)
    ensures u.raised.None? <==> HasFromEnd(history, 1) && FromEnd(history, 1).JNum?
    ensures u.raised.Some? ==> u.raised == Some(HighestFailed)
  {
    var (v, raised) := ReadOverall(history, 1, HighestFailed);
    Updated(if v.Some? then c.(highestMonthly := v.value) else c, raised)
  }

  /** Stage 5, `last_year_overall = history[-2]`. */
  function ReadLastYear(c: SuezClient, history: Json): (u: Updated)
    ensures HasFromEnd(history, 2) ==> u.client == c.(lastYearOverall := FromEnd(history, 2))
    ensures !HasFromEnd(history, 2) ==> u.client == c.(lastYearOverall := u.client.lastYearOverall)
    ensures u.raised.None? <==> HasFromEnd(history, 2) && FromEnd(history, 2).JNum?
    ensures u.raised.Some? ==> u.raised == Some(LastYearFailed)
  {
    var (v, raised) := ReadOverall(history, 2, LastYearFailed);
    Updated(if v.Some? then c.(lastYearOverall := v.value) else c, raised)
  }

  /** Stage 6, `this_year_overall = history[-3]`. */
  function ReadThisYear(c: SuezClient, history: Json): (u: Updated)
    ensures HasFromEnd(history, 3) ==> u.client == c.(thisYearOverall := FromEnd(history, 3))
    ensures !HasFromEnd(history, 3) ==> u.client == c.(thisYearOverall := u.client.thisYearOverall)
    ensures u.raised.None? <==> HasFromEnd(history, 3) && FromEnd(history, 3).JNum?
    ensures u.raised.Some? ==> u.raised == Some(ThisYearFailed)
  {
    var (v, raised) := ReadOverall(history, 3, ThisYearFailed);
    Updated(if v.Some? then c.(thisYearOverall := v.value) else c, raised)
  }

  /** The monthly rows of the history: all items but the last three, the three totals. */
  function MonthlyRows(history: Json): (r: Result<Json>)
    ensures history.JList? && |history.items| >= 3 ==> r == Ok(JList(history.items[..|history.items| - 3]))
    ensures history.JList? && |history.items| < 3 ==> r == Ok(JList([]))
  {
    Slice(history, None, Some(-3))
  }

  /** Stage 7, `history` from the monthly rows, keyed by their fourth cell. */
  function ReadHistory(c: SuezClient, history: Json): (u: Updated)
    ensures u.client == c.(history := u.client.history)
    ensures MonthlyRows(history).Ok? && Table(MonthlyRows(history).value, HistoryShape).Ok? ==>
      u.client.history == Some(Table(MonthlyRows(history).value, HistoryShape).value)
    ensures u.raised.None? <==>
      && MonthlyRows(history).Ok?
      && Table(MonthlyRows(history).value, HistoryShape).Ok?
      && WellTyped(Table(MonthlyRows(history).value, HistoryShape).value)
    ensures u.raised.None? ==> TableConverted(u.client.history)
    ensures u.raised.Some? ==> u.raised == Some(HistoryFailed)
  {
    match MonthlyRows(history)
    case Err(_) => Updated(c, Some(HistoryFailed))
    case Ok(rows) =>
      var (t, raised) := ReadTable(rows, HistoryShape, HistoryFailed);
      Updated(if t.Some? then c.(history := t) else c, raised)
  }

  /** The four payloads the conversion reads. */
  datatype Payloads = Payloads(today: Json, yesterday: Json, prevMonth: Json, history: Json)

  /** The fields of the month stages up to stage `n` hold what the pages give. */
  predicate MonthsFromPages(d: SuezClient, day: int, p: Payloads, n: nat) {
    && (n >= 1 ==> Index(p.yesterday, day - 1).Ok? && Slice(Index(p.yesterday, day - 1).value, Some(1), None) == Ok(d.last))
    && (n >= 2 ==> Table(p.today, MonthShape).Ok? && d.thisMonth == Some(Table(p.today, MonthShape).value))
    && (n >= 3 ==> Table(p.prevMonth, MonthShape).Ok? && d.prevMonth == Some(Table(p.prevMonth, MonthShape).value))
  }

  /** The fields of the history stages, from stage 4 up to stage `n`, hold what the history gives. */
  predicate HistoryFromPage(d: SuezClient, history: Json, n: nat) {
    && (n >= 4 ==> HasFromEnd(history, 1) && d.highestMonthly == FromEnd(history, 1))
    && (n >= 5 ==> HasFromEnd(history, 2) && d.lastYearOverall == FromEnd(history, 2))
    && (n >= 6 ==> HasFromEnd(history, 3) && d.thisYearOverall == FromEnd(history, 3))
    && (n >= 7 ==>
         && MonthlyRows(history).Ok? && Table(MonthlyRows(history).value, HistoryShape).Ok?
         && d.history == Some(Table(MonthlyRows(history).value, HistoryShape).value))
  }

  /** Stages 1 to 3, the month pages. */
  function AssembleMonths(c: SuezClient, day: int, p: Payloads): (u: Updated)
    ensures OnlyPayloadFields(c, u.client) && UntouchedAfter(c, u.client, 3)
    ensures u.raised.None? ==> ConvertedUpTo(u.client, 3) && MonthsFromPages(u.client, day, p, 3)
    ensures u.raised.Some? ==> 1 <= StageOf(u.raised.value) <= 3
    ensures u.raised.Some? ==>
      && ConvertedUpTo(u.client, StageOf(u.raised.value) - 1)
      && MonthsFromPages(u.client, day, p, StageOf(u.raised.value) - 1)
      && UntouchedAfter(c, u.client, StageOf(u.raised.value))
  {
    StageNumbers();
    var c1 :- ReadLast(c, p.yesterday, day);
    var c2 :- ReadThisMonth(c1, p.today);
    ReadPrevMonth(c2, p.prevMonth)
  }

  /** Stages 4 to 7, the history page; the fields of stages 1 to 3 stay as they are. */
  function AssembleHistory(c: SuezClient, history: Json): (u: Updated)
    ensures OnlyPayloadFields(c, u.client)
    ensures u.client.last == c.last && u.client.thisMonth == c.thisMonth && u.client.prevMonth == c.prevMonth
    ensures u.raised.None? ==>
      && u.client.highestMonthly.JNum? && u.client.lastYearOverall.JNum? && u.client.thisYearOverall.JNum?
      && TableConverted(u.client.history)
      && HistoryFromPage(u.client, history, 7)
    ensures u.raised.Some? ==> 4 <= StageOf(u.raised.value) <= 7
    ensures u.raised.Some? ==>
      && (StageOf(u.raised.value) > 4 ==> u.client.highestMonthly.JNum?)
      && (StageOf(u.raised.value) > 5 ==> u.client.lastYearOverall.JNum?)
      && (StageOf(u.raised.value) > 6 ==> u.client.thisYearOverall.JNum?)
      && HistoryFromPage(u.client, history, StageOf(u.raised.value) - 1)
      && UntouchedAfter(c, u.client, StageOf(u.raised.value))
  {
    StageNumbers();
    var c4 :- ReadHighest(c, history);
    var c5 :- ReadLastYear(c4, history);
    var c6 :- ReadThisYear(c5, history);
    ReadHistory(c6, history)
  }

  /** The conversion, stage after stage, stopping at the first failure. A
      failure at stage `k` leaves the fields of stages before `k` converted and
      holding what the pages give, and those after `k` untouched; success
      leaves every field converted from the pages. */
  function Assemble(c: SuezClient, day: int, p: Payloads): (u: Updated)
    ensures OnlyPayloadFields(c, u.client)
    ensures u.raised.None? ==> Converted(u.client)
    ensures u.raised.None? ==> MonthsFromPages(u.client, day, p, 3) && HistoryFromPage(u.client, p.history, 7)
    ensures u.raised.Some? ==> 1 <= StageOf(u.raised.value) <= 7
    ensures u.raised.Some? ==>
      && ConvertedUpTo(u.client, StageOf(u.raised.value) - 1)
      && MonthsFromPages(u.client, day, p, StageOf(u.raised.value) - 1)
      && HistoryFromPage(u.client, p.history, StageOf(u.raised.value) - 1)
      && UntouchedAfter(c, u.client, StageOf(u.raised.value))
  {
    var c3 :- AssembleMonths(c, day, p);
    AssembleHistory(c3, p.history)
  }

  /** With today's page replaced by `{}` and yesterday in the same month, the
      yesterday row is looked up in `{}`: the conversion fails at once and
      `last` keeps its old value. */
  lemma EmptyTodayFailsYesterday(c: SuezClient, day: int, prevMonth: Json, history: Json)
    ensures Assemble(c, day, Payloads(JObj([]), JObj([]), prevMonth, history)) == Updated(c, Some(YesterdayFailed))
  {
  }

  // ---------------------------------------------------------------------------
  // Completion

  /** `self.last[0] > EPSILON` holds. */
  predicate UpToDate(last: Json) {
    last.JList? && |last.items| >= 1 && last.items[0].JNum? && last.items[0].n > Epsilon
  }

  /** `success = True`, then `uptodate = last[0] > EPSILON` (a comparison that
      raises when `last` is empty or its first item is not a number), then the
      attribution naming the provider and its site. */
  function Finish(c: SuezClient): (u: Updated)
    ensures u.client.success
    ensures u.client.(uptodate := c.uptodate, attribution := c.attribution, success := c.success) == c
    ensures Index(c.last, 0).Err? ==> u == Updated(c.(success := true), Some(Index(c.last, 0).error))
    ensures Index(c.last, 0).Ok? && Index(c.last, 0).value.JNum? ==> (u.client.uptodate <==> UpToDate(c.last))
    ensures u.raised.None? <==> Index(c.last, 0).Ok? && Index(c.last, 0).value.JNum? && Client.BaseUrl(c.provider).Ok?
    ensures u.raised.None? ==>
      exists i | 0 <= i < |Client.ProviderTable| :: Client.ProviderTable[i].0 == c.provider &&
        u.client.attribution == Some("Data provided by " + c.provider + " (" + Client.ProviderTable[i].1 + ")")
  {
    var c1 := c.(success := true);
    match Index(c1.last, 0)
    case Err(e) => Updated(c1, Some(e))
    case Ok(first) =>
      if !first.JNum? then Updated(c1, Some(Escaped(TypeError)))
      else
        var c2 := c1.(uptodate := first.n > Epsilon);
        // `_url('')` is the base URL itself
        match Client.BaseUrl(c2.provider)
        case Err(e) => Updated(c2, Some(e))
        case Ok(site) =>
          assert (c.provider, site) in Client.ProviderTable;
          Updated(c2.(attribution := Some("Data provided by " + c2.provider + " (" + site + ")")), None)
  }

  /** After a full conversion, the completion can fail only on an empty
      `last` (a yesterday row holding the date alone), and then with
      IndexError although `success` is already set. */
  lemma FinishAfterConversion(c: SuezClient)
    requires Converted(c) && Client.BaseUrl(c.provider).Ok?
    ensures Len(c.last) != Ok(0) ==> Index(c.last, 0).Ok? && Index(c.last, 0).value.JNum?
    ensures Finish(c).raised.None? <==> Len(c.last) != Ok(0)
    ensures Finish(c).raised.Some? ==> Finish(c).raised == Some(Escaped(IndexError)) && Finish(c).client.success
  {
    var items := Iter(c.last).value;
    assert Client.EnsureType(items, [ExpectNumber, ExpectNumber]).Ok?;
    if |items| >= 1 {
      assert Matches(items[0], ExpectNumber);
    }
  }

  // ---------------------------------------------------------------------------
  // Fetching

  /** The portal: what each URL answers, as text or as decoded JSON, and what
      submitting the login form produces. */
  datatype Portal = Portal(
    page: string -> Client.Reply<string>,
    data: string -> Client.Reply<Json>,
    submit: Client.Form -> Client.PostReply)

  /** The text of the page at `endpoint` (no tail); an unknown provider never gets this far. */
  function PageAt(portal: Portal, provider: string, endpoint: string): Client.Reply<string> {
    match Client.FetchUrl(provider, "", endpoint)
    case Ok(url) => portal.page(url)
    case Err(_) => Client.Undelivered
  }

  /** The month pages of `counter`, by (year, month), as the search and the refresh request them. */
  function MonthPages(portal: Portal, provider: string, counter: string): LastKnown.Pages {
    (y: int, m: int) =>
      if y < 0 || m < 0 then Client.Undelivered
      else match Client.FetchUrl(provider, Client.MonthTail(y, m, counter), Client.DataEndpoint)
        case Ok(url) => portal.data(url)
        case Err(_) => Client.Undelivered
  }

  /** `_fetch_data_url(f"{d.year}/{d.month}/{counter}")` */
  function MonthPage(portal: Portal, provider: string, counter: string, d: Date): (r: Result<Json>)
    ensures r.Err? ==> r.error != Escaped(OverflowError) && StageOf(r.error) == 0
    ensures d.year >= 0 && d.month >= 0 && Client.BaseUrl(provider).Ok? ==>
      r == Client.FetchData(portal.data(Client.FetchUrl(provider, Client.MonthTail(d.year, d.month, counter), Client.DataEndpoint).value))
  {
    Client.FetchFaults(MonthPages(portal, provider, counter)(d.year, d.month));
    FetchIsNoStage(MonthPages(portal, provider, counter)(d.year, d.month));
    Client.FetchData(MonthPages(portal, provider, counter)(d.year, d.month))
  }

  /** `_fetch_data_url(counter, endpoint=API_ENDPOINT_HISTORY)` */
  function HistoryPage(portal: Portal, provider: string, counter: string): (r: Result<Json>)
    ensures r.Err? ==> r.error != Escaped(OverflowError) && StageOf(r.error) == 0
    ensures Client.BaseUrl(provider).Err? ==> r == Err(Escaped(KeyError))
    ensures Client.BaseUrl(provider).Ok? ==>
      r == Client.FetchData(portal.data(Client.FetchUrl(provider, counter, Client.HistoryEndpoint).value))
  {
    var url :- Client.FetchUrl(provider, counter, Client.HistoryEndpoint);
    Client.FetchFaults(portal.data(url));
    FetchIsNoStage(portal.data(url));
    Client.FetchData(portal.data(url))
  }

  /** The counter: the configured one, or the one scraped from the consumption page. */
  function Counter(portal: Portal, provider: string, configured: Option<string>): (r: Result<string>)
    ensures configured.Some? ==> r == Ok(configured.value)
    ensures configured.None? ==>
      (r.Ok? <==> PageAt(portal, provider, Client.ConsumptionEndpoint).Delivered?
                  && Scrape.CounterId(PageAt(portal, provider, Client.ConsumptionEndpoint).body).Ok?)
    ensures configured.None? && r.Ok? ==> AllDigits(r.value) && |r.value| >= 1
    ensures configured.None? ==>
      r == (if PageAt(portal, provider, Client.ConsumptionEndpoint).Delivered?
            then Scrape.CounterId(PageAt(portal, provider, Client.ConsumptionEndpoint).body)
            else Err(Escaped(NetworkFailure)))
  {
    match configured
    case Some(counter) => Ok(counter)
    case None =>
      var page :- Client.Received(PageAt(portal, provider, Client.ConsumptionEndpoint));
      Scrape.CounterId(page)
  }

  /** `self.last_known`: the search's value, or 0 when it raised a SuezError; other exceptions escape. */
  function Known(searched: Result<Option<real>>): (r: Result<Option<real>>)
    ensures searched.Ok? ==> r == searched
    ensures searched.Err? && searched.error.SuezError? ==> r == Ok(Some(0.0))
    ensures searched.Err? && searched.error.Escaped? ==> r == searched
  {
    match searched
    case Err(SuezError(_)) => Ok(Some(0.0))
    case other => other
  }

  /** Today's page is usable unless its fetch raised something other than a SuezError. */
  predicate TodayUsable(today: Result<Json>) {
    today.Ok? || today.error.SuezError?
  }

  /** The fetches of `_fetch_data` fail in order: today's (only for an
      exception other than SuezError), yesterday's (only on the 1st), the
      previous month's, then the history; the first failure is what the
      gathering raises, and it succeeds exactly when none fails. */
  predicate FetchOrderOutcome(portal: Portal, provider: string, counter: string, now: Date, r: Result<(Date, Payloads)>)
    requires Valid(now) && !(now.year == MinYear && now.month == 1)
  {
    var today := MonthPage(portal, provider, counter, now);
    var yesterday := MonthPage(portal, provider, counter, PrevDay(now).value);
    var prevMonth := MonthPage(portal, provider, counter, LastDayOfPreviousMonth(now).value);
    var history := HistoryPage(portal, provider, counter);
    var yesterdayFails := now.day == 1 && yesterday.Err?;
    && (!TodayUsable(today) ==> r == Err(today.error))
    && (TodayUsable(today) && yesterdayFails ==> r == Err(yesterday.error))
    && (TodayUsable(today) && !yesterdayFails && prevMonth.Err? ==> r == Err(prevMonth.error))
    && (TodayUsable(today) && !yesterdayFails && prevMonth.Ok? && history.Err? ==> r == Err(history.error))
    && (r.Ok? <==> TodayUsable(today) && !yesterdayFails && prevMonth.Ok? && history.Ok?)
  }

  /** The dates and pages the conversion needs: yesterday, the last day of the
      previous month (both may overflow), today's page (`{}` when the portal
      answers with an error envelope), yesterday's page (today's when
      yesterday is in the same month), the previous month's page and the history. */
  function Gather(portal: Portal, provider: string, counter: string, now: Date): (r: Result<(Date, Payloads)>)
    requires Valid(now)
    ensures r == Err(Escaped(OverflowError)) <==> now.year == MinYear && now.month == 1
    ensures r.Ok? ==> PrevDay(now) == Some(r.value.0)
    ensures r.Ok? && MonthPage(portal, provider, counter, now).Ok? ==>
      r.value.1.today == MonthPage(portal, provider, counter, now).value
    ensures r.Ok? && MonthPage(portal, provider, counter, now).Err? ==>
      r.value.1.today == JObj([]) && MonthPage(portal, provider, counter, now).error.SuezError?
    ensures r.Ok? && now.day != 1 ==> r.value.1.yesterday == r.value.1.today
    ensures r.Ok? && now.day == 1 ==> Ok(r.value.1.yesterday) == MonthPage(portal, provider, counter, r.value.0)
    ensures r.Ok? ==> Ok(r.value.1.prevMonth) == MonthPage(portal, provider, counter, LastDayOfPreviousMonth(now).value)
    ensures r.Ok? ==> Ok(r.value.1.history) == HistoryPage(portal, provider, counter)
    ensures r.Ok? ==> Client.BaseUrl(provider).Ok?
    ensures r.Err? ==> StageOf(r.error) == 0
  {
    var yesterday :- (match PrevDay(now) case Some(d) => Ok(d) case None => Err(Escaped(OverflowError)));
    var prevMonthDay :- (match LastDayOfPreviousMonth(now) case Some(d) => Ok(d) case None => Err(Escaped(OverflowError)));
    YesterdayChangesMonth(now);
    var today :- (match MonthPage(portal, provider, counter, now)
                  case Err(SuezError(_)) => Ok(JObj([]))
                  case other => other);
    var yesterdayPage :- if yesterday.month != now.month then MonthPage(portal, provider, counter, yesterday) else Ok(today);
    var prevMonthPage :- MonthPage(portal, provider, counter, prevMonthDay);
    var historyPage :- HistoryPage(portal, provider, counter);
    Ok((yesterday, Payloads(today, yesterdayPage, prevMonthPage, historyPage)))
  }

  /** What the gathering raises when a fetch fails: the first failing fetch's error. */
  lemma GatherFailsInOrder(portal: Portal, provider: string, counter: string, now: Date)
    requires Valid(now) && !(now.year == MinYear && now.month == 1)
    ensures FetchOrderOutcome(portal, provider, counter, now, Gather(portal, provider, counter, now))
  {
    YesterdayChangesMonth(now);
  }

  // ---------------------------------------------------------------------------
  // The refresh

  /** `_fetch_data` on day `now`: the state afterwards and what it raised. */
  function Update(c: SuezClient, now: Date, portal: Portal): (u: Updated)
    requires Valid(now)
    ensures u.client.username == c.username && u.client.password == c.password && u.client.provider == c.provider
    ensures c.counterId.Some? ==> u.client.counterId == c.counterId
    ensures !u.client.success ==> u.raised.Some?
    ensures u.client.success ==> Converted(u.client) && u.client.counterId.Some? && u.client.lastKnown.Some?
    ensures u.client.success && u.raised.Some? ==> u.raised == Some(Escaped(IndexError)) && Len(u.client.last) == Ok(0)
    ensures u.client.uptodate <==> u.client.success && UpToDate(u.client.last)
    ensures u.raised.None? ==> u.client.attribution.Some?
    ensures Client.Login(c.username, c.password, c.provider, PageAt(portal, c.provider, Client.LoginEndpoint), portal.submit).Err? ==>
      u == Updated(c.(success := false, uptodate := false),
                   Some(Client.Login(c.username, c.password, c.provider, PageAt(portal, c.provider, Client.LoginEndpoint), portal.submit).error))
  {
    var c0 := c.(success := false, uptodate := false);
    match Client.Login(c.username, c.password, c.provider, PageAt(portal, c.provider, Client.LoginEndpoint), portal.submit)
    case Err(e) => Updated(c0, Some(e))
    case Ok(_) =>
      match Counter(portal, c.provider, c.counterId)
      case Err(e) => Updated(c0, Some(e))
      case Ok(counter) => AfterCounter(c0.(counterId := Some(counter)), now, portal, counter)
  }

  /** A refresh that succeeds converted every field from the pages gathered
      for its counter. */
  lemma UpdateSucceedsFromPages(c: SuezClient, now: Date, portal: Portal)
    requires Valid(now)
    ensures
      var u := Update(c, now, portal);
      var counter := Counter(portal, c.provider, c.counterId);
      u.client.success ==>
        && counter.Ok? && u.client.counterId == Some(counter.value)
        && var gathered := Gather(portal, c.provider, counter.value, now);
        && gathered.Ok?
        && MonthsFromPages(u.client, gathered.value.0.day, gathered.value.1, 3)
        && HistoryFromPage(u.client, gathered.value.1.history, 7)
  {
    var c0 := c.(success := false, uptodate := false);
    var login := Client.Login(c.username, c.password, c.provider, PageAt(portal, c.provider, Client.LoginEndpoint), portal.submit);
    var counter := Counter(portal, c.provider, c.counterId);
    if login.Ok? && counter.Ok? {
      assert Update(c, now, portal) == AfterCounter(c0.(counterId := Some(counter.value)), now, portal, counter.value);
      AfterCounterFromPages(c0.(counterId := Some(counter.value)), now, portal, counter.value);
    }
  }

  /** A refresh that fails at a stage converted the earlier stages' fields
      from the pages gathered for its counter and left the later ones as
      they were. */
  lemma UpdateFailsAtStage(c: SuezClient, now: Date, portal: Portal)
    requires Valid(now)
    ensures
      var u := Update(c, now, portal);
      var counter := Counter(portal, c.provider, c.counterId);
      u.raised.Some? && 1 <= StageOf(u.raised.value) <= 7 ==>
        && counter.Ok? && u.client.counterId == Some(counter.value)
        && var gathered := Gather(portal, c.provider, counter.value, now);
        && gathered.Ok?
        && !u.client.success
        && ConvertedUpTo(u.client, StageOf(u.raised.value) - 1)
        && MonthsFromPages(u.client, gathered.value.0.day, gathered.value.1, StageOf(u.raised.value) - 1)
        && HistoryFromPage(u.client, gathered.value.1.history, StageOf(u.raised.value) - 1)
        && UntouchedAfter(c, u.client, StageOf(u.raised.value))
  {
    var c0 := c.(success := false, uptodate := false);
    var login := Client.Login(c.username, c.password, c.provider, PageAt(portal, c.provider, Client.LoginEndpoint), portal.submit);
    var counter := Counter(portal, c.provider, c.counterId);
    if login.Err? {
      LoginIsNoStage(c.username, c.password, c.provider, PageAt(portal, c.provider, Client.LoginEndpoint), portal.submit);
    } else if counter.Err? {
      EscapedIsNoStage(counter.error);
    } else {
      assert Update(c, now, portal) == AfterCounter(c0.(counterId := Some(counter.value)), now, portal, counter.value);
      AfterCounterFromPages(c0.(counterId := Some(counter.value)), now, portal, counter.value);
    }
  }

  /** Every stage failure comes from the conversion: nothing a fetch raises
      carries a stage's message. */
  lemma FetchIsNoStage(reply: Client.Reply<Json>)
    ensures Client.FetchData(reply).Err? ==> StageOf(Client.FetchData(reply).error) == 0
  {
  }

  /** The conversion of gathered pages followed by completion, from a client
      `c` whose flags were reset. A stage failure leaves the earlier stages'
      fields converted from the pages and the later ones as in `c`; success
      converts every field from the pages; nothing but the payload fields,
      the two flags and the attribution changes. */
  function Convert(c: SuezClient, day: int, p: Payloads): (u: Updated)
    requires !c.success && !c.uptodate && Client.BaseUrl(c.provider).Ok?
    ensures u.client.(success := c.success, uptodate := c.uptodate, attribution := c.attribution,
                      last := c.last, thisMonth := c.thisMonth, prevMonth := c.prevMonth,
                      highestMonthly := c.highestMonthly, lastYearOverall := c.lastYearOverall,
                      thisYearOverall := c.thisYearOverall, history := c.history) == c
    ensures !u.client.success ==> u.raised.Some? && 1 <= StageOf(u.raised.value) <= 7
    ensures u.client.success ==> Converted(u.client) && MonthsFromPages(u.client, day, p, 3) && HistoryFromPage(u.client, p.history, 7)
    ensures u.client.success && u.raised.Some? ==> u.raised == Some(Escaped(IndexError)) && Len(u.client.last) == Ok(0)
    ensures u.client.uptodate <==> u.client.success && UpToDate(u.client.last)
    ensures u.raised.None? ==> u.client.attribution.Some?
    ensures !u.client.success ==>
      && ConvertedUpTo(u.client, StageOf(u.raised.value) - 1)
      && MonthsFromPages(u.client, day, p, StageOf(u.raised.value) - 1)
      && HistoryFromPage(u.client, p.history, StageOf(u.raised.value) - 1)
      && UntouchedAfter(c, u.client, StageOf(u.raised.value))
  {
    var assembled := Assemble(c, day, p);
    if assembled.raised.Some? then assembled
    else
      FinishAfterConversion(assembled.client);
      Finish(assembled.client)
  }

  /** No exception other than a SuezError is a stage failure. */
  lemma EscapedIsNoStage(e: Error)
    requires e.Escaped?
    ensures StageOf(e) == 0
  {
  }

  /** Nor is a failed login. */
  lemma LoginIsNoStage(username: string, password: string, provider: string,
                       loginPage: Client.Reply<string>, submit: Client.Form -> Client.PostReply)
    ensures Client.Login(username, password, provider, loginPage, submit).Err? ==>
      StageOf(Client.Login(username, password, provider, loginPage, submit).error) == 0
  {
    var r := Client.Login(username, password, provider, loginPage, submit);
    var token := Client.LoginToken(provider, loginPage);
    if token.Err? {
      if token.error.Escaped? {
        EscapedIsNoStage(token.error);
      } else {
        SentenceIsNoStage("Can't get token.");
      }
    } else {
      match submit(Client.LoginForm(username, password, token.value))
      case PostOSError =>
        SentenceIsNoStage("Can not submit login form.");
      case PostFailed =>
        EscapedIsNoStage(Escaped(NetworkFailure));
      case Posted(_, _) =>
        if r.Err? {
          SentenceIsNoStage("Login error: Please check your username/password.");
        }
    }
  }

  /** No stage's message ends with a full stop, so a message that does is
      no stage failure. */
  lemma SentenceIsNoStage(t: string)
    requires |t| >= 1 && t[|t| - 1] == '.'
    ensures StageOf(SuezError(Text(t))) == 0
  {
  }

  /** A failure Finish raises is no stage failure. */
  lemma FinishIsNoStage(c: SuezClient)
    ensures Finish(c).raised.Some? ==> StageOf(Finish(c).raised.value) == 0
  {
  }

  /** The refresh once logged in with counter `counter`: the search for the
      last known reading, then the fetches, conversion and completion. The
      counter stays recorded even when a later step fails, and `last_known` is
      the search's value, or 0 when the search raised a SuezError; any other
      exception of the search ends the refresh with nothing converted. */
  function AfterCounter(c1: SuezClient, now: Date, portal: Portal, counter: string): (u: Updated)
    requires Valid(now) && c1.counterId == Some(counter) && !c1.success && !c1.uptodate
    ensures u.client.username == c1.username && u.client.password == c1.password && u.client.provider == c1.provider
    ensures u.client.counterId == Some(counter)
    ensures !u.client.success ==> u.raised.Some?
    ensures u.client.success ==> Converted(u.client) && u.client.lastKnown.Some?
    ensures u.client.success && u.raised.Some? ==> u.raised == Some(Escaped(IndexError)) && Len(u.client.last) == Ok(0)
    ensures u.client.uptodate <==> u.client.success && UpToDate(u.client.last)
    ensures u.raised.None? ==> u.client.attribution.Some?
    ensures
      var searched := LastKnown.Search(MonthPages(portal, c1.provider, counter), now);
      && (searched.Ok? ==> u.client.lastKnown == searched.value)
      && (searched.Err? && searched.error.SuezError? ==> u.client.lastKnown == Some(0.0))
      && (searched.Err? && searched.error.Escaped? ==> u == Updated(c1, Some(searched.error)))
  {
    Resume(c1, Known(LastKnown.Search(MonthPages(portal, c1.provider, counter), now)),
           Gather(portal, c1.provider, counter, now))
  }

  /** What follows the search, given its outcome `known` and the outcome
      `gathered` of the fetches: an exception of either ends the refresh,
      otherwise the gathered pages are converted. */
  function Resume(c1: SuezClient, known: Result<Option<real>>, gathered: Result<(Date, Payloads)>): (u: Updated)
    requires !c1.success && !c1.uptodate
    requires gathered.Ok? ==> Client.BaseUrl(c1.provider).Ok?
  {
    match known
    case Err(e) => Updated(c1, Some(e))
    case Ok(k) =>
      var c2 := c1.(lastKnown := k);
      match gathered
      case Err(e) => Updated(c2, Some(e))
      case Ok((yesterday, payloads)) => Convert(c2, yesterday.day, payloads)
  }

  /** A successful resumption converted every field from the gathered pages. */
  lemma ResumeSucceeds(c1: SuezClient, known: Result<Option<real>>, gathered: Result<(Date, Payloads)>)
    requires !c1.success && !c1.uptodate
    requires gathered.Ok? ==> Client.BaseUrl(c1.provider).Ok?
    ensures
      var u := Resume(c1, known, gathered);
      u.client.success ==>
        && gathered.Ok?
        && MonthsFromPages(u.client, gathered.value.0.day, gathered.value.1, 3)
        && HistoryFromPage(u.client, gathered.value.1.history, 7)
  {
    if known.Ok? && gathered.Ok? {
      var u := Convert(c1.(lastKnown := known.value), gathered.value.0.day, gathered.value.1);
      assert Resume(c1, known, gathered) == u;
    }
  }

  /** Resuming after a search and fetches that raised no stage failure: a
      stage failure leaves the earlier stages' fields converted from the
      gathered pages and the later ones as they were. */
  lemma ResumeFailsAtStage(c1: SuezClient, known: Result<Option<real>>, gathered: Result<(Date, Payloads)>)
    requires !c1.success && !c1.uptodate
    requires gathered.Ok? ==> Client.BaseUrl(c1.provider).Ok?
    requires known.Err? ==> StageOf(known.error) == 0
    requires gathered.Err? ==> StageOf(gathered.error) == 0
    ensures
      var u := Resume(c1, known, gathered);
      u.raised.Some? && 1 <= StageOf(u.raised.value) <= 7 ==>
        && gathered.Ok?
        && !u.client.success
        && ConvertedUpTo(u.client, StageOf(u.raised.value) - 1)
        && MonthsFromPages(u.client, gathered.value.0.day, gathered.value.1, StageOf(u.raised.value) - 1)
        && HistoryFromPage(u.client, gathered.value.1.history, StageOf(u.raised.value) - 1)
        && UntouchedAfter(c1, u.client, StageOf(u.raised.value))
  {
    if known.Err? {
      assert Resume(c1, known, gathered).raised == Some(known.error);
    } else if gathered.Err? {
      assert Resume(c1, known, gathered).raised == Some(gathered.error);
    } else {
      var c2 := c1.(lastKnown := known.value);
      var u := Convert(c2, gathered.value.0.day, gathered.value.1);
      assert Resume(c1, known, gathered) == u;
      if u.client.success && u.raised.Some? {
        EscapedIsNoStage(u.raised.value);
      }
      if u.raised.Some? && 1 <= StageOf(u.raised.value) <= 7 {
        var n := StageOf(u.raised.value);
        assert UntouchedAfter(c2, u.client, n);
        assert c2.(lastKnown := c1.lastKnown) == c1;
      }
    }
  }

  /** After the search, the refresh surfaces a failed fetch unchanged; a stage
      failure leaves the earlier stages' fields converted from the gathered
      pages and the later ones as they were; success converts every field
      from the gathered pages. */
  lemma AfterCounterFromPages(c1: SuezClient, now: Date, portal: Portal, counter: string)
    requires Valid(now) && c1.counterId == Some(counter) && !c1.success && !c1.uptodate
    ensures
      var u := AfterCounter(c1, now, portal, counter);
      var known := Known(LastKnown.Search(MonthPages(portal, c1.provider, counter), now));
      var gathered := Gather(portal, c1.provider, counter, now);
      && (known.Ok? && gathered.Err? ==> u == Updated(c1.(lastKnown := known.value), Some(gathered.error)))
      && (u.client.success ==>
            && gathered.Ok?
            && MonthsFromPages(u.client, gathered.value.0.day, gathered.value.1, 3)
            && HistoryFromPage(u.client, gathered.value.1.history, 7))
      && (u.raised.Some? && 1 <= StageOf(u.raised.value) <= 7 ==>
            && gathered.Ok?
            && !u.client.success
            && ConvertedUpTo(u.client, StageOf(u.raised.value) - 1)
            && MonthsFromPages(u.client, gathered.value.0.day, gathered.value.1, StageOf(u.raised.value) - 1)
            && HistoryFromPage(u.client, gathered.value.1.history, StageOf(u.raised.value) - 1)
            && UntouchedAfter(c1, u.client, StageOf(u.raised.value)))
  {
    var known := Known(LastKnown.Search(MonthPages(portal, c1.provider, counter), now));
    var gathered := Gather(portal, c1.provider, counter, now);
    assert AfterCounter(c1, now, portal, counter) == Resume(c1, known, gathered);
    if known.Err? {
      EscapedIsNoStage(known.error);
    }
    ResumeSucceeds(c1, known, gathered);
    ResumeFailsAtStage(c1, known, gathered);
  }

  /** Once logged in with a counter, the refresh keeps that counter even if a
      later step fails, and records the search's value as `last_known`, or 0
      when the search raised a SuezError; any other exception of the search
      ends the refresh with nothing converted. */
  lemma LastKnownRecorded(c: SuezClient, now: Date, portal: Portal)
    requires Valid(now)
    requires Client.Login(c.username, c.password, c.provider, PageAt(portal, c.provider, Client.LoginEndpoint), portal.submit).Ok?
    requires Counter(portal, c.provider, c.counterId).Ok?
    ensures Update(c, now, portal).client.counterId == Some(Counter(portal, c.provider, c.counterId).value)
    ensures
      var searched := LastKnown.Search(MonthPages(portal, c.provider, Counter(portal, c.provider, c.counterId).value), now);
      && (searched.Ok? ==> Update(c, now, portal).client.lastKnown == searched.value)
      && (searched.Err? && searched.error.SuezError? ==> Update(c, now, portal).client.lastKnown == Some(0.0))
      && (searched.Err? && searched.error.Escaped? ==>
            Update(c, now, portal) ==
              Updated(c.(success := false, uptodate := false, counterId := Some(Counter(portal, c.provider, c.counterId).value)),
                      Some(searched.error)))
  {
  }
}
