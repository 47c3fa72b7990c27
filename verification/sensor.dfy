/**
 The Home Assistant side: the coordinator turns the client's fields into five
 sensor records after each refresh, and each sensor entity adopts its record's
 value only when the refresh produced up-to-date data.
 */
module Sensors {
  import opened Py
  import opened Text
  import Calendar
  import Client
  import DataUpdate

  /** The client fields a sensor reads. */
  datatype Attr = Last | LastYearOverall | ThisYearOverall | HighestMonthly

  datatype StateClass = Total

  /** How a sensor derives its value: a client field, optionally indexed. */
  datatype Desc = Desc(attr: Attr, index: Option<nat>, stateClass: Option<StateClass>)

  /** The sensors, in order. */
  const AttributesMap: seq<(string, Desc)> := [
    ("yesterday_delta", Desc(Last, Some(0), None)),
    ("yesterday_total", Desc(Last, Some(1), Some(Total))),
    ("last_year_delta", Desc(LastYearOverall, None, None)),
    ("this_year_delta", Desc(ThisYearOverall, None, None)),
    ("highest_monthly_delta", Desc(HighestMonthly, None, None))
  ]

  /** The table names five distinct sensors; only the cumulative yesterday
      total is a TOTAL, and only the yesterday sensors index into `last`. */
  lemma AttributesTable()
    ensures |AttributesMap| == 5
    ensures forall i, j | 0 <= i < j < |AttributesMap| :: AttributesMap[i].0 != AttributesMap[j].0
    ensures forall i | 0 <= i < |AttributesMap| :: AttributesMap[i].1.stateClass.Some? <==> i == 1
    ensures forall i | 0 <= i < |AttributesMap| :: AttributesMap[i].1.index.Some? <==> AttributesMap[i].1.attr == Last
    ensures AttributesMap[0].1 == Desc(Last, Some(0), None) && AttributesMap[1].1.index == Some(1)
  {
  }

  /** `getattr(suez, attr)` */
  function AttrValue(c: DataUpdate.SuezClient, a: Attr): Json {
    match a
    case Last => c.last
    case LastYearOverall => c.lastYearOverall
    case ThisYearOverall => c.thisYearOverall
    case HighestMonthly => c.highestMonthly
  }

  /** `_suez_value`: the field, or its item at the index; any failure yields `None`. */
  function SuezValue(c: DataUpdate.SuezClient, desc: Desc): (v: Json)
    ensures desc.index.None? ==> v == AttrValue(c, desc.attr)
    ensures desc.index.Some? && AttrValue(c, desc.attr).JList? && desc.index.value < |AttrValue(c, desc.attr).items| ==>
      v == AttrValue(c, desc.attr).items[desc.index.value]
    ensures desc.index.Some? && !AttrValue(c, desc.attr).JList? && !AttrValue(c, desc.attr).JStr? ==> v == JNull
    ensures desc.index.Some? && AttrValue(c, desc.attr).JList? && desc.index.value >= |AttrValue(c, desc.attr).items| ==> v == JNull
    ensures desc.index.Some? && AttrValue(c, desc.attr).JStr? && desc.index.value < |AttrValue(c, desc.attr).s| ==>
      v == JStr([AttrValue(c, desc.attr).s[desc.index.value]])
    ensures desc.index.Some? && AttrValue(c, desc.attr).JStr? && desc.index.value >= |AttrValue(c, desc.attr).s| ==> v == JNull
  {
    match desc.index
    case None => AttrValue(c, desc.attr)
    case Some(i) =>
      match Index(AttrValue(c, desc.attr), i)
      case Ok(item) => item
      case Err(_) => JNull
  }

  /** `SuezSensorData` */
  datatype SensorData = SensorData(
    name: string,
    value: Json,
    counterId: Option<string>,
    valid: bool,
    stateClass: Option<StateClass>,
    attribution: Option<string>)

  /** The coordinator: the configured counter and the client it refreshes. */
  datatype Coordinator = Coordinator(counterId: Option<string>, suez: DataUpdate.SuezClient)

  /** `SuezCoordinator(hass, info)`: the client is built from the same settings. */
  function NewCoordinator(username: string, password: string, counterId: Option<string>, provider: Option<string>): (k: Coordinator)
    ensures k.counterId == counterId && k.suez.counterId == counterId
    ensures k.suez == DataUpdate.New(username, password, counterId, provider)
  {
    Coordinator(counterId, DataUpdate.New(username, password, counterId, provider))
  }

  /** The records built from the client's fields, all sharing `valid`. */
  function Records(counterId: Option<string>, c: DataUpdate.SuezClient, valid: bool): (data: seq<SensorData>)
    ensures |data| == |AttributesMap|
    ensures forall i | 0 <= i < |data| ::
      && data[i].name == AttributesMap[i].0
      && data[i].value == SuezValue(c, AttributesMap[i].1)
      && data[i].stateClass == AttributesMap[i].1.stateClass
      && data[i].counterId == counterId
      && data[i].valid == valid
      && data[i].attribution == c.attribution
  {
    seq(|AttributesMap|, i requires 0 <= i < |AttributesMap| =>
      SensorData(AttributesMap[i].0, SuezValue(c, AttributesMap[i].1), counterId, valid,
                 AttributesMap[i].1.stateClass, c.attribution))
  }

  /** `_async_update_data` on day `now`: refresh the client, then build one record
      per sensor. A SuezError makes the records invalid; any other exception
      escapes, and the coordinator keeps the client as the refresh left it. */
  function Refresh(k: Coordinator, now: Calendar.Date, portal: DataUpdate.Portal): (r: (Coordinator, Result<seq<SensorData>>))
    requires Calendar.Valid(now)
    ensures r.0 == k.(suez := DataUpdate.Update(k.suez, now, portal).client)
    ensures r.1.Err? <==> DataUpdate.Update(k.suez, now, portal).raised.Some? && DataUpdate.Update(k.suez, now, portal).raised.value.Escaped?
    ensures r.1.Err? ==> Some(r.1.error) == DataUpdate.Update(k.suez, now, portal).raised
    ensures r.1.Ok? ==>
      r.1.value == Records(k.counterId, r.0.suez, DataUpdate.Update(k.suez, now, portal).raised.None? && r.0.suez.uptodate)
  {
    var u := DataUpdate.Update(k.suez, now, portal);
    var k1 := k.(suez := u.client);
    match u.raised
    case None => (k1, Ok(Records(k.counterId, u.client, u.client.uptodate)))
    case Some(SuezError(_)) => (k1, Ok(Records(k.counterId, u.client, false)))
    case Some(Escaped(f)) => (k1, Err(Escaped(f)))
  }

  /** Records built from a converted, up-to-date client hold numbers: the
      yesterday delta, the three history totals and, when yesterday's row
      carries it, the yesterday total. A yesterday row holding only a delta
      leaves the total `None`. */
  lemma ConvertedRecordsHoldNumbers(counterId: Option<string>, c: DataUpdate.SuezClient)
    requires DataUpdate.Converted(c) && DataUpdate.UpToDate(c.last)
    ensures forall i | 0 <= i < |AttributesMap| && i != 1 :: Records(counterId, c, true)[i].value.JNum?
    ensures Records(counterId, c, true)[1].value.JNum? || Records(counterId, c, true)[1].value == JNull
    ensures Records(counterId, c, true)[1].value == JNull <==> |c.last.items| == 1
  {
    var items := c.last.items;
    assert Iter(c.last).value == items;
    assert Client.EnsureType(items, [ExpectNumber, ExpectNumber]).Ok?;
    if |items| >= 2 {
      assert Matches(items[1], ExpectNumber);
    }
  }

  /** A refresh that reports valid records reports them from a converted,
      up-to-date client. */
  lemma ValidRefreshIsConverted(k: Coordinator, now: Calendar.Date, portal: DataUpdate.Portal)
    requires Calendar.Valid(now)
    ensures Refresh(k, now, portal).1.Ok? && Refresh(k, now, portal).1.value[0].valid ==>
      && Refresh(k, now, portal).1.value == Records(k.counterId, Refresh(k, now, portal).0.suez, true)
      && DataUpdate.Converted(Refresh(k, now, portal).0.suez)
      && DataUpdate.UpToDate(Refresh(k, now, portal).0.suez.last)
  {
  }

  // ---------------------------------------------------------------------------
  // Entities

  /** `SuezSensor`: the fields the model tracks. */
  datatype SensorEntity = SensorEntity(
    counterId: Option<string>,
    idx: nat,
    uniqueId: string,
    name: string,
    stateClass: Option<StateClass>,
    attribution: Option<string>,
    nativeValue: Json)

  /** `f"{counter_id}"`: `None` renders as the text `None`. */
  function CounterText(counterId: Option<string>): string {
    counterId.GetOr("None")
  }

  /** The entity for record `idx`: it starts with the record's value only when the record is valid. */
  function NewSensor(idx: nat, entry: SensorData): (s: SensorEntity)
    ensures s.idx == idx && s.counterId == entry.counterId
    ensures s.nativeValue == (if entry.valid then entry.value else JNull)
    ensures s.uniqueId == "suez_" + CounterText(entry.counterId) + "_" + Decimal(idx)
    ensures s.name == "suez_" + CounterText(entry.counterId) + "_" + entry.name
  {
    SensorEntity(entry.counterId, idx, "suez_" + CounterText(entry.counterId) + "_" + Decimal(idx),
                 "suez_" + CounterText(entry.counterId) + "_" + entry.name,
                 entry.stateClass, entry.attribution, if entry.valid then entry.value else JNull)
  }

  /** `async_setup_entry`: one entity per record, numbered by position. */
  function Entities(data: seq<SensorData>): (es: seq<SensorEntity>)
    ensures |es| == |data|
    ensures forall i | 0 <= i < |data| :: es[i] == NewSensor(i, data[i])
  {
    seq(|data|, i requires 0 <= i < |data| => NewSensor(i, data[i]))
  }

  /** Entities of one counter get distinct unique ids. */
  lemma UniqueIdsDistinct(data: seq<SensorData>, i: nat, j: nat)
    requires i < j < |data| && data[i].counterId == data[j].counterId
    ensures Entities(data)[i].uniqueId != Entities(data)[j].uniqueId
  {
    var prefix := "suez_" + CounterText(data[i].counterId) + "_";
    if Entities(data)[i].uniqueId == Entities(data)[j].uniqueId {
      assert (prefix + Decimal(i))[|prefix|..] == Decimal(i);
      assert (prefix + Decimal(j))[|prefix|..] == Decimal(j);
      DecimalInjective(i, j);
    }
  }

  /** `_handle_coordinator_update`: the entity reads its record by position and
      adopts the value only when the record is valid; a missing record raises IndexError. */
  function HandleUpdate(s: SensorEntity, data: seq<SensorData>): (r: Result<SensorEntity>)
    ensures r.Err? <==> s.idx >= |data|
    ensures r.Err? ==> r.error == Escaped(IndexError)
    ensures r.Ok? && data[s.idx].valid ==> r.value == s.(nativeValue := data[s.idx].value)
    ensures r.Ok? && !data[s.idx].valid ==> r.value == s
  {
    if s.idx >= |data| then Err(Escaped(IndexError))
    else if data[s.idx].valid then Ok(s.(nativeValue := data[s.idx].value))
    else Ok(s)
  }

  /** After a refresh, each sensor shows the refreshed value when the refresh
      was valid and keeps its previous value otherwise. */
  lemma RefreshReachesSensors(k: Coordinator, now: Calendar.Date, portal: DataUpdate.Portal, s: SensorEntity)
    requires Calendar.Valid(now)
    ensures Refresh(k, now, portal).1.Ok? && s.idx < |AttributesMap| ==>
      && HandleUpdate(s, Refresh(k, now, portal).1.value).Ok?
      && HandleUpdate(s, Refresh(k, now, portal).1.value).value.nativeValue ==
           if DataUpdate.Update(k.suez, now, portal).raised.None? && Refresh(k, now, portal).0.suez.uptodate
           then SuezValue(Refresh(k, now, portal).0.suez, AttributesMap[s.idx].1)
           else s.nativeValue
  {
  }
}
