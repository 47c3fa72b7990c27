# toutsurmoneau: the SUEZ portal client and its sensors, in Dafny

This project models the `SuezClient` scraper of the *toutsurmoneau* Home
Assistant integration and the sensor projection built on it. The client logs in
to a water provider's customer portal (toutsurmoneau.fr or eau-olivet.fr). It
discovers the water meter ("counter") id, looks back up to sixty days for the
last known cumulative reading, and fetches the month pages and the consumption
history. It then converts those payloads into the fields the sensors read. The
sensors expose five of those values. A sensor adopts a new value only when the
refresh produced up-to-date data.

The network is a set of inputs:
- a page reply per URL;
- a decoded JSON reply per URL;
- a function from the submitted login form to what the submission produced (cookies set, or a failure).

Today's civil date is a parameter. Everything else is pure functions over immutable data.

Modules, one per file:

- `Py` (`py.dfy`): decoded JSON values and the exceptions the client raises.
  It also holds the Python operations the client applies to payloads:
  - indexing, including negative indices;
  - clamped slicing;
  - iteration of lists, strings and dicts;
  - three-way unpacking.
- `Text` (`text.dfy`): substring matching, the leftmost-match order of
  `re.search`, and the decimal rendering `f"{n}"` with its inverse.
- `Calendar` (`calendar.dfy`): Python's proleptic Gregorian `date` with years
  1 to 9999. It covers the day before a date, with OverflowError before
  0001-01-01, and the last day of the previous month.
- `UnicodeEscape` (`escape.dfy`): `text.encode().decode('unicode_escape')`
  byte by byte, and an escaper whose output it always maps back to the
  original text.
- `Scrape` (`scrape.dfy`): the two token-finding methods and the counter-id
  pattern. Each is written both as a leftmost search and as the language the
  pattern describes, with lemmas tying the two together.
- `Client` (`client.dfy`): providers and URLs, the HTTP verb, the
  error-envelope guard on every JSON payload, `ensure_type`, the login form,
  login and the credentials check.
- `LastKnown` (`search.dfy`): the backward search for the last known reading.
  `Walk` runs it with its one-page cache. `Scan` is the cache-free reference.
  The two are proved equal.
- `DataUpdate` (`update.dfy`): the client state and the `_fetch_data` refresh.
  It runs login, counter discovery, the search, the page fetches, the seven
  conversion stages, then completion.
- `Sensors` (`sensor.dfy`): the attribute table, value selection, the
  coordinator's records, and the sensor entities' validity gate.

## Model

| member | source | states |
|---|---|---|
| Py.Index | custom_components/toutsurmoneau/pysuez1.py:263 | `v[i]` succeeds exactly on a list or string with `-len <= i < len`; a negative index counts from the end; a dict raises KeyError, an out-of-range index IndexError, anything else TypeError |
| Py.Slice | custom_components/toutsurmoneau/pysuez1.py:303 | slicing succeeds exactly on lists and strings and keeps the kind; the result holds the items (or characters) between the clamped bounds, in order; anything else raises TypeError |
| Py.Iter | custom_components/toutsurmoneau/pysuez1.py:269 | iteration is defined exactly for lists, strings and dicts: a list yields its items in order, a string its characters as one-character strings, a dict its distinct keys in first-insertion order |
| Py.Unpack3 | custom_components/toutsurmoneau/pysuez1.py:218 | `a, b, c = v` succeeds exactly when iteration yields three items; too many or too few is ValueError, a non-iterable TypeError |
| Text.FirstSome | custom_components/toutsurmoneau/pysuez1.py:96-97 | the result is the leftmost position where the matcher succeeds, and no earlier position matches; no result means no position matches |
| Text.Decimal | custom_components/toutsurmoneau/pysuez1.py:214-215 | the rendering of a number is a non-empty run of digits |
| Text.DecimalRoundTrip | custom_components/toutsurmoneau/pysuez1.py:214-215 | reading a rendered number back gives the number |
| Text.DecimalInjective | custom_components/toutsurmoneau/pysuez1.py:214-215 | distinct numbers render as distinct texts |
| Calendar.PrevDay | custom_components/toutsurmoneau/pysuez1.py:221 | the day before is a valid date whose ordinal is one less; it is missing (OverflowError) exactly at 0001-01-01 |
| Calendar.PrevDayIsOrdinalPredecessor | custom_components/toutsurmoneau/pysuez1.py:221 | any valid date one ordinal earlier is the day `PrevDay` returns |
| Calendar.LastDayOfPreviousMonth | custom_components/toutsurmoneau/pysuez1.py:247-248 | the result is the last day of the preceding month, rolling over to December of the previous year; it fails exactly in January of year 1 |
| Calendar.YesterdayChangesMonth | custom_components/toutsurmoneau/pysuez1.py:246-258 | yesterday lies in another month exactly on the 1st, and is then the previous month's last day |
| UnicodeEscape.Decode | custom_components/toutsurmoneau/pysuez1.py:111 | every decoding failure is a UnicodeDecodeError |
| UnicodeEscape.EscapeRoundTrip | custom_components/toutsurmoneau/pysuez1.py:111 | unescaping the `\uXXXX` / `\UXXXXXXXX` escape of any text gives the text back |
| UnicodeEscape.PlainAsciiUnchanged | custom_components/toutsurmoneau/pysuez1.py:111 | ASCII text without a backslash is unchanged by unescaping |
| UnicodeEscape.NonAsciiBecomesLatin1 | custom_components/toutsurmoneau/pysuez1.py:111 | unescaping any text without a backslash gives the Latin-1 reading of its UTF-8 bytes, one character per byte, so every non-ASCII character is mangled |
| UnicodeEscape.EscapeAll | custom_components/toutsurmoneau/pysuez1.py:105 | the escaped form is ASCII and holds no comma, so it fits the `[^,]+` group |
| Scrape.TokenI | custom_components/toutsurmoneau/pysuez1.py:95-102 | method I finds nothing exactly when `csrf_token` occurs nowhere; otherwise it returns the rest of the line after the first occurrence |
| Scrape.MatchTokenIIExact | custom_components/toutsurmoneau/pysuez1.py:105 | the matcher at a position accepts exactly the pattern's language: the opening, a non-empty comma-free group, then the escaped quote, comma and quote |
| Scrape.TokenII | custom_components/toutsurmoneau/pysuez1.py:104-111 | method II finds nothing exactly when no position matches; a match yields the unescaped group of the leftmost match, and decoding can fail only with UnicodeDecodeError |
| Scrape.TokenIILeftmost | custom_components/toutsurmoneau/pysuez1.py:104-111 | a group in the pattern's language with no earlier match is what method II returns, unescaped |
| Scrape.TokenIIAbsent | custom_components/toutsurmoneau/pysuez1.py:104-111 | method II finds nothing exactly when the pattern's language occurs nowhere |
| Scrape.GetToken | custom_components/toutsurmoneau/pysuez1.py:125-127 | method I wins when it yields a non-empty text; method II is consulted otherwise; "Can't get token." is raised exactly when both come up empty |
| Scrape.EscapedTokenRecovered | custom_components/toutsurmoneau/pysuez1.py:104-111 | a token embedded in the JSON-escaped form, on a page without `csrf_token`, is recovered exactly |
| Scrape.MatchCounterExact | custom_components/toutsurmoneau/pysuez1.py:194 | the matcher at a position accepts exactly the marker followed by a maximal non-empty digit run |
| Scrape.CounterId | custom_components/toutsurmoneau/pysuez1.py:194-197 | the counter is the non-empty digit run of the leftmost match; with no match the scrape raises AttributeError, which is not a SuezError |
| Scrape.CounterIdLeftmost | custom_components/toutsurmoneau/pysuez1.py:194-197 | the digits of the first marker followed by digits are the counter id |
| Scrape.CounterIdMissing | custom_components/toutsurmoneau/pysuez1.py:194-197 | the scrape fails exactly when the pattern's language occurs nowhere in the page |
| Scrape.CounterNumberRecovered | custom_components/toutsurmoneau/pysuez1.py:194-197 | a number written after the marker is read back as that number |
| Client.ChooseProvider | custom_components/toutsurmoneau/pysuez1.py:72 | a missing or empty provider name selects `toutsurmoneau`; any other name is kept |
| Client.BaseUrl | custom_components/toutsurmoneau/pysuez1.py:52-55 | lookup succeeds exactly for a name in the provider table, with that name's URL; otherwise KeyError |
| Client.Providers | custom_components/toutsurmoneau/pysuez1.py:90-93 | the listed names are exactly those the lookup accepts, each once |
| Client.DefaultProviderKnown | custom_components/toutsurmoneau/pysuez1.py:72 | the default provider resolves to https://www.toutsurmoneau.fr |
| Client.Url | custom_components/toutsurmoneau/pysuez1.py:86-88 | the URL exists exactly for a known provider and is the provider's base URL followed by the endpoint |
| Client.FetchUrl | custom_components/toutsurmoneau/pysuez1.py:167-172 | `/tail` is appended exactly when the tail is non-empty |
| Client.FetchUrlInjective | custom_components/toutsurmoneau/pysuez1.py:167-172 | different non-empty tails give different URLs |
| Client.MonthKey | custom_components/toutsurmoneau/pysuez1.py:214-215 | the key is a year in decimal, a `/`, then a month in decimal, which read back as the year and month |
| Client.MonthTail | custom_components/toutsurmoneau/pysuez1.py:216 | a month request is the month key, a `/`, then the counter id |
| Client.MonthKeyInjective | custom_components/toutsurmoneau/pysuez1.py:214-215 | two `year/month` keys are equal exactly when year and month are |
| Client.MonthTailInjective | custom_components/toutsurmoneau/pysuez1.py:216 | month requests are equal exactly when year, month and counter are |
| Client.Verb | custom_components/toutsurmoneau/pysuez1.py:140-146 | form data forces POST; otherwise the given verb, GET by default; the verb is POST exactly when there is data or POST was asked for |
| Client.Received | custom_components/toutsurmoneau/pysuez1.py:183-184 | a reply is usable exactly when it was delivered; otherwise the failure is a transport fault |
| Client.IsEnvelope | custom_components/toutsurmoneau/pysuez1.py:186 | a payload is an error envelope exactly when `len` accepts it, it is non-empty, and its item 0 is the string "ERR" |
| Client.EnvelopeMessage | custom_components/toutsurmoneau/pysuez1.py:187 | the message is the rendering of item 1 when the envelope has more than one item, and "Unknown error" otherwise |
| Client.GuardPayload | custom_components/toutsurmoneau/pysuez1.py:186-188 | an envelope whose first item is "ERR" raises SuezError with the second item or "Unknown error". A non-envelope list, a string or `{}` passes unchanged. A non-empty dict raises KeyError; anything else raises TypeError |
| Client.FetchData | custom_components/toutsurmoneau/pysuez1.py:174-188 | a fetched payload is returned unchanged and is never `null`; a SuezError comes only from a delivered envelope |
| Client.FetchFaults | custom_components/toutsurmoneau/pysuez1.py:174-188 | a fetch fails only with an envelope's SuezError, a transport fault, KeyError or TypeError |
| Client.EnsureType | custom_components/toutsurmoneau/pysuez1.py:199-205 | the check passes exactly when every zipped pair matches, stopping at the shorter list; otherwise it raises SuezError naming the first mismatch |
| Client.NumericPairOfList | custom_components/toutsurmoneau/pysuez1.py:264 | a list passes the two-number check exactly when the first two items it has are numbers; shorter lists pass on fewer checks |
| Client.LoginForm | custom_components/toutsurmoneau/pysuez1.py:130-138 | seven distinct fields: the token under `_csrf_token`, the password under the two password fields, `signin[password]` empty, the user name elsewhere |
| Client.LoginToken | custom_components/toutsurmoneau/pysuez1.py:118-127 | the token is the login page's token, for a known provider and a delivered page |
| Client.Login | custom_components/toutsurmoneau/pysuez1.py:148-165 | login succeeds exactly when a token is found, the form is posted and the jar then holds `eZSESSID`. A missing cookie is the credentials error and a token failure propagates. An OSError from the submission becomes "Can not submit login form."; any other transport failure escapes |
| Client.NoTokenNoPost | custom_components/toutsurmoneau/pysuez1.py:125-127 | without a token the login fails with "Can't get token." whatever a submission would produce |
| Client.CheckCredentials | custom_components/toutsurmoneau/pysuez1.py:315-326 | the answer is whether the login response itself set `eZSESSID`; an OSError becomes "Can not submit login form." |
| LastKnown.PrevDayMonth | custom_components/toutsurmoneau/pysuez1.py:221 | stepping back a day stays in the month or moves to an earlier one |
| LastKnown.RowTotal | custom_components/toutsurmoneau/pysuez1.py:218-220 | the reading is the third cell of row `day - 1`. A missing row or one without exactly three cells escapes; a non-number total is a SuezError |
| LastKnown.Read | custom_components/toutsurmoneau/pysuez1.py:214-220 | the page is fetched exactly when the cached key is not this month's text and is the cached page otherwise; a fetch failure propagates; a `null` page keeps the previous reading; otherwise the reading is the third cell of row `day - 1`, or that row's error |
| LastKnown.Walk | custom_components/toutsurmoneau/pysuez1.py:207-223 | the loop examines consecutive days backward from its start, within the bound, and stops at once when not searching |
| LastKnown.WalkFetches | custom_components/toutsurmoneau/pysuez1.py:214-216 | the first pass fetches unless the cache holds its month, and every fetch is for the current or an earlier month |
| LastKnown.Trace | custom_components/toutsurmoneau/pysuez1.py:207-223 | from today: 1 to 60 consecutive days examined starting at today; the first fetch is today's month and later fetches go strictly back |
| LastKnown.FetchedOnce | custom_components/toutsurmoneau/pysuez1.py:214-216 | no month page is fetched twice |
| LastKnown.Scan | custom_components/toutsurmoneau/pysuez1.py:213-222 | the cache-free reference loop returns its reading on leaving, never `None` once a day was read, and stops at the first unreadable day with its error |
| LastKnown.ReadIsDayTotal | custom_components/toutsurmoneau/pysuez1.py:214-220 | with a faithful cache, a pass reads what a fresh fetch would |
| LastKnown.CacheIsTransparent | custom_components/toutsurmoneau/pysuez1.py:214-217 | keying the cache by the `year/month` text leaves the outcome that of the cache-free search |
| LastKnown.Search | custom_components/toutsurmoneau/pysuez1.py:207-223 | the search equals the reference loop and never returns `None` |
| LastKnown.SearchStopsAtFirstFound | custom_components/toutsurmoneau/pysuez1.py:213-223 | the search returns the first reading at least 0.0001. If none appears in 60 days it returns the 60th reading, not 0 |
| LastKnown.SearchFailsAt | custom_components/toutsurmoneau/pysuez1.py:216-220 | a day whose reading cannot be taken ends the search with that day's error, whatever its kind |
| DataUpdate.New | custom_components/toutsurmoneau/pysuez1.py:58-84 | a new client keeps its settings, applies the provider default, and starts unsuccessful, not up to date and empty |
| DataUpdate.Entry | custom_components/toutsurmoneau/pysuez1.py:269 | a row gives an entry exactly when its key cell exists and is hashable; the entry is that key cell and the row's slice between the shape's bounds |
| DataUpdate.BuildMap | custom_components/toutsurmoneau/pysuez1.py:269 | the comprehension succeeds exactly when every row gives an entry; otherwise it raises the first failing row's error |
| DataUpdate.BuildMapKeys | custom_components/toutsurmoneau/pysuez1.py:269 | every row's key is in the dict |
| DataUpdate.BuildMapLastWins | custom_components/toutsurmoneau/pysuez1.py:269 | each key holds the value of the last row carrying it |
| DataUpdate.ShadowedRowUnchecked | custom_components/toutsurmoneau/pysuez1.py:269-272 | a row overwritten by a later duplicate label is never type-checked |
| DataUpdate.Table | custom_components/toutsurmoneau/pysuez1.py:269 | a payload that cannot be iterated fails the comprehension; otherwise its items are the rows |
| DataUpdate.ReadLast | custom_components/toutsurmoneau/pysuez1.py:262-266 | `last` is yesterday's row without its first cell. It is assigned before being checked; a missing row leaves it untouched; every failure is "Cannot read yesterday data" |
| DataUpdate.ReadThisMonth | custom_components/toutsurmoneau/pysuez1.py:268-274 | the dict is assigned once built and then checked; success means string labels and numeric pairs; every failure is "Cannot read this month data" |
| DataUpdate.ReadPrevMonth | custom_components/toutsurmoneau/pysuez1.py:276-282 | the same for the previous month, under "Cannot read previous month data" |
| DataUpdate.ReadHighest | custom_components/toutsurmoneau/pysuez1.py:284-288 | `highest_monthly` is the history's last item; success means it is a number; failure is "Cannot convert highest_monthly" |
| DataUpdate.ReadLastYear | custom_components/toutsurmoneau/pysuez1.py:290-294 | `last_year_overall` is the second-to-last item, under "Cannot convert last_year_overall" |
| DataUpdate.ReadThisYear | custom_components/toutsurmoneau/pysuez1.py:296-300 | `this_year_overall` is the third-to-last item, under "Cannot convert this_year_overall" |
| DataUpdate.MonthlyRows | custom_components/toutsurmoneau/pysuez1.py:303 | the monthly rows are all history items but the last three (none when fewer than three) |
| DataUpdate.ReadHistory | custom_components/toutsurmoneau/pysuez1.py:302-308 | `history` maps each monthly row's fourth cell to its second and third cells; success means labels are strings and values numeric pairs; failure is "Cannot convert history" |
| DataUpdate.AssembleMonths | custom_components/toutsurmoneau/pysuez1.py:262-282 | the month stages in order, stopping at the first failure |
| DataUpdate.AssembleHistory | custom_components/toutsurmoneau/pysuez1.py:284-308 | the history stages in order, stopping at the first failure, leaving the month fields alone |
| DataUpdate.Assemble | custom_components/toutsurmoneau/pysuez1.py:262-308 | after a failure at stage k, the earlier stages' fields hold converted values from the pages and the later ones keep their previous values; success converts every field from the pages; nothing outside the payload fields changes |
| DataUpdate.EmptyTodayFailsYesterday | custom_components/toutsurmoneau/pysuez1.py:250-266 | with today's page replaced by `{}` and yesterday in the same month, the conversion fails with "Cannot read yesterday data" and changes nothing |
| DataUpdate.Finish | custom_components/toutsurmoneau/pysuez1.py:310-313 | `success` is set first. `uptodate` is `last[0] > 0.000001`, and an empty `last` raises IndexError. The attribution names the provider and its site |
| DataUpdate.FinishAfterConversion | custom_components/toutsurmoneau/pysuez1.py:263-264 | after a full conversion, completion fails only on an empty `last`, with IndexError, while `success` is already true |
| DataUpdate.Counter | custom_components/toutsurmoneau/pysuez1.py:235-236 | a configured counter is kept. Otherwise the counter is what the scrape of the delivered consumption page returns, a non-empty digit run, and an undelivered page escapes |
| DataUpdate.Known | custom_components/toutsurmoneau/pysuez1.py:241-244 | only a SuezError from the search becomes 0; other exceptions escape |
| DataUpdate.MonthPage | custom_components/toutsurmoneau/pysuez1.py:251-259 | a month page is the fetched payload of `year/month/counter` under the data endpoint, and no fetch failure is an overflow or a stage failure |
| DataUpdate.HistoryPage | custom_components/toutsurmoneau/pysuez1.py:260 | the history page is the fetched payload of the counter under the history endpoint; an unknown provider raises KeyError |
| DataUpdate.Gather | custom_components/toutsurmoneau/pysuez1.py:246-260 | An overflow arises exactly in January of year 1. Today's page becomes `{}` when its fetch raised a SuezError. Yesterday's page is today's unless today is the 1st. The previous month's page is that of the day before the 1st. Gathering succeeds only for a known provider, and nothing it raises is a stage failure |
| DataUpdate.GatherFailsInOrder | custom_components/toutsurmoneau/pysuez1.py:250-260 | the fetches run in source order (today, yesterday on the 1st, previous month, history). The gathering raises the first failing fetch's error, where today's SuezError does not count as a failure, and succeeds exactly when none fails |
| DataUpdate.Convert | custom_components/toutsurmoneau/pysuez1.py:262-313 | converting gathered pages and completing: after a failure at stage k, the earlier stages' fields hold values converted from the pages and the later ones keep their previous values. Success converts every field from the pages. Only the payload fields, the two flags and the attribution change |
| DataUpdate.ResumeSucceeds | custom_components/toutsurmoneau/pysuez1.py:241-313 | a refresh that gets past the search and succeeds converted every field from the gathered pages |
| DataUpdate.ResumeFailsAtStage | custom_components/toutsurmoneau/pysuez1.py:241-313 | a stage failure after the search leaves the earlier stages' fields converted from the gathered pages and the later ones as they were |
| DataUpdate.Update | custom_components/toutsurmoneau/pysuez1.py:225-313 | credentials and provider never change and a configured counter is kept. `success` implies every field converted; without it the refresh raised. `uptodate` is exactly `success` with `last[0] > 0.000001`. A login failure changes only the two flags |
| DataUpdate.AfterCounter | custom_components/toutsurmoneau/pysuez1.py:238-313 | once logged in with a counter, the counter stays recorded whatever fails later. `last_known` is the search's value, or 0 after a SuezError, and any other search exception ends the refresh. `success` implies every field converted |
| DataUpdate.AfterCounterFromPages | custom_components/toutsurmoneau/pysuez1.py:241-313 | after the search, a failed fetch is raised unchanged with `last_known` recorded. A stage failure leaves the earlier stages' fields converted from the gathered pages and the later ones as they were. Success converts every field from the gathered pages |
| DataUpdate.LastKnownRecorded | custom_components/toutsurmoneau/pysuez1.py:235-244 | after login, a discovered counter is kept even if later steps fail. `last_known` is the search's value, or 0 after a SuezError; any other search exception ends the refresh |
| DataUpdate.UpdateSucceedsFromPages | custom_components/toutsurmoneau/pysuez1.py:225-313 | a successful refresh used the configured or scraped counter, and converted every field from the pages gathered for it |
| DataUpdate.UpdateFailsAtStage | custom_components/toutsurmoneau/pysuez1.py:225-313 | a refresh that fails at a stage used that counter, converted the earlier stages' fields from the pages gathered for it, and left the later ones as they were before the refresh |
| Sensors.AttributesTable | custom_components/toutsurmoneau/sensor.py:51-57 | five sensors in fixed order with distinct names; only `yesterday_total` has the TOTAL state class; the first two read `last` at indices 0 and 1 |
| Sensors.SuezValue | custom_components/toutsurmoneau/sensor.py:88-99 | without an index, the field itself. With one, the list item or the one-character string at that index, or `None` when the field is not a list or string or the index is out of range |
| Sensors.NewCoordinator | custom_components/toutsurmoneau/sensor.py:70-86 | the coordinator's counter and the client's are the configured one |
| Sensors.Records | custom_components/toutsurmoneau/sensor.py:112-119 | one record per table entry, in order, sharing `valid`, counter and attribution |
| Sensors.Refresh | custom_components/toutsurmoneau/sensor.py:101-120 | the client state always changes as the refresh left it. An exception other than a SuezError escapes as the refresh raised it. Otherwise the records are those of the refreshed client, valid exactly when the refresh returned and the client is up to date |
| Sensors.ConvertedRecordsHoldNumbers | custom_components/toutsurmoneau/sensor.py:88-99 | records from a converted, up-to-date client carry numbers, except a `None` yesterday total when yesterday's row holds only a delta |
| Sensors.ValidRefreshIsConverted | custom_components/toutsurmoneau/sensor.py:106-110 | valid records come from a converted, up-to-date client |
| Sensors.NewSensor | custom_components/toutsurmoneau/sensor.py:143-148 | the unique id is `suez_{counter}_{idx}` and the name `suez_{counter}_{name}`; the value is adopted only from a valid record |
| Sensors.Entities | custom_components/toutsurmoneau/sensor.py:36-38 | one entity per record, numbered by position |
| Sensors.UniqueIdsDistinct | custom_components/toutsurmoneau/sensor.py:147 | entities of one counter get distinct unique ids |
| Sensors.HandleUpdate | custom_components/toutsurmoneau/sensor.py:157-167 | the entity reads its record by position and adopts the value only when it is valid; a missing record raises IndexError |
| Sensors.RefreshReachesSensors | custom_components/toutsurmoneau/sensor.py:158-167 | after a refresh each sensor shows the refreshed value when the refresh was valid and keeps its previous value otherwise |

## Left out

- The aiohttp session, request tracing, timeouts, cookie-jar internals and `asyncio.run`. Replies, cookie-name sets and the login submission are inputs.
- Reading the Europe/Paris clock. Today's civil date is a parameter; the time of day plays no part.
- Logging, the argparse command line, `config_flow.py` and `__init__.py`. They are wrappers over Home Assistant and library code.
- Entity cosmetics: device class, unit, icon, device info. Also the coordinator's polling interval and `async_write_ha_state`.
- Py.Matches: `isinstance(x, (int, float))` is true of booleans in Python; the model treats booleans as non-numbers.
- Numbers are exact reals. Float rounding and the int/float distinction are not modelled; `ensure_type` accepts both kinds anyway.
- Client.EnvelopeMessage: `str(value)` is kept symbolic (`StrOf(value)`) rather than rendered as text.
- Dict insertion order is not kept (`map`), and neither is the key object Python keeps for equal keys. The checking loop's outcome does not depend on order, since every failure raises the same message.
- UnicodeEscape.Decode: `\N{name}` escapes and escapes of surrogate code points fail in the model. Python would look up the name or produce a lone surrogate.
- The `_token` field is kept only within one login; it is never read elsewhere.
- The form's URL encoding and the verb chosen for the login request are not traced into the submission; `Verb` states the choice alone.
- DataUpdate.MonthPages: a negative year or month never arises for valid dates and is answered as undelivered.
- DataUpdate.MonthPage: for an unknown provider a month page is answered as undelivered, where the source raises KeyError from the URL lookup. The refresh never gets that far, because login already fails with KeyError.
- Home Assistant's handling of a failed refresh (an escaping exception) is not modelled beyond the exception itself.
