/**
 What the client reads out of HTML pages: the anti-forgery token of the login
 page (two regular expressions tried in a fixed order) and the counter id on
 the consumption page. Each regular expression is modelled twice: as the
 position-by-position matcher `re.search` runs (leftmost start first), and as
 the set of texts the pattern describes; a lemma shows the two agree.
 */
module Scrape {
  import opened Py
  import opened Text
  import UnicodeEscape

  /** The literal part of `csrf_token(.*)`. */
  const TokenIMarker := "csrf_token"
  /** The text before the group of the second token pattern: `csrfToken`, then an
      escaped quote, an escaped colon and an escaped quote, backslashes included. */
  const TokenIIOpen := "csrfToken\\u0022\\u003A\\u0022"
  /** A JSON-escaped double quote as it appears in the page: six characters. */
  const EscapedQuote := "\\u0022"
  /** The literal part of `exporter-consommation/month/([0-9]+)`. */
  const CounterMarker := "exporter-consommation/month/"

  /** `pat` occurs at `p` and nowhere to its left: where `re.search` matches a literal. */
  predicate FirstAt(s: string, p: nat, pat: string) {
    StartsAt(s, p, pat) && forall q | 0 <= q < p :: !StartsAt(s, q, pat)
  }

  // ---------------------------------------------------------------------------
  // Method I: `csrf_token(.*)`

  /** The end of the line position `i` lies on: the first `\n` at or after `i`, or the end of `s`. */
  function LineEnd(s: string, i: nat): (e: nat)
    requires i <= |s|
    decreases |s| - i
    ensures i <= e <= |s|
    ensures e < |s| ==> s[e] == '\n'
    ensures forall k | i <= k < e :: s[k] != '\n'
  {
    if i == |s| || s[i] == '\n' then i else LineEnd(s, i + 1)
  }

  /** What `.*` captures from `i`: the rest of that line, up to a `\n` or the end. */
  predicate RestOfLine(s: string, i: nat, t: string) {
    && StartsAt(s, i, t)
    && (forall k | 0 <= k < |t| :: t[k] != '\n')
    && (i + |t| == |s| || s[i + |t|] == '\n')
  }

  /** The group of `csrf_token(.*)` when a match starts at `p`. */
  function MatchTokenI(s: string, p: nat): Option<string> {
    if StartsAt(s, p, TokenIMarker) then
      Some(s[p + |TokenIMarker|..LineEnd(s, p + |TokenIMarker|)])
    else None
  }

  /** `_get_token_1`: the rest of the line after the first `csrf_token`, or `None`
      when the page has no such marker. The text may be empty. */
  function TokenI(s: string): (r: Option<string>)
    ensures r.None? <==> forall p | 0 <= p <= |s| :: !StartsAt(s, p, TokenIMarker)
    ensures r.Some? ==>
      exists p | 0 <= p <= |s| :: FirstAt(s, p, TokenIMarker) && RestOfLine(s, p + |TokenIMarker|, r.value)
  {
    var f := (k: nat) => MatchTokenI(s, k);
    assert forall k: nat :: f(k) == MatchTokenI(s, k);
    match FirstSome(0, |s|, f)
    case None =>
      assert forall p | 0 <= p <= |s| :: !StartsAt(s, p, TokenIMarker) by {
        forall p | 0 <= p <= |s| ensures !StartsAt(s, p, TokenIMarker) {
          assert f(p).None?;
        }
      }
      None
    case Some((p, t)) =>
      assert MatchTokenI(s, p) == Some(t);
      assert FirstAt(s, p, TokenIMarker) by {
        forall q | 0 <= q < p ensures !StartsAt(s, q, TokenIMarker) {
          assert f(q).None?;
        }
      }
      assert RestOfLine(s, p + |TokenIMarker|, t);
      Some(t)
  }

  // ---------------------------------------------------------------------------
  // Method II: `csrfToken\\u0022\\u003A\\u0022([^,]+)\\u0022,\\u0022`

  /** The first comma at or after `i`. */
  function NextComma(s: string, i: nat): (c: Option<nat>)
    requires i <= |s|
    decreases |s| - i
    ensures c.Some? ==> i <= c.value < |s| && s[c.value] == ',' && forall k | i <= k < c.value :: s[k] != ','
    ensures c.None? ==> forall k | i <= k < |s| :: s[k] != ','
  {
    if i == |s| then None
    else if s[i] == ',' then Some(i)
    else NextComma(s, i + 1)
  }

  /** The group of the second pattern when a match starts at `p`. `[^,]+` cannot
      cross a comma and the text after the group holds one, so the group ends
      an escaped quote before the first comma after the opening. */
  function MatchTokenII(s: string, p: nat): Option<string> {
    var q := p + |TokenIIOpen|;
    if !StartsAt(s, p, TokenIIOpen) then None
    else match NextComma(s, q)
      case None => None
      case Some(c) =>
        if q + 1 + |EscapedQuote| <= c && StartsAt(s, c - |EscapedQuote|, EscapedQuote) && StartsAt(s, c + 1, EscapedQuote)
        then Some(s[q..c - |EscapedQuote|])
        else None
  }

  /** The language of the second pattern: a match at `p` whose group is `g`. */
  predicate TokenIIAt(s: string, p: nat, g: string) {
    && |g| >= 1
    && ',' !in g
    && StartsAt(s, p, TokenIIOpen + g + EscapedQuote + "," + EscapedQuote)
  }

  /** Matching the whole second pattern is matching its five pieces in a row. */
  lemma TokenIIPieces(s: string, p: nat, g: string)
    ensures StartsAt(s, p, TokenIIOpen + g + EscapedQuote + "," + EscapedQuote) <==>
      var q := p + |TokenIIOpen|;
      && StartsAt(s, p, TokenIIOpen)
      && StartsAt(s, q, g)
      && StartsAt(s, q + |g|, EscapedQuote)
      && q + |g| + |EscapedQuote| < |s| && s[q + |g| + |EscapedQuote|] == ','
      && StartsAt(s, q + |g| + |EscapedQuote| + 1, EscapedQuote)
  {
    var q := p + |TokenIIOpen|;
    StartsAtConcat(s, p, TokenIIOpen + g + EscapedQuote + ",", EscapedQuote);
    StartsAtConcat(s, p, TokenIIOpen + g + EscapedQuote, ",");
    StartsAtConcat(s, p, TokenIIOpen + g, EscapedQuote);
    StartsAtConcat(s, p, TokenIIOpen, g);
    var c := q + |g| + |EscapedQuote|;
    if c < |s| {
      assert s[c..c + 1] == [s[c]];
    }
  }

  /** Every match the pattern describes is found by the matcher. */
  lemma MatchTokenIIComplete(s: string, p: nat, g: string)
    requires TokenIIAt(s, p, g)
    ensures MatchTokenII(s, p) == Some(g)
  {
    var q := p + |TokenIIOpen|;
    TokenIIPieces(s, p, g);
    var c := q + |g| + |EscapedQuote|;
    assert s[q..q + |g|] == g;
    assert s[q + |g|..c] == EscapedQuote;
    forall k | q <= k < c ensures s[k] != ',' {
      if k < q + |g| {
        assert s[k] == s[q..q + |g|][k - q];
        assert g[k - q] in g;
      } else {
        assert s[k] == s[q + |g|..c][k - q - |g|];
      }
    }
    assert NextComma(s, q) == Some(c);
  }

  /** Everything the matcher finds is a match the pattern describes. */
  lemma MatchTokenIISound(s: string, p: nat, g: string)
    requires MatchTokenII(s, p) == Some(g)
    ensures TokenIIAt(s, p, g)
  {
    var q := p + |TokenIIOpen|;
    TokenIIPieces(s, p, g);
    var c := NextComma(s, q).value;
    assert forall k | 0 <= k < |g| :: g[k] == s[q + k];
    assert c == q + |g| + |EscapedQuote|;
  }

  /** The matcher finds exactly the matches the pattern describes. */
  lemma MatchTokenIIExact(s: string, p: nat, g: string)
    ensures MatchTokenII(s, p) == Some(g) <==> TokenIIAt(s, p, g)
  {
    if TokenIIAt(s, p, g) {
      MatchTokenIIComplete(s, p, g);
    }
    if MatchTokenII(s, p) == Some(g) {
      MatchTokenIISound(s, p, g);
    }
  }

  /** `_get_token_2`: the group of the leftmost match, decoded with
      `unicode_escape`; `None` when nothing matches. Decoding may fail. */
  function TokenII(s: string): (r: Result<Option<string>>)
    ensures r == Ok(None) <==> forall p | 0 <= p <= |s| :: MatchTokenII(s, p).None?
    ensures r.Err? ==> r.error == Escaped(UnicodeDecodeError)
    ensures r.Ok? && r.value.Some? ==>
      exists p | 0 <= p <= |s| ::
        && (forall q | 0 <= q < p :: MatchTokenII(s, q).None?)
        && MatchTokenII(s, p).Some?
        && UnicodeEscape.Unescape(MatchTokenII(s, p).value) == Ok(r.value.value)
  {
    var f := (k: nat) => MatchTokenII(s, k);
    assert forall k: nat :: f(k) == MatchTokenII(s, k);
    match FirstSome(0, |s|, f)
    case None => Ok(None)
    case Some((p, g)) =>
      assert MatchTokenII(s, p) == Some(g);
      match UnicodeEscape.Unescape(g)
      case Ok(t) => Ok(Some(t))
      case Err(e) => Err(e)
  }

  /** Method II in terms of the pattern's language: it decodes the group of the
      leftmost match. */
  lemma TokenIILeftmost(s: string, p: nat, g: string)
    requires p <= |s| && TokenIIAt(s, p, g)
    requires forall q, h | 0 <= q < p :: !TokenIIAt(s, q, h)
    ensures TokenII(s).Ok? <==> UnicodeEscape.Unescape(g).Ok?
    ensures UnicodeEscape.Unescape(g).Ok? ==> TokenII(s) == Ok(Some(UnicodeEscape.Unescape(g).value))
  {
    MatchTokenIIExact(s, p, g);
    forall q | 0 <= q < p ensures MatchTokenII(s, q).None? {
      if MatchTokenII(s, q).Some? {
        MatchTokenIIExact(s, q, MatchTokenII(s, q).value);
      }
    }
    var f := (k: nat) => MatchTokenII(s, k);
    var r := FirstSome(0, |s|, f);
    assert f(p) == Some(g);
    assert r.Some? && r.value.0 == p;
  }

  /** Method II finds nothing exactly when the pattern occurs nowhere. */
  lemma TokenIIAbsent(s: string)
    ensures TokenII(s) == Ok(None) <==> forall p, g | 0 <= p <= |s| :: !TokenIIAt(s, p, g)
  {
    if TokenII(s) == Ok(None) {
      forall p, g | 0 <= p <= |s| ensures !TokenIIAt(s, p, g) {
        if TokenIIAt(s, p, g) {
          MatchTokenIIComplete(s, p, g);
        }
      }
    } else {
      var p :| 0 <= p <= |s| && MatchTokenII(s, p).Some?;
      MatchTokenIISound(s, p, MatchTokenII(s, p).value);
    }
  }

  // ---------------------------------------------------------------------------
  // `_get_token`: method I, then method II

  /** A text Python treats as true: present and not empty. */
  predicate Truthy(t: Option<string>) {
    t.Some? && t.value != ""
  }

  const NoToken := SuezError(Text("Can't get token."))

  /** `_get_token_1(c) or _get_token_2(c)`, then the `is None` test: method II
      is consulted only when method I finds nothing or an empty text. */
  function GetToken(page: string): (r: Result<string>)
    ensures Truthy(TokenI(page)) ==> r == Ok(TokenI(page).value)
    ensures r == Err(NoToken) <==> !Truthy(TokenI(page)) && TokenII(page) == Ok(None)
    ensures r.Err? ==> r.error == NoToken || r.error == Escaped(UnicodeDecodeError)
    ensures r.Ok? && !Truthy(TokenI(page)) ==> TokenII(page) == Ok(Some(r.value))
  {
    var first := TokenI(page);
    if Truthy(first) then Ok(first.value)
    else
      var second :- TokenII(page);
      if second.None? then Err(NoToken) else Ok(second.value)
  }

  /** A page that embeds the token only in the JSON-escaped form yields the
      token itself: escaping followed by `unicode_escape` decoding is the identity. */
  lemma EscapedTokenRecovered(t: string, rest: string)
    requires |t| >= 1
    requires forall p | 0 <= p <= |TokenIIOpen + UnicodeEscape.EscapeAll(t) + EscapedQuote + "," + EscapedQuote + rest| ::
      !StartsAt(TokenIIOpen + UnicodeEscape.EscapeAll(t) + EscapedQuote + "," + EscapedQuote + rest, p, TokenIMarker)
    ensures GetToken(TokenIIOpen + UnicodeEscape.EscapeAll(t) + EscapedQuote + "," + EscapedQuote + rest) == Ok(t)
  {
    var g := UnicodeEscape.EscapeAll(t);
    var w := TokenIIOpen + g + EscapedQuote + "," + EscapedQuote;
    var page := w + rest;
    assert page[0..|w|] == w;
    assert TokenIIAt(page, 0, g);
    UnicodeEscape.EscapeRoundTrip(t);
    TokenIILeftmost(page, 0, g);
  }

  // ---------------------------------------------------------------------------
  // `_fetch_consumption`: `exporter-consommation/month/([0-9]+)`

  /** The end of the run of decimal digits that starts at `i`. */
  function DigitsEnd(s: string, i: nat): (e: nat)
    requires i <= |s|
    decreases |s| - i
    ensures i <= e <= |s|
    ensures forall k | i <= k < e :: IsDigit(s[k])
    ensures e < |s| ==> !IsDigit(s[e])
  {
    if i < |s| && IsDigit(s[i]) then DigitsEnd(s, i + 1) else i
  }

  /** The group of the counter pattern when a match starts at `p`: `[0-9]+` is greedy. */
  function MatchCounter(s: string, p: nat): (m: Option<string>)
    ensures m.Some? ==> |m.value| >= 1 && AllDigits(m.value)
  {
    var q := p + |CounterMarker|;
    if StartsAt(s, p, CounterMarker) && q < |s| && IsDigit(s[q]) then Some(s[q..DigitsEnd(s, q)])
    else None
  }

  /** The language of the counter pattern with a greedy group: the marker, then
      a maximal non-empty run of digits. */
  predicate CounterAt(s: string, p: nat, g: string) {
    && |g| >= 1
    && AllDigits(g)
    && StartsAt(s, p, CounterMarker + g)
    && (p + |CounterMarker| + |g| == |s| || !IsDigit(s[p + |CounterMarker| + |g|]))
  }

  /** The matcher finds every match of the counter pattern. */
  lemma MatchCounterComplete(s: string, p: nat, g: string)
    requires CounterAt(s, p, g)
    ensures MatchCounter(s, p) == Some(g)
  {
    var q := p + |CounterMarker|;
    StartsAtConcat(s, p, CounterMarker, g);
    assert forall k | q <= k < q + |g| :: s[k] == g[k - q];
    assert s[q] == g[0];
    assert DigitsEnd(s, q) == q + |g|;
  }

  /** Everything the matcher finds is a match of the counter pattern. */
  lemma MatchCounterSound(s: string, p: nat, g: string)
    requires MatchCounter(s, p) == Some(g)
    ensures CounterAt(s, p, g)
  {
    var q := p + |CounterMarker|;
    StartsAtConcat(s, p, CounterMarker, g);
    assert forall k | 0 <= k < |g| :: g[k] == s[q + k];
  }

  lemma MatchCounterExact(s: string, p: nat, g: string)
    ensures MatchCounter(s, p) == Some(g) <==> CounterAt(s, p, g)
  {
    if CounterAt(s, p, g) {
      MatchCounterComplete(s, p, g);
    }
    if MatchCounter(s, p) == Some(g) {
      MatchCounterSound(s, p, g);
    }
  }

  /** `_fetch_consumption`: the digits of the leftmost match. Without a match
      `None.group` raises AttributeError, which is not a `SuezError`. */
  function CounterId(page: string): (r: Result<string>)
    ensures r.Err? <==> forall p | 0 <= p <= |page| :: MatchCounter(page, p).None?
    ensures r.Err? ==> r.error == Escaped(AttributeError)
    ensures r.Ok? ==> |r.value| >= 1 && AllDigits(r.value)
    ensures r.Ok? ==>
      exists p | 0 <= p <= |page| ::
        MatchCounter(page, p) == Some(r.value) && forall q | 0 <= q < p :: MatchCounter(page, q).None?
  {
    var f := (k: nat) => MatchCounter(page, k);
    assert forall k: nat :: f(k) == MatchCounter(page, k);
    match FirstSome(0, |page|, f)
    case None => Err(Escaped(AttributeError))
    case Some((p, g)) =>
      assert MatchCounter(page, p) == Some(g);
      Ok(g)
  }

  /** The counter id in terms of the pattern's language: the digit run of the leftmost match. */
  lemma CounterIdLeftmost(page: string, p: nat, g: string)
    requires p <= |page| && CounterAt(page, p, g)
    requires forall q, h | 0 <= q < p :: !CounterAt(page, q, h)
    ensures CounterId(page) == Ok(g)
  {
    MatchCounterExact(page, p, g);
    forall q | 0 <= q < p ensures MatchCounter(page, q).None? {
      if MatchCounter(page, q).Some? {
        MatchCounterExact(page, q, MatchCounter(page, q).value);
      }
    }
    var f := (k: nat) => MatchCounter(page, k);
    assert f(p) == Some(g);
    assert FirstSome(0, |page|, f).value.0 == p;
  }

  /** The scrape fails exactly when the pattern occurs nowhere. */
  lemma CounterIdMissing(page: string)
    ensures CounterId(page).Err? <==> forall p, g | 0 <= p <= |page| :: !CounterAt(page, p, g)
  {
    if CounterId(page).Err? {
      forall p, g | 0 <= p <= |page| ensures !CounterAt(page, p, g) {
        if CounterAt(page, p, g) {
          MatchCounterComplete(page, p, g);
        }
      }
    } else {
      var p :| 0 <= p <= |page| && MatchCounter(page, p).Some?;
      MatchCounterSound(page, p, MatchCounter(page, p).value);
    }
  }

  /** A counter number written right after the marker at the start of the page
      is read back as that number. */
  lemma CounterNumberRecovered(n: nat, rest: string)
    requires |rest| == 0 || !IsDigit(rest[0])
    ensures CounterId(CounterMarker + Decimal(n) + rest).Ok?
    ensures DecimalValue(CounterId(CounterMarker + Decimal(n) + rest).value) == n
  {
    var d := Decimal(n);
    var page := CounterMarker + d + rest;
    assert page[0..|CounterMarker + d|] == CounterMarker + d;
    assert |CounterMarker| + |d| < |page| ==> page[|CounterMarker| + |d|] == rest[0];
    assert CounterAt(page, 0, d);
    CounterIdLeftmost(page, 0, d);
    DecimalRoundTrip(n);
  }
}
