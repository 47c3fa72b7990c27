/**
 Python's view of what the portal sends back: the values `json.loads` produces,
 the exceptions the client raises or lets escape, and the few Python operations
 the client applies to decoded payloads (indexing, slicing, iteration, unpacking).
 */
module Py {

  /** A value that may be absent (Python `None` in a field or a regex miss). */
  datatype Option<+T> = None | Some(value: T) {
    function GetOr(default: T): T {
      match this
      case Some(v) => v
      case None => default
    }
  }

  /** A decoded JSON value. Python's `int` and `float` are both `JNum`. An object
      keeps its members in document order; a repeated key counts once. */
  datatype Json =
    | JNull
    | JBool(b: bool)
    | JNum(n: real)
    | JStr(s: string)
    | JList(items: seq<Json>)
    | JObj(fields: seq<(string, Json)>)

  /** The element types `ensure_type` is asked to check: `(int, float)` or `str`. */
  datatype Expect = ExpectNumber | ExpectText

  /** The text carried by a `SuezError`. */
  datatype Message =
    | Text(text: string)
      /** `str(value)`: the rendering of a payload value */
    | StrOf(value: Json)
      /** `f"{value} was expected to be {expected}"` */
    | Mismatch(value: Json, expected: Expect)

  /** Exceptions other than `SuezError`; nothing in the client catches these
      except the blanket `except Exception` around result assembly. */
  datatype Fault =
    | IndexError
    | KeyError
    | TypeError
    | ValueError
    | AttributeError
    | OverflowError
    | UnicodeDecodeError
      /** a failed request, a failed body read or a body that is not JSON */
    | NetworkFailure

  datatype Error = SuezError(message: Message) | Escaped(fault: Fault)

  /** The outcome of a step: a value, or the exception it raises. */
  datatype Result<+T> = Ok(value: T) | Err(error: Error) {
    predicate IsFailure() {
      Err?
    }

    function PropagateFailure<U>(): Result<U>
      requires Err?
    {
      Err(error)
    }

    function Extract(): T
      requires Ok?
    {
      value
    }
  }

  /** `isinstance(v, expected)`, leaving out that Python's `bool` is an `int`. */
  predicate Matches(v: Json, expected: Expect) {
    match expected
    case ExpectNumber => v.JNum?
    case ExpectText => v.JStr?
  }

  /** Whether `v` can be a dict key (lists and dicts are unhashable). */
  predicate Hashable(v: Json) {
    !v.JList? && !v.JObj?
  }

  /** The distinct keys of an object's members, in first-occurrence order. */
  function ObjectKeys(fields: seq<(string, Json)>, seen: set<string>): (keys: seq<string>)
    ensures forall i | 0 <= i < |keys| :: keys[i] !in seen
    ensures |keys| <= |fields|
    ensures forall i, j | 0 <= i < j < |keys| :: keys[i] != keys[j]
    ensures forall i | 0 <= i < |keys| :: exists j | 0 <= j < |fields| :: fields[j].0 == keys[i]
    ensures forall j | 0 <= j < |fields| :: fields[j].0 in seen || fields[j].0 in keys
  {
    if |fields| == 0 then []
    else if fields[0].0 in seen then ObjectKeys(fields[1..], seen)
    else [fields[0].0] + ObjectKeys(fields[1..], seen + {fields[0].0})
  }

  /** The one-character strings Python yields when iterating a `str`. */
  function Chars(s: string): (cs: seq<Json>)
    ensures |cs| == |s|
    ensures forall i | 0 <= i < |s| :: cs[i] == JStr([s[i]])
  {
    seq(|s|, i requires 0 <= i < |s| => JStr([s[i]]))
  }

  /** `len(v)` */
  function Len(v: Json): (r: Result<nat>)
    ensures r.Ok? <==> (v.JList? || v.JStr? || v.JObj?)
  {
    match v
    case JList(xs) => Ok(|xs|)
    case JStr(s) => Ok(|s|)
    case JObj(fs) => Ok(|ObjectKeys(fs, {})|)
    case _ => Err(Escaped(TypeError))
  }

  /** `for x in v`: the items iteration yields, in order. */
  function Iter(v: Json): (r: Result<seq<Json>>)
    ensures r.Ok? <==> (v.JList? || v.JStr? || v.JObj?)
    ensures v.JList? ==> r == Ok(v.items)
    ensures v.JStr? ==> r == Ok(Chars(v.s))
    ensures v.JObj? ==>
      && |r.value| == |ObjectKeys(v.fields, {})|
      && forall i | 0 <= i < |r.value| :: r.value[i] == JStr(ObjectKeys(v.fields, {})[i])
  {
    match v
    case JList(xs) => Ok(xs)
    case JStr(s) => Ok(Chars(s))
    case JObj(fs) => Ok(seq(|ObjectKeys(fs, {})|, i requires 0 <= i < |ObjectKeys(fs, {})| => JStr(ObjectKeys(fs, {})[i])))
    case _ => Err(Escaped(TypeError))
  }

  /** Whether `i` is a valid (possibly negative) Python index into a sequence of length `n`. */
  predicate InRange(i: int, n: nat) {
    -(n as int) <= i < n
  }

  /** The position a valid Python index denotes. */
  function Position(i: int, n: nat): (k: nat)
    requires InRange(i, n)
    ensures k < n
    ensures i >= 0 ==> k == i
    ensures i < 0 ==> k + (-i) == n
  {
    if i < 0 then n + i else i
  }

  /** `v[i]` for an integer `i`. An object is keyed by strings, so an integer is never one of its keys. */
  function Index(v: Json, i: int): (r: Result<Json>)
    ensures r.Ok? <==> ((v.JList? && InRange(i, |v.items|)) || (v.JStr? && InRange(i, |v.s|)))
    ensures r.Ok? && v.JList? ==> r.value == v.items[Position(i, |v.items|)]
    ensures r.Ok? && v.JStr? ==> r.value == JStr([v.s[Position(i, |v.s|)]])
    ensures r.Err? ==> r.error == Escaped(if v.JObj? then KeyError else if v.JList? || v.JStr? then IndexError else TypeError)
  {
    match v
    case JList(xs) => if InRange(i, |xs|) then Ok(xs[Position(i, |xs|)]) else Err(Escaped(IndexError))
    case JStr(s) => if InRange(i, |s|) then Ok(JStr([s[Position(i, |s|)]])) else Err(Escaped(IndexError))
    case JObj(_) => Err(Escaped(KeyError))
    case _ => Err(Escaped(TypeError))
  }

  /** A slice bound after Python's adjustment: negatives count from the end, then clamp to `[0, n]`. */
  function Clamp(x: int, n: nat): (k: nat)
    ensures k <= n
  {
    if x < 0 then (if x + n < 0 then 0 else x + n) else if x > n then n else x
  }

  /** The `(start, stop)` positions `v[lo:hi]` selects in a sequence of length `n`. */
  function SliceBounds(lo: Option<int>, hi: Option<int>, n: nat): (b: (nat, nat))
    ensures b.0 <= b.1 <= n
  {
    var start := if lo.Some? then Clamp(lo.value, n) else 0;
    var stop := if hi.Some? then Clamp(hi.value, n) else n;
    if stop < start then (start, start) else (start, stop)
  }

  /** `v[lo:hi]`; slicing never raises on a list or a string. */
  function Slice(v: Json, lo: Option<int>, hi: Option<int>): (r: Result<Json>)
    ensures r.Ok? <==> (v.JList? || v.JStr?)
    ensures r.Err? ==> r.error == Escaped(TypeError)
    ensures v.JList? ==> r.Ok? && r.value.JList?
    ensures v.JStr? ==> r.Ok? && r.value.JStr?
    ensures v.JList? ==>
      var b := SliceBounds(lo, hi, |v.items|);
      && |r.value.items| == b.1 - b.0
      && forall i | 0 <= i < |r.value.items| :: r.value.items[i] == v.items[b.0 + i]
    ensures v.JStr? ==>
      var b := SliceBounds(lo, hi, |v.s|);
      && |r.value.s| == b.1 - b.0
      && forall i | 0 <= i < |r.value.s| :: r.value.s[i] == v.s[b.0 + i]
  {
    match v
    case JList(xs) =>
      var b := SliceBounds(lo, hi, |xs|);
      Ok(JList(xs[b.0..b.1]))
    case JStr(s) =>
      var b := SliceBounds(lo, hi, |s|);
      Ok(JStr(s[b.0..b.1]))
    case _ => Err(Escaped(TypeError))
  }

  /** `a, b, c = v`: iteration must yield exactly three items. */
  function Unpack3(v: Json): (r: Result<(Json, Json, Json)>)
    ensures r.Ok? <==> Iter(v).Ok? && |Iter(v).value| == 3
    ensures r.Ok? ==> r.value == (Iter(v).value[0], Iter(v).value[1], Iter(v).value[2])
    ensures r.Err? ==> r.error == Escaped(if Iter(v).Ok? then ValueError else TypeError)
  {
    match Iter(v)
    case Err(e) => Err(e)
    case Ok(xs) => if |xs| == 3 then Ok((xs[0], xs[1], xs[2])) else Err(Escaped(ValueError))
  }
}
