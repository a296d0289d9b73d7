/**
 * A decoded JSON document as the scraper sees it after `json.loads`, and the
 * Python operations the extraction applies to it: `d.get(key, default)`,
 * truthiness, iteration, `v[:n]`, `v[0]`, `len(v)` and `s.strip()`. Each
 * operation fails with the exception Python raises when the value has the
 * wrong shape, since the scraper's `try` blocks catch some of them and not others.
 */
module Json {
  import opened Wrappers
  import Text

  /** Objects keep their members in document order; the decoder gives distinct keys. */
  datatype JVal =
    | JNull
    | JBool(b: bool)
    | JNum(n: real)
    | JStr(s: string)
    | JArr(items: seq<JVal>)
    | JObj(members: seq<Member>)

  datatype Member = Member(key: string, value: JVal)

  /** The Python exceptions the extraction code can raise on a decoded document. */
  datatype PyError = AttributeError | KeyError | TypeError | IndexError | ValueError

  const EmptyObj: JVal := JObj([])

  /** Python truthiness: `None`, `False`, `0`, and empty strings, lists and dicts are false. */
  predicate Truthy(v: JVal) {
    match v
    case JNull => false
    case JBool(b) => b
    case JNum(n) => n != 0.0
    case JStr(s) => s != []
    case JArr(xs) => xs != []
    case JObj(ms) => ms != []
  }

  /** The value bound to `key`, if any. */
  function Lookup(members: seq<Member>, key: string): (r: Option<JVal>)
    ensures r.None? <==> forall i :: 0 <= i < |members| ==> members[i].key != key
    ensures r.Some? ==> exists i :: 0 <= i < |members| && members[i] == Member(key, r.value)
  {
    if members == [] then None
    else if members[0].key == key then Some(members[0].value)
    else
      var r := Lookup(members[1..], key);
      assert forall i :: 1 <= i < |members| ==> members[i] == members[1..][i - 1];
      r
  }

  /** `d.get(key, default)` on a dict with members `ms`. */
  function Field(ms: seq<Member>, key: string, default: JVal): (r: JVal)
    ensures (forall i :: 0 <= i < |ms| ==> ms[i].key != key) ==> r == default
    ensures r != default ==> exists i :: 0 <= i < |ms| && ms[i] == Member(key, r)
  {
    Lookup(ms, key).GetOr(default)
  }

  /** `v.get(key, default)`: only a dict has `get`. */
  function Get(v: JVal, key: string, default: JVal): (r: Result<JVal, PyError>)
    ensures r.Failure? <==> !v.JObj?
    ensures r.Failure? ==> r.error == AttributeError
    ensures v.JObj? ==> r.value == Field(v.members, key, default)
  {
    match v
    case JObj(ms) => Success(Field(ms, key, default))
    case _ => Failure(AttributeError)
  }

  /** `v.get(p0, {}).get(p1, {}) ... .get(pn, default)`. */
  function Dig(v: JVal, path: seq<string>, default: JVal): (r: Result<JVal, PyError>)
    requires path != []
    ensures r.Failure? ==> r.error == AttributeError
    ensures !v.JObj? ==> r.Failure?
    decreases |path|
  {
    if |path| == 1 then Get(v, path[0], default)
    else
      var w :- Get(v, path[0], EmptyObj);
      Dig(w, path[1..], default)
  }

  /** The characters of a string, each as a one-character string. */
  function Chars(s: string): (r: seq<JVal>)
    ensures |r| == |s|
    ensures forall i :: 0 <= i < |s| ==> r[i] == JStr([s[i]])
  {
    seq(|s|, i requires 0 <= i < |s| => JStr([s[i]]))
  }

  /** The keys of a dict, each as a string. */
  function Keys(ms: seq<Member>): (r: seq<JVal>)
    ensures |r| == |ms|
  {
    seq(|ms|, i requires 0 <= i < |ms| => JStr(ms[i].key))
  }

  /** `v[:n]`. Slicing a dict looks the slice up as a key (Python 3.12 and later). */
  function Slice(v: JVal, n: int): (r: Result<seq<JVal>, PyError>)
    ensures r.Success? <==> v.JArr? || v.JStr?
    ensures v.JObj? ==> r == Failure(KeyError)
    ensures v.JArr? ==> r == Success(Text.PySlice(v.items, n))
    ensures r.Success? && n >= 0 ==> |r.value| <= n
  {
    match v
    case JArr(xs) => Success(Text.PySlice(xs, n))
    case JStr(s) => Success(Chars(Text.PySlice(s, n)))
    case JObj(_) => Failure(KeyError)
    case _ => Failure(TypeError)
  }

  /** The values `for x in v` visits. */
  function Elements(v: JVal): (r: Result<seq<JVal>, PyError>)
    ensures r.Success? <==> v.JArr? || v.JStr? || v.JObj?
    ensures v.JArr? ==> r == Success(v.items)
  {
    match v
    case JArr(xs) => Success(xs)
    case JStr(s) => Success(Chars(s))
    case JObj(ms) => Success(Keys(ms))
    case _ => Failure(TypeError)
  }

  /** `v[0]`. */
  function First(v: JVal): (r: Result<JVal, PyError>)
    ensures v.JArr? && v.items != [] ==> r == Success(v.items[0])
    ensures r.Success? ==> Truthy(v)
  {
    match v
    case JArr(xs) => if xs == [] then Failure(IndexError) else Success(xs[0])
    case JStr(s) => if s == [] then Failure(IndexError) else Success(JStr([s[0]]))
    case JObj(_) => Failure(KeyError)
    case _ => Failure(TypeError)
  }

  /** `len(v)`. */
  function Len(v: JVal): (r: Result<nat, PyError>)
    ensures r.Success? <==> v.JArr? || v.JStr? || v.JObj?
    ensures r.Success? ==> (r.value > 0 <==> Truthy(v))
  {
    match v
    case JArr(xs) => Success(|xs|)
    case JStr(s) => Success(|s|)
    case JObj(ms) => Success(|ms|)
    case _ => Failure(TypeError)
  }

  /** `v.strip()`: only a string has `strip`. */
  function StripText(v: JVal): (r: Result<string, PyError>)
    ensures r.Success? <==> v.JStr?
    ensures r.Failure? ==> r.error == AttributeError
    ensures v.JStr? ==> r.value == Text.Strip(v.s)
  {
    match v
    case JStr(s) => Success(Text.Strip(s))
    case _ => Failure(AttributeError)
  }
}
