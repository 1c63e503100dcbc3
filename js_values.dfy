/** The JavaScript values that flow through the validators, the exceptions
    they can throw, and the `JSON` object, which the model takes as a
    parameter because its algorithms are not part of this repository. */
module JsValues {
  import opened Wrappers

  /** A JavaScript number. Only the distinctions the code makes are kept:
      finite values, NaN and the two infinities. */
  datatype Number = Finite(value: real) | NaN | PositiveInfinity | NegativeInfinity

  datatype JsValue =
    | Undefined
    | Null
    | Boolean(b: bool)
    | Num(n: Number)
    | Str(s: string)
    | BigInt(i: int)
    | Array(elements: seq<JsValue>)
    | Object(entries: seq<(string, JsValue)>)
      /** A function value, carrying the name io-ts's `getFunctionName` gives it. */
    | Function(functionName: string)

  /** The completion of a JavaScript call: it returns a value or throws one. */
  datatype Outcome<+T> = Returned(value: T) | Threw(exception: JsValue)

  /** `JSON.parse` and `JSON.stringify`. They are partial: parsing throws a
      `SyntaxError` on malformed text, and stringification throws on
      cycles and BigInts and returns `undefined` (here `None`) for
      `undefined` and functions. */
  datatype JsonRuntime = JsonRuntime(
    parse: string -> Outcome<JsValue>,
    stringify: JsValue -> Outcome<Option<string>>)

  /** A regular expression, known only by its source text and flags. */
  datatype RegExp = RegExp(source: string, flags: string)

  /** `s.startsWith(prefix)` */
  predicate StartsWith(s: string, prefix: string) {
    |prefix| <= |s| && s[..|prefix|] == prefix
  }

  /** How a template literal renders `string | undefined`: `${undefined}` is "undefined". */
  function TemplateText(t: Option<string>): string {
    match t
    case Some(s) => s
    case None => "undefined"
  }

  /** `parts.join(sep)` */
  function Join(parts: seq<string>, sep: string): (r: string)
    ensures parts == [] ==> r == ""
    ensures |parts| == 1 ==> r == parts[0]
    decreases |parts|
  {
    if parts == [] then ""
    else if |parts| == 1 then parts[0]
    else Join(parts[..|parts| - 1], sep) + sep + parts[|parts| - 1]
  }

  /** Joining one more part appends the separator and that part. */
  lemma {:induction false} JoinSnoc(parts: seq<string>, last: string, sep: string)
    requires parts != []
    ensures Join(parts + [last], sep) == Join(parts, sep) + sep + last
  {
    assert (parts + [last])[..|parts + [last]| - 1] == parts;
  }
}
