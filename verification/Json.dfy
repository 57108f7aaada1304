/** The JSON reader and printer: a value type, its printed form, and the parser object. */
module Json {
  import opened Wrappers
  import opened JsonText
  import opened JsonNormal

  /** The value classes that are ever built; an element whose value pointer is null has none. */
  datatype Value =
    | IntValue(n: int)
    | StringValue(s: string)
    | ObjectValue(elements: seq<Element>)
    | VectorValue(items: seq<Value>)

  datatype Element = Element(key: string, value: Option<Value>)

  // ----- printing -----

  function Decimal(n: int): string
    decreases n < 0, if n < 0 then -n else n
  {
    if n < 0 then "-" + Decimal(-n)
    else if n < 10 then ["0123456789"[n]]
    else Decimal(n / 10) + ["0123456789"[n % 10]]
  }

  predicate IsEscaped(c: char) {
    c == '\\' || c == '"'
  }

  function Escape(s: string): string {
    if s == "" then ""
    else (if IsEscaped(s[0]) then ['\\', s[0]] else [s[0]]) + Escape(s[1..])
  }

  lemma {:induction false} EscapeNothing(s: string)
    requires forall i :: 0 <= i < |s| ==> !IsEscaped(s[i])
    ensures Escape(s) == s
  {
    if s != "" {
      EscapeNothing(s[1..]);
    }
  }

  function PrintValue(v: Value): string
    decreases v
  {
    match v
    case IntValue(n) => Decimal(n)
    case StringValue(s) => "\"" + Escape(s) + "\""
    case ObjectValue(es) => PrintObject(es)
    case VectorValue(vs) => "[" + Join(PrintItems(vs), ", ") + "]"
  }

  function PrintItems(vs: seq<Value>): (ps: seq<string>)
    ensures |ps| == |vs|
    decreases vs
  {
    if |vs| == 0 then [] else [PrintValue(vs[0])] + PrintItems(vs[1..])
  }

  function PrintElement(e: Element): string
    decreases e
  {
    match e.value
    case Some(v) => "\"" + e.key + "\"" + ": " + PrintValue(v)
    case None => "\"" + e.key + "\"" + ": " + "\"null\""
  }

  function PrintElements(es: seq<Element>): (ps: seq<string>)
    ensures |ps| == |es|
    decreases es, 0
  {
    if |es| == 0 then [] else [PrintElement(es[0])] + PrintElements(es[1..])
  }

  function PrintObject(es: seq<Element>): string
    decreases es, 1
  {
    "{" + Join(PrintElements(es), ", ") + "}"
  }

  // ----- parsing -----

  function IndexOf(s: string, c: char): (r: Option<nat>)
    ensures r.Some? ==> r.value < |s| && s[r.value] == c
  {
    if s == "" then None
    else if s[0] == c then Some(0)
    else Shift(IndexOf(s[1..], c), 1)
  }

  predicate Wrapped(s: string, open: char, close: char) {
    |s| > 0 && s[0] == open && s[|s| - 1] == close
  }

  /** `s.substr(1, s.size() - 2)`; a text of one character gives the empty one. */
  function Inner(s: string): (r: string)
    requires |s| > 0
    ensures |r| < |s|
  {
    if |s| == 1 then "" else s[1..|s| - 1]
  }

  function ParseKey(key: string): string {
    if Wrapped(key, '"', '"') then Inner(key) else key
  }

  /** An array item: a string, an object, or something that is dropped. */
  function ParseItem(item: string): Option<Value>
    decreases |item|, 4
  {
    if Wrapped(item, '"', '"') then Some(StringValue(Inner(item)))
    else if Wrapped(item, '{', '}') then Some(ObjectValue(ParseObject(item)))
    else None
  }

  function Kept(v: Option<Value>): seq<Value> {
    match v
    case Some(value) => [value]
    case None => []
  }

  function ParseItems(items: seq<string>, bound: nat): seq<Value>
    requires forall p :: p in items ==> |p| <= bound
    decreases bound, 5, |items|
  {
    if |items| == 0 then []
    else
      Kept(ParseItem(items[0])) + ParseItems(items[1..], bound)
  }

  /** The value after a key: a string, an object, an array, or nothing. */
  function ParseValue(value: string): Option<Value>
    decreases |value|, 6
  {
    if Wrapped(value, '"', '"') then Some(StringValue(Inner(value)))
    else if Wrapped(value, '{', '}') then Some(ObjectValue(ParseObject(value)))
    else if Wrapped(value, '[', ']') then Some(VectorValue(ParseItems(Parts(Inner(value)), |value|)))
    else None
  }

  /** A text without a colon, or with a value of another shape, gives the empty element. */
  function ParseElement(e: string): Element
    decreases |e|, 1
  {
    match IndexOf(e, ':')
    case None => Element("", None)
    case Some(pos) =>
      match ParseValue(e[pos + 1..])
      case None => Element("", None)
      case Some(v) => Element(ParseKey(e[..pos]), Some(v))
  }

  function ParseElements(parts: seq<string>, bound: nat): (es: seq<Element>)
    requires forall p :: p in parts ==> |p| <= bound
    ensures |es| == |parts|
    decreases bound, 2, |parts|
  {
    if |parts| == 0 then [] else [ParseElement(parts[0])] + ParseElements(parts[1..], bound)
  }

  function ParseObject(s: string): seq<Element>
    decreases |s|, 3
  {
    ParseElements(Parts(Normalize(s)), |s|)
  }
}
