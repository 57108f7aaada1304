/** What is read under a key: the texts that `Get` gives for values of every kind. */
module JsonValues {
  import opened Wrappers
  import opened Json
  import opened JsonObject
  import opened JsonPlain
  import opened JsonExact

  /** Element `i` is the first one with its key. */
  predicate FirstWithKey(es: seq<Element>, i: nat, key: string) {
    i < |es| && es[i].key == key && forall j :: 0 <= j < i ==> es[j].key != key
  }

  lemma {:induction false} FoundAt(es: seq<Element>, i: nat, key: string)
    requires FirstWithKey(es, i, key)
    ensures ValueOf(es, key) == ElementValue(es[i])
  {
    if i > 0 {
      FoundAt(es[1..], i - 1, key);
    }
  }

  lemma {:induction false} FoundNowhere(es: seq<Element>, key: string)
    requires forall j :: 0 <= j < |es| ==> es[j].key != key
    ensures ValueOf(es, key) == ""
  {
    if |es| > 0 {
      FoundNowhere(es[1..], key);
    }
  }

  /** Strings are given as they are, missing values as a word, and absent keys as nothing. */
  lemma GetText(es: seq<Element>, i: nat, key: string)
    ensures FirstWithKey(es, i, key) && es[i].value.None? ==> ValueOf(es, key) == "null"
    ensures FirstWithKey(es, i, key) && es[i].value.Some? && es[i].value.value.StringValue? ==>
      ValueOf(es, key) == es[i].value.value.s
    ensures (forall j :: 0 <= j < |es| ==> es[j].key != key) ==> ValueOf(es, key) == ""
  {
    if FirstWithKey(es, i, key) {
      FoundAt(es, i, key);
    }
    if forall j :: 0 <= j < |es| ==> es[j].key != key {
      FoundNowhere(es, key);
    }
  }

  /** The text of an object is a document of its own, which gives the object exactly when that survives. */
  lemma GetObject(es: seq<Element>, i: nat, key: string, o: seq<Element>)
    requires FirstWithKey(es, i, key) && es[i].value == Some(ObjectValue(o)) && TameElements(o)
    ensures ParseObject(ValueOf(es, key)) == o <==> PlainElements(o) && Survives(o, 0)
  {
    hide PrintObject, ParseObject, Survives, PlainElements, TameElements;
    FoundAt(es, i, key);
    RoundTripExactly(o);
  }

  /** Any text but a string's, put under its key again, gives the element exactly when that survives. */
  lemma GetThenParse(es: seq<Element>, i: nat, key: string)
    requires FirstWithKey(es, i, key) && es[i].value.Some? && !es[i].value.value.StringValue?
    requires TameElements([es[i]])
    ensures ParseObject("{\"" + key + "\": " + ValueOf(es, key) + "}") == [es[i]]
            <==> PlainElements([es[i]]) && Survives([es[i]], 0)
  {
    hide PrintValue, ParseObject, Survives, PlainElements, TameElements, FirstWithKey;
    FoundAt(es, i, key);
    KeyOfFirst(es, i, key);
    RoundTripExactly([es[i]]);
    PrintOne(es[i]);
    assert ElementValue(es[i]) == PrintValue(es[i].value.value);
  }

  lemma KeyOfFirst(es: seq<Element>, i: nat, key: string)
    requires FirstWithKey(es, i, key)
    ensures i < |es| && es[i].key == key
  {
  }

  lemma PrintOne(e: Element)
    requires e.value.Some?
    ensures PrintObject([e]) == "{\"" + e.key + "\": " + PrintValue(e.value.value) + "}"
  {
    hide PrintValue;
    var text := PrintElement(e);
    assert PrintElements([e]) == [text];
    assert text == "\"" + e.key + "\": " + PrintValue(e.value.value);
    assert "{" + text + "}" == "{\"" + e.key + "\": " + PrintValue(e.value.value) + "}";
  }

  // ----- integers -----

  /** The number that a text of decimal digits stands for. */
  function FromDigits(s: string): nat {
    if s == "" then 0 else 10 * FromDigits(s[..|s| - 1]) + DigitValue(s[|s| - 1])
  }

  function DigitValue(c: char): nat {
    if '0' <= c <= '9' then c as int - 48 else 0
  }

  /** The number that a text with an optional minus sign stands for. */
  function FromDecimal(s: string): int {
    if s != "" && s[0] == '-' then -(FromDigits(s[1..]) as int) else FromDigits(s)
  }

  lemma {:induction false} DigitsRead(n: nat)
    ensures FromDigits(Decimal(n)) == n && Decimal(n) != "" && Decimal(n)[0] != '-'
    ensures forall i :: 0 <= i < |Decimal(n)| ==> '0' <= Decimal(n)[i] <= '9'
  {
    DigitRead(n % 10);
    if n >= 10 {
      DigitsRead(n / 10);
      var s := Decimal(n);
      assert s[..|s| - 1] == Decimal(n / 10);
    } else {
      assert Decimal(n)[..0] == "";
    }
  }

  lemma DigitRead(d: nat)
    requires d < 10
    ensures "0123456789"[d] as int == d + 48
  {
  }

  /** An integer's text reads back as the integer. */
  lemma DecimalReads(n: int)
    ensures FromDecimal(Decimal(n)) == n
  {
    hide FromDigits;
    if n < 0 {
      DigitsRead(-n);
      assert Decimal(n)[1..] == Decimal(-n);
    } else {
      DigitsRead(n);
    }
  }

  // ----- escaped strings -----

  /** What a reader that knows escapes makes of a text: each backslash stands for the character after it. */
  function Unescape(s: string): string {
    if s == "" then ""
    else if s[0] == '\\' && |s| > 1 then [s[1]] + Unescape(s[2..])
    else [s[0]] + Unescape(s[1..])
  }

  /** No quote without a backslash, and no backslash at the end: the text may stand between quotes. */
  predicate MayBeQuoted(s: string) {
    if s == "" then true
    else if s[0] == '\\' then |s| > 1 && MayBeQuoted(s[2..])
    else s[0] != '"' && MayBeQuoted(s[1..])
  }

  /** An escaped string may stand between quotes, and reads back. */
  lemma {:induction false} EscapeReads(s: string)
    ensures MayBeQuoted(Escape(s)) && Unescape(Escape(s)) == s
  {
    if s != "" {
      EscapeReads(s[1..]);
      if IsEscaped(s[0]) {
        assert Escape(s)[2..] == Escape(s[1..]);
      } else {
        assert Escape(s)[1..] == Escape(s[1..]);
      }
    }
  }

  // ----- missing values -----

  /** The document with the string "null" for every missing value. */
  function Filled(es: seq<Element>): (r: seq<Element>)
    ensures |r| == |es|
    decreases es
  {
    if |es| == 0 then [] else [FilledElement(es[0])] + Filled(es[1..])
  }

  function FilledElement(e: Element): Element
    decreases e
  {
    match e.value
    case None => Element(e.key, Some(StringValue("null")))
    case Some(v) => Element(e.key, Some(FilledValue(v)))
  }

  function FilledValue(v: Value): Value
    decreases v
  {
    match v
    case ObjectValue(es) => ObjectValue(Filled(es))
    case VectorValue(vs) => VectorValue(FilledItems(vs))
    case _ => v
  }

  function FilledItems(vs: seq<Value>): (r: seq<Value>)
    ensures |r| == |vs|
    decreases vs
  {
    if |vs| == 0 then [] else [FilledValue(vs[0])] + FilledItems(vs[1..])
  }

  lemma {:induction false} FilledElementsPrint(es: seq<Element>)
    ensures PrintElements(Filled(es)) == PrintElements(es)
    ensures TameElements(es) ==> TameElements(Filled(es))
    decreases es
  {
    hide PrintValue, FilledValue, TameValue;
    if |es| > 0 {
      FilledElementsPrint(es[1..]);
      assert Filled(es)[1..] == Filled(es[1..]);
      match es[0].value {
        case Some(v) => FilledValuePrints(v);
        case None => NullPrints(es[0].key);
      }
    }
  }

  lemma NullPrints(key: string)
    ensures PrintElement(Element(key, Some(StringValue("null")))) == PrintElement(Element(key, None))
    ensures TameValue(StringValue("null"))
  {
    EscapeNothing("null");
  }

  lemma {:induction false} FilledValuePrints(v: Value)
    ensures PrintValue(FilledValue(v)) == PrintValue(v)
    ensures TameValue(v) ==> TameValue(FilledValue(v))
    decreases v
  {
    hide PrintItems, PrintElements, Filled, FilledItems, TameItems, TameElements, Escape, Decimal;
    match v {
      case IntValue(_) =>
      case StringValue(_) =>
      case ObjectValue(es) => FilledElementsPrint(es);
      case VectorValue(vs) => FilledItemsPrint(vs);
    }
  }

  lemma {:induction false} FilledItemsPrint(vs: seq<Value>)
    ensures PrintItems(FilledItems(vs)) == PrintItems(vs)
    ensures TameItems(vs) ==> TameItems(FilledItems(vs))
    decreases vs
  {
    hide PrintValue, FilledValue, TameValue;
    if |vs| > 0 {
      FilledValuePrints(vs[0]);
      FilledItemsPrint(vs[1..]);
      assert FilledItems(vs)[1..] == FilledItems(vs[1..]);
    }
  }

  /** Missing values, at any depth, come back as the string "null" exactly when that document survives. */
  lemma MissingBecomesNull(es: seq<Element>)
    requires TameElements(es)
    ensures ParseObject(PrintObject(es)) == Filled(es) <==> PlainElements(Filled(es)) && Survives(Filled(es), 0)
  {
    hide ParseObject, PrintElements, Survives, PlainElements, TameElements, Filled;
    FilledElementsPrint(es);
    RoundTripExactly(Filled(es));
  }
}
