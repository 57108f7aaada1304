/** What the JSON reader can give at all. */
module JsonShape {
  import opened Wrappers
  import opened JsonText
  import opened JsonNormal
  import opened Json

  /** No integer, no array directly in an array, and no missing value under a key. */
  predicate ParsedValue(v: Value)
    decreases v
  {
    match v
    case IntValue(_) => false
    case StringValue(_) => true
    case ObjectValue(es) => ParsedElementList(es)
    case VectorValue(vs) => ParsedItemList(vs)
  }

  predicate ParsedItemList(vs: seq<Value>)
    decreases vs
  {
    |vs| == 0 || (!vs[0].VectorValue? && ParsedValue(vs[0]) && ParsedItemList(vs[1..]))
  }

  predicate ParsedElementList(es: seq<Element>)
    decreases es
  {
    |es| == 0 || ((if es[0].value.Some? then ParsedValue(es[0].value.value) else es[0].key == "")
        && ParsedElementList(es[1..]))
  }

  lemma {:induction false} ObjectShape(s: string)
    ensures ParsedElementList(ParseObject(s))
    decreases |s|, 3
  {
    hide Parts, Normalize;
    ElementsShape(Parts(Normalize(s)), |s|);
  }

  lemma {:induction false} ElementsShape(parts: seq<string>, bound: nat)
    requires forall p :: p in parts ==> |p| <= bound
    ensures ParsedElementList(ParseElements(parts, bound))
    decreases bound, 2, |parts|
  {
    hide ParseElement, ParsedValue;
    if |parts| > 0 {
      ElementShape(parts[0]);
      ElementsShape(parts[1..], bound);
    }
  }

  lemma {:induction false} ElementShape(e: string)
    ensures var el := ParseElement(e); if el.value.Some? then ParsedValue(el.value.value) else el.key == ""
    decreases |e|, 1
  {
    hide ParseValue, ParsedValue;
    if IndexOf(e, ':').Some? {
      ValueShape(e[IndexOf(e, ':').value + 1..]);
    }
  }

  lemma {:induction false} ValueShape(value: string)
    ensures ParseValue(value).Some? ==> ParsedValue(ParseValue(value).value)
    decreases |value|, 6
  {
    hide ParseObject, ParseItems, Parts, ParsedElementList, ParsedItemList;
    ObjectShape(value);
    if |value| > 0 {
      ItemsShape(Parts(Inner(value)), |value|);
    }
  }

  lemma {:induction false} ItemsShape(items: seq<string>, bound: nat)
    requires forall p :: p in items ==> |p| <= bound
    ensures ParsedItemList(ParseItems(items, bound))
    decreases bound, 5, |items|
  {
    hide ParseItem, ParsedValue;
    if |items| > 0 {
      ItemShape(items[0]);
      ItemsShape(items[1..], bound);
      KeptShape(ParseItem(items[0]), ParseItems(items[1..], bound));
    }
  }

  lemma KeptShape(v: Option<Value>, rest: seq<Value>)
    requires v.Some? ==> ParsedValue(v.value) && !v.value.VectorValue?
    requires ParsedItemList(rest)
    ensures ParsedItemList(Kept(v) + rest)
  {
    hide ParsedValue;
    match v {
      case Some(value) =>
        assert ([value] + rest)[1..] == rest;
      case None =>
        assert [] + rest == rest;
    }
  }

  lemma {:induction false} ItemShape(item: string)
    ensures ParseItem(item).Some? ==> ParsedValue(ParseItem(item).value) && !ParseItem(item).value.VectorValue?
    decreases |item|, 4
  {
    hide ParseObject, ParsedElementList;
    ObjectShape(item);
  }

  /** A document with an integer, a nested array or a missing value under a key is never given back. */
  lemma RoundTripNeedsShape(es: seq<Element>)
    requires ParseObject(PrintObject(es)) == es
    ensures ParsedElementList(es)
  {
    ObjectShape(PrintObject(es));
  }
}
