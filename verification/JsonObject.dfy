/** The JSON object of the source: a growing vector of elements, filled by parsing loops. */
module JsonObject {
  import opened Wrappers
  import opened JsonText
  import opened JsonNormal
  import opened Json

  const ESCAPED := "\\\""

  lemma EscapedListed(c: char)
    ensures c in ESCAPED <==> IsEscaped(c)
  {
    assert ESCAPED == ['\\', '"'];
  }

  method NextEscaped(data: string, start: nat) returns (pos: Option<nat>)
    ensures pos.Some? ==> start <= pos.value < |data| && IsEscaped(data[pos.value])
    ensures forall k :: start <= k < (if pos.Some? then pos.value else |data|) ==> !IsEscaped(data[k])
  {
    pos := FindFirstOf(data, ESCAPED, start);
    forall c: char
      ensures c in ESCAPED <==> IsEscaped(c)
    {
      EscapedListed(c);
    }
  }

  /** `text` is `value` with its first `k` characters escaped; the next insertion happens at `p`. */
  lemma InsertionAdvances(value: string, k: nat, text: string, p: nat)
    requires k <= |value| && text == Escape(value[..k]) + value[k..]
    requires |Escape(value[..k])| <= p < |text| && IsEscaped(text[p])
    requires forall i :: |Escape(value[..k])| <= i < p ==> !IsEscaped(text[i])
    ensures var m := k + (p - |Escape(value[..k])|);
      && m < |value| && |Escape(value[..m + 1])| == p + 2
      && text[..p] + "\\" + text[p..] == Escape(value[..m + 1]) + value[m + 1..]
  {
    hide Escape, IsEscaped;
    var start := |Escape(value[..k])|;
    var m := k + (p - start);
    assert forall i :: k <= i < |value| ==> value[i] == text[start + (i - k)];
    EscapePlain(value, k, m);
    EscapeOne(value, m);
    assert text[..p] == Escape(value[..m]);
    assert text[p..] == [value[m]] + value[m + 1..];
  }

  lemma NoInsertionLeft(value: string, k: nat, text: string)
    requires k <= |value| && text == Escape(value[..k]) + value[k..]
    requires forall i :: |Escape(value[..k])| <= i < |text| ==> !IsEscaped(text[i])
    ensures text == Escape(value)
  {
    hide Escape, IsEscaped;
    var start := |Escape(value[..k])|;
    assert forall i :: k <= i < |value| ==> value[i] == text[start + (i - k)];
    EscapePlain(value, k, |value|);
    assert value[..|value|] == value;
  }

  /** Inserts a backslash before every backslash and quote, in place. */
  method EscapeString(value: string) returns (escaped: string)
    ensures escaped == Escape(value)
  {
    hide Escape, IsEscaped;
    escaped := value;
    ghost var k := 0;
    var start := 0;
    EscapeEnds(value);
    var pos := NextEscaped(escaped, start);
    while pos.Some?
      invariant 0 <= k <= |value| && start == |Escape(value[..k])|
      invariant escaped == Escape(value[..k]) + value[k..]
      invariant pos.Some? ==> start <= pos.value < |escaped| && IsEscaped(escaped[pos.value])
      invariant forall i :: start <= i < (if pos.Some? then pos.value else |escaped|) ==> !IsEscaped(escaped[i])
      decreases |value| - k
    {
      InsertionAdvances(value, k, escaped, pos.value);
      k := k + (pos.value - start) + 1;
      escaped := escaped[..pos.value] + "\\" + escaped[pos.value..];
      start := pos.value + 2;
      pos := NextEscaped(escaped, start);
    }
    NoInsertionLeft(value, k, escaped);
  }

  lemma EscapeEnds(value: string)
    ensures Escape(value[..0]) == "" && value[0..] == value
  {
  }

  lemma {:induction false} EscapeConcat(s: string, t: string)
    ensures Escape(s + t) == Escape(s) + Escape(t)
  {
    if s == "" {
      assert s + t == t;
    } else {
      assert (s + t)[1..] == s[1..] + t;
      EscapeConcat(s[1..], t);
    }
  }

  lemma EscapePlain(s: string, k: nat, m: nat)
    requires k <= m <= |s|
    requires forall i :: k <= i < m ==> !IsEscaped(s[i])
    ensures Escape(s[..m]) == Escape(s[..k]) + s[k..m]
  {
    assert s[..m] == s[..k] + s[k..m];
    EscapeConcat(s[..k], s[k..m]);
    EscapeNothing(s[k..m]);
  }

  lemma EscapeOne(s: string, m: nat)
    requires m < |s| && IsEscaped(s[m])
    ensures Escape(s[..m + 1]) == Escape(s[..m]) + ['\\', s[m]]
  {
    assert s[..m + 1] == s[..m] + [s[m]];
    EscapeConcat(s[..m], [s[m]]);
  }

  // ----- the parser object -----

  /** The element that a text stands for: the constructor that parses. */
  method ElementFromText(elementInLine: string) returns (e: Element)
    ensures e == ParseElement(elementInLine)
    decreases |elementInLine|, 1
  {
    hide Normalize, FindIn, Parts, ParseItems, ParseObject;
    var pos := IndexOf(elementInLine, ':');
    if pos.None? {
      return Element("", None);
    }
    var key := elementInLine[..pos.value];
    var value := elementInLine[pos.value + 1..];
    if Wrapped(key, '"', '"') {
      key := Inner(key);
    }
    if Wrapped(value, '"', '"') {
      return Element(key, Some(StringValue(Inner(value))));
    }
    if Wrapped(value, '{', '}') {
      var inner := new JsonType.FromText(value);
      return Element(key, Some(ObjectValue(inner.data)));
    }
    if Wrapped(value, '[', ']') {
      var items := ItemsFromText(Inner(value), |value|);
      return Element(key, Some(VectorValue(items)));
    }
    return Element("", None);
  }

  /** One array item; a text that is neither a string nor an object adds nothing. */
  method ItemFromText(item: string) returns (items: seq<Value>)
    ensures items == Kept(ParseItem(item))
    decreases |item|, 4
  {
    if Wrapped(item, '"', '"') {
      return [StringValue(Inner(item))];
    } else if Wrapped(item, '{', '}') {
      var inner := new JsonType.FromText(item);
      return [ObjectValue(inner.data)];
    }
    return [];
  }

  lemma PartsStep(text: string, start: nat)
    requires start <= |text|
    ensures FindIn(text[start..], 0, 0).Some? ==>
      var i := FindIn(text[start..], 0, 0).value;
      Parts(text[start..]) == [text[start..start + i]] + Parts(text[start + i + 1..])
    ensures FindIn(text[start..], 0, 0).None? ==> Parts(text[start..]) == if start < |text| then [text[start..]] else []
  {
    hide FindIn;
    if FindIn(text[start..], 0, 0).Some? {
      var i := FindIn(text[start..], 0, 0).value;
      assert text[start..][..i] == text[start..start + i];
      assert text[start..][i + 1..] == text[start + i + 1..];
    }
  }

  /** The item texts from `start` on: the first one, and what follows the delimiter at `pos`. */
  lemma ItemsStep(text: string, start: nat, pos: Option<nat>, bound: nat)
    requires start <= |text| <= bound && pos == Shift(FindIn(text[start..], 0, 0), start)
    ensures pos.Some? ==> start <= pos.value < |text|
    ensures pos.Some? ==>
      ParseItems(Parts(text[start..]), bound) == Kept(ParseItem(text[start..pos.value]))
          + ParseItems(Parts(text[pos.value + 1..]), bound)
    ensures pos.None? ==>
      ParseItems(Parts(text[start..]), bound) == if start < |text| then Kept(ParseItem(text[start..])) else []
  {
    hide FindIn, ParseItem, Parts, ParseItems;
    PartsStep(text, start);
    match pos {
      case Some(p) =>
        FirstItem(text[start..p], Parts(text[p + 1..]), bound);
      case None =>
        if start < |text| {
          var rest := text[start..];
          FirstItem(rest, [], bound);
          assert [rest] + [] == [rest] && Kept(ParseItem(rest)) + [] == Kept(ParseItem(rest));
        }
        NoItems(bound);
    }
  }

  lemma FirstItem(item: string, items: seq<string>, bound: nat)
    requires |item| <= bound && forall p :: p in items ==> |p| <= bound
    ensures ParseItems([item] + items, bound) == Kept(ParseItem(item)) + ParseItems(items, bound)
  {
    hide ParseItem;
    assert ([item] + items)[1..] == items;
  }

  lemma NoItems(bound: nat)
    ensures ParseItems([], bound) == []
  {
  }

  lemma ElementsStep(text: string, start: nat, pos: Option<nat>, bound: nat)
    requires start <= |text| <= bound && pos == Shift(FindIn(text[start..], 0, 0), start)
    ensures pos.Some? ==> start <= pos.value < |text|
    ensures pos.Some? ==>
      ParseElements(Parts(text[start..]), bound) == [ParseElement(text[start..pos.value])]
          + ParseElements(Parts(text[pos.value + 1..]), bound)
    ensures pos.None? ==>
      ParseElements(Parts(text[start..]), bound) == if start < |text| then [ParseElement(text[start..])] else []
  {
    hide FindIn, ParseElement, Parts;
    PartsStep(text, start);
    match pos {
      case Some(p) =>
        var more := Parts(text[p + 1..]);
        assert ([text[start..p]] + more)[1..] == more;
      case None =>
        if start < |text| {
          assert [text[start..]][1..] == [];
        }
    }
  }

  /** The items of an array, from its text without the brackets. */
  method ItemsFromText(value: string, ghost bound: nat) returns (items: seq<Value>)
    requires |value| <= bound
    ensures items == ParseItems(Parts(value), bound)
    decreases |value|, 5
  {
    hide FindIn, Shift, Parts, ParseItem, ParseItems;
    items := [];
    var start := 0;
    var pos := FindJsonElementDelimeter(value, 0);
    assert value[0..] == value;
    while pos.Some?
      invariant start <= |value| && pos == Shift(FindIn(value[start..], 0, 0), start)
      invariant items + ParseItems(Parts(value[start..]), bound) == ParseItems(Parts(value), bound)
      decreases |value| - start
    {
      ItemsStep(value, start, pos, bound);
      var more := ItemFromText(value[start..pos.value]);
      items := items + more;
      start := pos.value + 1;
      pos := FindJsonElementDelimeter(value, start);
    }
    ItemsStep(value, start, pos, bound);
    if start < |value| {
      var more := ItemFromText(value[start..]);
      items := items + more;
    }
  }

  class JsonType {
    var data: seq<Element>

    constructor Empty()
      ensures data == []
    {
      data := [];
    }

    constructor FromText(text: string)
      ensures data == ParseObject(text)
      decreases |text|, 3
    {
      data := [];
      new;
      Add(text);
    }

    /** Appends the elements of a text. */
    method Add(text: string)
      modifies this
      ensures data == old(data) + ParseObject(text)
      decreases |text|, 2
    {
      hide FindIn, Shift, Parts, ParseElement, ParseElements, Normalize;
      var stripped := NormalizeString(text);
      var start := 0;
      var pos := FindJsonElementDelimeter(stripped, 0);
      assert stripped[0..] == stripped;
      while pos.Some?
        invariant start <= |stripped| && pos == Shift(FindIn(stripped[start..], 0, 0), start)
        invariant data + ParseElements(Parts(stripped[start..]), |text|) == old(data) + ParseObject(text)
        decreases |stripped| - start
      {
        ElementsStep(stripped, start, pos, |text|);
        var e := ElementFromText(stripped[start..pos.value]);
        data := data + [e];
        start := pos.value + 1;
        pos := FindJsonElementDelimeter(stripped, start);
      }
      ElementsStep(stripped, start, pos, |text|);
      if start < |stripped| {
        var e := ElementFromText(stripped[start..]);
        data := data + [e];
      }
    }

    /** Sets the first element with this key, or appends one. */
    method AddPair(key: string, value: string)
      modifies this
      ensures data == SetKey(old(data), key, value)
    {
      hide SetKey;
      SetKeyEnds(key, value);
      assert data[0..] == data;
      var i := 0;
      while i < |data|
        invariant 0 <= i <= |data|
        invariant data == old(data)
        invariant data[..i] + SetKey(data[i..], key, value) == SetKey(data, key, value)
      {
        SetKeyStep(data, i, key, value);
        if key == data[i].key {
          data := data[i := Element(data[i].key, Some(StringValue(value)))];
          return;
        }
        i := i + 1;
      }
      assert data[i..] == [] && data[..i] == data;
      data := data + [Element(key, Some(StringValue(value)))];
    }

    /** The value of the first element with this key, as text; absent keys give the empty text. */
    method Get(key: string) returns (value: string)
      ensures value == ValueOf(data, key)
    {
      var i := 0;
      while i < |data|
        invariant 0 <= i <= |data|
        invariant ValueOf(data[i..], key) == ValueOf(data, key)
      {
        if key == data[i].key {
          return ElementValue(data[i]);
        }
        i := i + 1;
      }
      return "";
    }
  }

  // ----- keys -----

  function SetKey(es: seq<Element>, key: string, value: string): seq<Element> {
    if |es| == 0 then [Element(key, Some(StringValue(value)))]
    else if es[0].key == key then [Element(key, Some(StringValue(value)))] + es[1..]
    else [es[0]] + SetKey(es[1..], key, value)
  }

  function ElementValue(e: Element): string {
    match e.value
    case None => "null"
    case Some(StringValue(s)) => s
    case Some(v) => PrintValue(v)
  }

  function ValueOf(es: seq<Element>, key: string): string {
    if |es| == 0 then ""
    else if es[0].key == key then ElementValue(es[0])
    else ValueOf(es[1..], key)
  }

  lemma SetKeyFirst(es: seq<Element>, key: string, value: string)
    requires |es| > 0
    ensures SetKey(es, key, value) ==
      if es[0].key == key then [Element(key, Some(StringValue(value)))] + es[1..]
      else [es[0]] + SetKey(es[1..], key, value)
  {
  }

  lemma SetKeyEnds(key: string, value: string)
    ensures SetKey([], key, value) == [Element(key, Some(StringValue(value)))]
  {
  }

  lemma SetKeyStep(es: seq<Element>, i: nat, key: string, value: string)
    requires i < |es|
    ensures key == es[i].key ==>
      es[..i] + SetKey(es[i..], key, value) == es[i := Element(es[i].key, Some(StringValue(value)))]
    ensures key != es[i].key ==>
      es[..i] + SetKey(es[i..], key, value) == es[..i + 1] + SetKey(es[i + 1..], key, value)
  {
    hide SetKey;
    SetKeyFirst(es[i..], key, value);
    assert es[i..][1..] == es[i + 1..];
  }

  /** After a key is set it is found with its value, and every other key as before. */
  lemma {:induction false} SetThenGet(es: seq<Element>, key: string, value: string, other: string)
    ensures ValueOf(SetKey(es, key, value), other) == if other == key then value else ValueOf(es, other)
  {
    if |es| > 0 && es[0].key != key {
      SetThenGet(es[1..], key, value, other);
    }
  }

  /** Setting a key changes the first element with it in its place, or appends one. */
  lemma {:induction false} SetKeyInPlace(es: seq<Element>, key: string, value: string, i: nat)
    requires i <= |es| && (forall j :: 0 <= j < i ==> es[j].key != key) && (i < |es| ==> es[i].key == key)
    ensures SetKey(es, key, value)
            == es[..i] + [Element(key, Some(StringValue(value)))] + if i < |es| then es[i + 1..] else []
  {
    if i > 0 {
      SetKeyInPlace(es[1..], key, value, i - 1);
      assert es[1..][..i - 1] == es[1..i];
    }
  }
}
