/**
 * A reader for the text `toJSON` writes, as the writer's partner: it reads a
 * value back from its serialised form, so that the round trip states what the
 * output contains (every property, in order, with its value) and where the
 * lack of escaping makes the output ambiguous.
 */
module JsonReader {
  import opened Wrappers
  import opened Text
  import opened JsonWriter

  function DigitValue(c: char): (d: nat)
    requires IsDigit(c)
    ensures d < 10
  {
    c as int - '0' as int
  }

  predicate AllDigits(s: string) {
    forall k :: 0 <= k < |s| ==> IsDigit(s[k])
  }

  /** The number a run of decimal digits denotes. */
  function NatValue(ds: string): nat
    requires AllDigits(ds)
    decreases |ds|
  {
    if |ds| == 0 then 0 else NatValue(ds[..|ds| - 1]) * 10 + DigitValue(ds[|ds| - 1])
  }

  /** Reading the digits of `n` gives `n` back. */
  lemma {:induction false} NatValueText(n: nat)
    ensures NatValue(NatText(n)) == n
    decreases n
  {
    var t := NatText(n);
    if n >= 10 {
      NatValueText(n / 10);
      assert t[..|t| - 1] == NatText(n / 10);
    }
  }

  /** The length of the run of digits `s` starts with. */
  function DigitRun(s: string): (k: nat)
    ensures k <= |s|
    ensures AllDigits(s[..k])
    ensures k < |s| ==> !IsDigit(s[k])
    decreases |s|
  {
    if |s| == 0 || !IsDigit(s[0]) then 0
    else
      var k := 1 + DigitRun(s[1..]);
      assert s[..k] == [s[0]] + s[1..][..k - 1];
      k
  }

  /** What may follow a number so that its digits end where it ends. */
  predicate Follows(rest: string) {
    |rest| == 0 || !IsDigit(rest[0])
  }

  lemma {:induction false} DigitRunAppend(ds: string, rest: string)
    requires AllDigits(ds)
    requires Follows(rest)
    ensures DigitRun(ds + rest) == |ds|
    decreases |ds|
  {
    if |ds| > 0 {
      assert (ds + rest)[1..] == ds[1..] + rest;
      DigitRunAppend(ds[1..], rest);
    } else {
      assert ds + rest == rest;
    }
  }

  /** An optional minus sign followed by digits, within the 32-bit range. */
  function ParseInt(s: string): (r: Option<(Json, string)>)
    ensures r.Some? ==> |r.value.1| < |s|
  {
    if |s| > 0 && s[0] == '-' then Signed(ParseDigits(s[1..]), true) else Signed(ParseDigits(s), false)
  }

  /** The number read, negated after a minus sign, if it fits in 32 bits. */
  function Signed(digits: Option<(nat, string)>, neg: bool): (r: Option<(Json, string)>)
    ensures r.Some? ==> digits.Some? && r.value.1 == digits.value.1
  {
    match digits
    case None => None
    case Some((n, rest)) =>
      var i: int := if neg then -(n as int) else n as int;
      if -0x8000_0000 <= i < 0x8000_0000 then Some((JInt(i as int32), rest)) else None
  }

  /** A non-empty run of digits and the number it denotes. */
  function ParseDigits(t: string): (r: Option<(nat, string)>)
    ensures r.Some? ==> |r.value.1| < |t|
  {
    var k := DigitRun(t);
    if k == 0 then None else Some((NatValue(t[..k]), t[k..]))
  }

  /** The position of the first double quote in `s`, or `|s|` when there is none. */
  function QuoteIndex(s: string): (k: nat)
    ensures k <= |s|
    ensures forall j :: 0 <= j < k ==> s[j] != '"'
    ensures k < |s| ==> s[k] == '"'
    decreases |s|
  {
    if |s| == 0 || s[0] == '"' then 0 else 1 + QuoteIndex(s[1..])
  }

  lemma {:induction false} QuoteIndexAppend(a: string, b: string)
    requires '"' !in a
    ensures QuoteIndex(a + "\"" + b) == |a|
    decreases |a|
  {
    if |a| > 0 {
      assert (a + "\"" + b)[1..] == a[1..] + "\"" + b;
      QuoteIndexAppend(a[1..], b);
    }
  }

  /** The text up to the closing quote; `s` starts just after the opening one. */
  function ParseString(s: string): (r: Option<(string, string)>)
    ensures r.Some? ==> |r.value.1| < |s|
  {
    var k := QuoteIndex(s);
    if k == |s| then None else Some((s[..k], s[k + 1..]))
  }

  /** Reads one value from the front of `s`, returning it and the text after it. */
  function ParseValue(s: string): (r: Option<(Json, string)>)
    ensures r.Some? ==> |r.value.1| < |s|
    decreases |s|, 3
  {
    if |s| == 0 then None
    else if s[0] == 'n' then (if StartsWith(s, "null") then Some((JNull, s[4..])) else None)
    else if s[0] == 't' then (if StartsWith(s, "true") then Some((JBool(true), s[4..])) else None)
    else if s[0] == 'f' then (if StartsWith(s, "false") then Some((JBool(false), s[5..])) else None)
    else if s[0] == '"' then
      match ParseString(s[1..])
      case None => None
      case Some((text, rest)) => Some((JString(text), rest))
    else if s[0] == '{' then ParseBean(s[1..])
    else ParseInt(s)
  }

  /** A bean's properties up to and including the closing brace; `s` starts after `{`. */
  function ParseBean(s: string): (r: Option<(Json, string)>)
    ensures r.Some? ==> |r.value.1| < |s|
    decreases |s|, 2
  {
    if StartsWith(s, "}") then Some((JBean([]), s[1..]))
    else
      match ParseFields(s)
      case None => None
      case Some((fields, rest)) => Some((JBean(fields), rest))
  }

  /** One or more entries separated by ", " and closed by `}`. */
  function ParseFields(s: string): (r: Option<(seq<Field>, string)>)
    ensures r.Some? ==> |r.value.1| < |s|
    decreases |s|, 1
  {
    match ParseField(s)
    case None => None
    case Some((f, rest)) =>
      if StartsWith(rest, Sep) then
        match ParseFields(rest[2..])
        case None => None
        case Some((fields, rest2)) => Some(([f] + fields, rest2))
      else if StartsWith(rest, "}") then Some(([f], rest[1..]))
      else None
  }

  /** One entry: a quoted name, a colon and a space, and a value. */
  function ParseField(s: string): (r: Option<(Field, string)>)
    ensures r.Some? ==> |r.value.1| < |s|
    decreases |s|, 0
  {
    if |s| == 0 || s[0] != '"' then None
    else
      match ParseString(s[1..])
      case None => None
      case Some((name, rest)) =>
        if StartsWith(rest, ": ") then
          match ParseValue(rest[2..])
          case None => None
          case Some((v, rest2)) => Some((Field(name, v), rest2))
        else None
  }

  /** The whole text is one value. */
  function Parse(s: string): (r: Option<Json>)
    ensures r.Some? ==> ParseValue(s).Some? && ParseValue(s).value == (r.value, "")
  {
    match ParseValue(s)
    case Some((v, rest)) => if rest == "" then Some(v) else None
    case None => None
  }

  /** No string and no property name holds a double quote, and no bean has a `class` property. */
  predicate Clean(v: Json)
    decreases v, 1
  {
    match v
    case JString(s) => '"' !in s
    case JBean(fields) => CleanFields(fields)
    case _ => true
  }

  predicate CleanFields(fields: seq<Field>)
    decreases fields, 0
  {
    |fields| == 0 ||
    ('"' !in fields[0].name && fields[0].name != ClassProperty && Clean(fields[0].value) && CleanFields(fields[1..]))
  }

  /**
   * Round trip: reading back what `toJSON` wrote for a clean value gives
   * the value, and stops exactly where the serialised text ends.
   */
  lemma {:induction false} ParseToJson(v: Json, rest: string)
    requires Clean(v)
    requires Follows(rest)
    ensures ParseValue(ToJson(v) + rest) == Some((v, rest))
    decreases v, 1
  {
    match v
    case JNull => StartsWithConcat("null", rest);
    case JBool(b) =>
      if b { StartsWithConcat("true", rest); } else { StartsWithConcat("false", rest); }
    case JInt(i) => ParseIntText(i, rest);
    case JString(text) => ParseStringText(text, rest);
    case JBean(fields) => ParseBeanText(fields, rest);
  }

  lemma ParseIntText(i: int32, rest: string)
    requires Follows(rest)
    ensures ParseValue(ToJson(JInt(i)) + rest) == Some((JInt(i), rest))
  {
    var n := i as int;
    if n < 0 {
      var d := NatText(-n);
      NatValueText(-n);
      ParseIntNegative(d, rest);
      assert ToJson(JInt(i)) + rest == "-" + d + rest;
      ParseValueNumber("-" + d + rest);
    } else {
      var d := NatText(n);
      NatValueText(n);
      ParseIntNonNegative(d, rest);
      assert ToJson(JInt(i)) + rest == d + rest;
      assert IsDigit((d + rest)[0]);
      ParseValueNumber(d + rest);
    }
  }

  /** The dispatch of `ParseValue` on a sign or a digit. */
  lemma ParseValueNumber(s: string)
    requires |s| > 0 && (s[0] == '-' || IsDigit(s[0]))
    ensures ParseValue(s) == ParseInt(s)
  {
    assert s[0] != 'n' && s[0] != 't' && s[0] != 'f' && s[0] != '"' && s[0] != '{';
  }

  /** A run of digits followed by a non-digit is read as its value. */
  lemma ParseDigitsRun(d: string, rest: string)
    requires |d| > 0 && AllDigits(d) && Follows(rest)
    ensures ParseDigits(d + rest) == Some((NatValue(d), rest))
  {
    var t := d + rest;
    DigitRunAppend(d, rest);
    assert t[..|d|] == d;
    assert t[|d|..] == rest;
  }

  /** A minus sign and a run of digits followed by a non-digit. */
  lemma ParseIntNegative(d: string, rest: string)
    requires |d| > 0 && AllDigits(d) && Follows(rest)
    requires NatValue(d) <= 0x8000_0000
    ensures ParseInt("-" + d + rest) == Some((JInt(-(NatValue(d) as int) as int32), rest))
  {
    MinusDispatch(d, rest);
    ParseDigitsRun(d, rest);
    SignedNegative(NatValue(d), rest);
  }

  /** After a minus sign, the digits are read and negated. */
  lemma MinusDispatch(d: string, rest: string)
    requires |d| > 0
    ensures ParseInt("-" + d + rest) == Signed(ParseDigits(d + rest), true)
  {
    var s := "-" + d + rest;
    assert s[0] == '-';
    assert s[1..] == d + rest;
  }

  lemma SignedNegative(n: nat, rest: string)
    requires n <= 0x8000_0000
    ensures Signed(Some((n, rest)), true) == Some((JInt(-(n as int) as int32), rest))
  {
  }

  /** A run of digits followed by a non-digit. */
  lemma ParseIntNonNegative(d: string, rest: string)
    requires |d| > 0 && AllDigits(d) && Follows(rest)
    requires NatValue(d) < 0x8000_0000
    ensures ParseInt(d + rest) == Some((JInt(NatValue(d) as int32), rest))
  {
    var s := d + rest;
    ParseDigitsRun(d, rest);
    assert s[0] == d[0];
    assert IsDigit(s[0]);
    assert s[0] != '-';
  }

  lemma ParseStringText(text: string, rest: string)
    requires '"' !in text
    ensures ParseValue(ToJson(JString(text)) + rest) == Some((JString(text), rest))
  {
    var s := ToJson(JString(text)) + rest;
    assert s[0] == '"';
    assert s[1..] == text + "\"" + rest;
    QuoteIndexAppend(text, rest);
    assert (text + "\"" + rest)[..|text|] == text;
    assert (text + "\"" + rest)[|text| + 1..] == rest;
  }

  lemma {:induction false} ParseBeanText(fields: seq<Field>, rest: string)
    requires CleanFields(fields)
    ensures ParseValue(ToJson(JBean(fields)) + rest) == Some((JBean(fields), rest))
    decreases fields, 4
  {
    var body := Join(Entries(fields), Sep) + "}" + rest;
    var s := ToJson(JBean(fields)) + rest;
    assert s == "{" + body;
    assert s[1..] == body;
    ParseBeanBody(fields, rest);
  }

  /** A bean's body after `{` is read back as its properties. */
  lemma {:induction false} ParseBeanBody(fields: seq<Field>, rest: string)
    requires CleanFields(fields)
    ensures ParseBean(Join(Entries(fields), Sep) + "}" + rest) == Some((JBean(fields), rest))
    decreases fields, 3
  {
    var body := Join(Entries(fields), Sep) + "}" + rest;
    if |fields| == 0 {
      assert body == "}" + rest;
      StartsWithConcat("}", rest);
    } else {
      ParseFieldsJoin(fields, rest);
      EntriesCons(fields);
      assert body[0] == '"';
    }
  }

  /** A clean bean has one entry per property. */
  lemma EntriesCons(fields: seq<Field>)
    requires |fields| > 0
    requires CleanFields(fields)
    ensures Entries(fields) == [Entry(fields[0])] + Entries(fields[1..])
    ensures |fields| > 1 ==> |Entries(fields[1..])| > 0
  {
    if |fields| > 1 {
      assert Entries(fields[1..]) == [Entry(fields[1])] + Entries(fields[2..]);
    }
  }

  /** An entry is read back as its property, leaving what follows. */
  lemma {:induction false} ParseFieldEntry(f: Field, tail: string)
    requires '"' !in f.name && Clean(f.value)
    requires Follows(tail)
    ensures ParseField(Entry(f) + tail) == Some((f, tail))
    decreases f, 2
  {
    var after := ToJson(f.value) + tail;
    assert Entry(f) + tail == "\"" + f.name + "\": " + after;
    ParseToJson(f.value, tail);
    ParseFieldOf(f.name, after);
  }

  /** A quoted name without quotes, `": "` and a readable value are read as that property. */
  lemma ParseFieldOf(name: string, after: string)
    requires '"' !in name
    requires ParseValue(after).Some?
    ensures ParseField("\"" + name + "\": " + after) == Some((Field(name, ParseValue(after).value.0), ParseValue(after).value.1))
  {
    var s := "\"" + name + "\": " + after;
    assert s[1..] == name + "\"" + (": " + after);
    QuoteIndexAppend(name, ": " + after);
    assert (name + "\"" + (": " + after))[..|name|] == name;
    assert (name + "\"" + (": " + after))[|name| + 1..] == ": " + after;
    StartsWithConcat(": ", after);
  }

  /** The entries of a non-empty clean bean, closed by `}`, are read back as its properties. */
  lemma {:induction false} ParseFieldsJoin(fields: seq<Field>, rest: string)
    requires |fields| > 0
    requires CleanFields(fields)
    ensures ParseFields(Join(Entries(fields), Sep) + "}" + rest) == Some((fields, rest))
    decreases fields, 2
  {
    if |fields| == 1 {
      ParseFieldsOne(fields, rest);
    } else {
      ParseFieldsJoin(fields[1..], rest);
      ParseFieldsMany(fields, rest);
    }
  }

  lemma {:induction false} ParseFieldsOne(fields: seq<Field>, rest: string)
    requires |fields| == 1
    requires CleanFields(fields)
    ensures ParseFields(Join(Entries(fields), Sep) + "}" + rest) == Some((fields, rest))
    decreases fields, 1
  {
    var f := fields[0];
    EntriesCons(fields);
    assert Entries(fields) == [Entry(f)];
    assert Join(Entries(fields), Sep) + "}" + rest == Entry(f) + ("}" + rest);
    ParseFieldEntry(f, "}" + rest);
    ParseFieldsLast(f, Entry(f), rest);
    assert [f] == fields;
  }

  lemma {:induction false} ParseFieldsMany(fields: seq<Field>, rest: string)
    requires |fields| > 1
    requires CleanFields(fields)
    requires ParseFields(Join(Entries(fields[1..]), Sep) + "}" + rest) == Some((fields[1..], rest))
    ensures ParseFields(Join(Entries(fields), Sep) + "}" + rest) == Some((fields, rest))
    decreases fields, 1
  {
    var f := fields[0];
    var more := fields[1..];
    var inner := Join(Entries(more), Sep) + "}" + rest;
    JoinedShape(fields, rest);
    ParseFieldsCons(f, Join(Entries(fields), Sep) + "}" + rest, inner, more, rest);
    assert [f] + more == fields;
  }

  /** A clean entry, `, ` and the text of more entries read back as one more property. */
  lemma {:induction false} ParseFieldsCons(f: Field, whole: string, inner: string, more: seq<Field>, rest: string)
    requires '"' !in f.name && Clean(f.value)
    requires whole == Entry(f) + (Sep + inner)
    requires ParseFields(inner) == Some((more, rest))
    ensures ParseFields(whole) == Some(([f] + more, rest))
    decreases f, 3
  {
    assert Follows(Sep + inner) by { assert (Sep + inner)[0] == ','; }
    ParseFieldEntry(f, Sep + inner);
    ParseFieldsNext(f, Entry(f), more, inner, rest);
  }

  /** The text of two or more entries is the first entry, `, `, and the text of the rest. */
  lemma JoinedShape(fields: seq<Field>, rest: string)
    requires |fields| > 1
    requires CleanFields(fields)
    ensures Join(Entries(fields), Sep) + "}" + rest
            == Entry(fields[0]) + (Sep + (Join(Entries(fields[1..]), Sep) + "}" + rest))
  {
    EntriesCons(fields);
    var tailJoin := Join(Entries(fields[1..]), Sep);
    assert Join(Entries(fields), Sep) == Entry(fields[0]) + Sep + tailJoin;
    Regroup(Entry(fields[0]), tailJoin, rest);
  }

  lemma Regroup(e: string, j: string, rest: string)
    ensures e + Sep + j + "}" + rest == e + (Sep + (j + "}" + rest))
  {
  }

  /** The last entry is followed by the closing brace. */
  lemma ParseFieldsLast(f: Field, entry: string, rest: string)
    requires ParseField(entry + ("}" + rest)) == Some((f, "}" + rest))
    ensures ParseFields(entry + ("}" + rest)) == Some(([f], rest))
  {
    var tail := "}" + rest;
    StartsWithConcat("}", rest);
    assert tail[0] == '}';
    assert !StartsWith(tail, Sep);
  }

  /** An entry followed by ", " is followed by more entries. */
  lemma ParseFieldsNext(f: Field, entry: string, more: seq<Field>, inner: string, rest: string)
    requires ParseField(entry + (Sep + inner)) == Some((f, Sep + inner))
    requires ParseFields(inner) == Some((more, rest))
    ensures ParseFields(entry + (Sep + inner)) == Some(([f] + more, rest))
  {
    StartsWithConcat(Sep, inner);
  }

  /** Every value the writer produces for a clean value is read back whole. */
  lemma RoundTrip(v: Json)
    requires Clean(v)
    ensures Parse(ToJson(v)) == Some(v)
  {
    ParseToJson(v, "");
    assert ToJson(v) + "" == ToJson(v);
  }

  /**
   * On clean values the writer loses nothing: two clean values written as
   * the same text are the same value.
   */
  lemma ToJsonInjective(a: Json, b: Json)
    requires Clean(a) && Clean(b)
    requires ToJson(a) == ToJson(b)
    ensures a == b
  {
    RoundTrip(a);
    RoundTrip(b);
  }

  /**
   * Strings are written without escaping, so a string holding `", "` can
   * make one property look like two: these two beans serialise alike.
   */
  lemma NoEscapingMergesProperties()
    ensures var one := JBean([Field("a", JString("x\", \"b\": \"y"))]);
            var two := JBean([Field("a", JString("x")), Field("b", JString("y"))]);
            one != two && ToJson(one) == ToJson(two)
  {
    var one := JBean([Field("a", JString("x\", \"b\": \"y"))]);
    var two := JBean([Field("a", JString("x")), Field("b", JString("y"))]);
    assert "x\", \"b\": \"y" == "x" + "\", \"" + "b" + "\": \"" + "y";
    MergedEntry("a", "x", "b", "y");
    OneFieldBean(one.fields[0]);
    TwoFieldBean(two.fields[0], two.fields[1]);
  }

  /** A bean with one property is its entry between braces. */
  lemma OneFieldBean(f: Field)
    requires f.name != ClassProperty
    ensures ToJson(JBean([f])) == "{" + Entry(f) + "}"
  {
    assert Entries([f]) == [Entry(f)];
  }

  /** A bean with two properties is their entries, joined by `, `, between braces. */
  lemma TwoFieldBean(f: Field, g: Field)
    requires f.name != ClassProperty && g.name != ClassProperty
    ensures ToJson(JBean([f, g])) == "{" + (Entry(f) + Sep + Entry(g)) + "}"
  {
    assert [f, g][1..] == [g];
    assert Entries([f, g]) == [Entry(f), Entry(g)];
  }

  /**
   * A string property whose value embeds `", "`, a second name and `": "`
   * is written exactly as two string properties would be.
   */
  lemma MergedEntry(name: string, x: string, other: string, y: string)
    ensures Entry(Field(name, JString(x + "\", \"" + other + "\": \"" + y)))
            == Entry(Field(name, JString(x))) + Sep + Entry(Field(other, JString(y)))
  {
    var q, c := "\"", "\": ";
    assert "\", \"" == q + Sep + q;
    assert "\": \"" == c + q;
    var v := x + (q + Sep + q) + other + (c + q) + y;
    assert Entry(Field(name, JString(v))) == q + name + c + (q + v + q);
    assert Entry(Field(name, JString(x))) == q + name + c + (q + x + q);
    assert Entry(Field(other, JString(y))) == q + other + c + (q + y + q);
    ConcatShape(q, name, c, x, Sep, other, y);
  }

  lemma ConcatShape(q: string, n: string, c: string, x: string, sep: string, o: string, y: string)
    ensures q + n + c + (q + (x + (q + sep + q) + o + (c + q) + y) + q)
            == (q + n + c + (q + x + q)) + sep + (q + o + c + (q + y + q))
  {
  }
}
