/**
 * `JSONWriter.toJSON`: a recursive serialiser over `null`, booleans, 32-bit
 * integers, strings and beans. A bean becomes `{"name": value, ...}` over its
 * properties in descriptor order, without the `class` property; strings are
 * quoted and not escaped.
 */
module JsonWriter {
  import opened Text

  newtype int32 = x: int | -0x8000_0000 <= x < 0x8000_0000

  /** The values `toJSON` accepts; a bean is the ordered list of its readable properties. */
  datatype Json =
    | JNull
    | JBool(b: bool)
    | JInt(i: int32)
    | JString(s: string)
    | JBean(fields: seq<Field>)

  /** A bean property and the value its getter returns. */
  datatype Field = Field(name: string, value: Json)

  predicate IsDigit(c: char) {
    '0' <= c <= '9'
  }

  function DigitChar(d: nat): (c: char)
    requires d < 10
    ensures IsDigit(c)
  {
    ('0' as int + d) as char
  }

  /** The decimal digits of `n`, without leading zeros. */
  function NatText(n: nat): (r: string)
    ensures |r| > 0
    ensures forall k :: 0 <= k < |r| ==> IsDigit(r[k])
    ensures |r| > 1 ==> r[0] != '0'
    decreases n
  {
    if n < 10 then [DigitChar(n)] else NatText(n / 10) + [DigitChar(n % 10)]
  }

  /** `Integer.toString`: a minus sign for negative values, then the digits of the magnitude. */
  function IntText(i: int): (r: string)
    ensures |r| > 0
    ensures i < 0 <==> r[0] == '-'
    ensures i >= 0 ==> IsDigit(r[0])
  {
    if i < 0 then "-" + NatText(-i) else NatText(i)
  }

  /**
   * `toJSON`. The first character tells which kind of value was written,
   * and a bean's or a string's text is closed by the matching delimiter.
   */
  function ToJson(v: Json): (r: string)
    ensures |r| > 0
    ensures r[0] == 'n' <==> v.JNull?
    ensures r[0] == 't' || r[0] == 'f' <==> v.JBool?
    ensures r[0] == '-' || IsDigit(r[0]) <==> v.JInt?
    ensures r[0] == '"' <==> v.JString?
    ensures r[0] == '{' <==> v.JBean?
    ensures v.JString? || v.JBean? ==> |r| >= 2 && r[|r| - 1] == (if v.JString? then '"' else '}')
    decreases v, 1
  {
    match v
    case JNull => "null"
    case JBool(b) => if b then "true" else "false"
    case JInt(i) => IntText(i as int)
    case JString(s) => "\"" + s + "\""
    case JBean(fields) => "{" + Join(Entries(fields), Sep) + "}"
  }

  /**
   * `propertyToJson`: the quoted name, a colon and a space, then the value.
   * A name without a quote ends at the first quote after the opening one.
   */
  function Entry(f: Field): (r: string)
    ensures |r| == |f.name| + 4 + |ToJson(f.value)|
    ensures r[0] == '"' && r[|f.name| + 1..|f.name| + 4] == "\": "
    ensures '"' !in f.name ==> '"' !in r[1..|f.name| + 1]
    ensures r[1..|f.name| + 1] == f.name && r[|f.name| + 4..] == ToJson(f.value)
    decreases f, 2
  {
    "\"" + f.name + "\": " + ToJson(f.value)
  }

  /** One entry per property except `class`, in property order. */
  function Entries(fields: seq<Field>): (r: seq<string>)
    ensures |r| <= |fields|
    ensures forall e :: e in r <==> exists f :: f in fields && f.name != ClassProperty && e == Entry(f)
    decreases fields, 0
  {
    assert forall f :: f in fields <==> |fields| > 0 && (f == fields[0] || f in fields[1..]);
    if |fields| == 0 then []
    else if fields[0].name == ClassProperty then Entries(fields[1..])
    else [Entry(fields[0])] + Entries(fields[1..])
  }

  /** The value with every `class` property removed, at every depth. */
  function Strip(v: Json): (r: Json)
    decreases v, 1
  {
    match v
    case JBean(fields) => JBean(StripFields(fields))
    case _ => v
  }

  function StripFields(fields: seq<Field>): (r: seq<Field>)
    ensures |r| <= |fields|
    decreases fields, 0
  {
    if |fields| == 0 then []
    else if fields[0].name == ClassProperty then StripFields(fields[1..])
    else [Field(fields[0].name, Strip(fields[0].value))] + StripFields(fields[1..])
  }

  /** The `class` property does not reach the output: a value and its stripped form serialise alike. */
  lemma {:induction false} ToJsonStrip(v: Json)
    ensures ToJson(Strip(v)) == ToJson(v)
    decreases v, 1
  {
    match v
    case JBean(fields) => EntriesStrip(fields);
    case _ =>
  }

  lemma {:induction false} EntriesStrip(fields: seq<Field>)
    ensures Entries(StripFields(fields)) == Entries(fields)
    decreases fields, 0
  {
    if |fields| > 0 {
      EntriesStrip(fields[1..]);
      if fields[0].name != ClassProperty {
        ToJsonStrip(fields[0].value);
      }
    }
  }
}
