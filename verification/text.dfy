/**
 * Text helpers used by the SQL and JSON builders: ASCII case mapping, the
 * bean-name decapitalisation rule, joining with a separator and its inverse.
 */
module Text {

  predicate IsLower(c: char) {
    'a' <= c <= 'z'
  }

  predicate IsUpper(c: char) {
    'A' <= c <= 'Z'
  }

  function UpperChar(c: char): (u: char)
    ensures !IsLower(u)
    ensures IsLower(c) ==> IsUpper(u)
    ensures !IsLower(c) ==> u == c
  {
    if IsLower(c) then (c as int - 'a' as int + 'A' as int) as char else c
  }

  function LowerChar(c: char): (l: char)
    ensures !IsUpper(l)
    ensures IsUpper(c) ==> IsLower(l) && UpperChar(l) == c
    ensures !IsUpper(c) ==> l == c
  {
    if IsUpper(c) then (c as int - 'A' as int + 'a' as int) as char else c
  }

  /** True when `s` holds no lower-case letter, i.e. it is already upper-cased. */
  predicate IsUpperText(s: string) {
    forall i :: 0 <= i < |s| ==> !IsLower(s[i])
  }

  /** `toUpperCase(Locale.ROOT)` restricted to the ASCII letters. */
  function ToUpper(s: string): (r: string)
    ensures |r| == |s|
  {
    seq(|s|, i requires 0 <= i < |s| => UpperChar(s[i]))
  }

  /** Upper-casing changes lower-case letters to upper case and leaves every other character alone. */
  lemma ToUpperChars(s: string)
    ensures IsUpperText(ToUpper(s))
    ensures forall i :: 0 <= i < |s| && !IsLower(s[i]) ==> ToUpper(s)[i] == s[i]
    ensures forall i :: 0 <= i < |s| && IsLower(s[i]) ==> IsUpper(ToUpper(s)[i])
  {
  }

  /**
   * `Introspector.decapitalize`: an empty name, or one whose first two
   * characters are both upper case ("URL"), is kept; otherwise the first
   * character is lower-cased.
   */
  function Decapitalize(s: string): (r: string)
    ensures |r| == |s|
    ensures |s| > 0 ==> r[1..] == s[1..]
    ensures |s| > 1 && IsUpper(s[0]) && IsUpper(s[1]) ==> r == s
    ensures |s| > 0 && !(|s| > 1 && IsUpper(s[0]) && IsUpper(s[1])) ==> r[0] == LowerChar(s[0])
  {
    if |s| == 0 then s
    else if |s| > 1 && IsUpper(s[1]) && IsUpper(s[0]) then s
    else [LowerChar(s[0])] + s[1..]
  }

  /** The name of the pseudo-property `getClass()` adds to every bean's property descriptors. */
  const ClassProperty: string := "class"

  /** The separator of `Collectors.joining(", ")`. */
  const Sep: string := ", "

  /** `String.join(sep, parts)`: the parts in order with `sep` between neighbours. */
  function Join(parts: seq<string>, sep: string): (r: string)
    ensures |parts| == 0 ==> r == ""
    ensures |parts| == 1 ==> r == parts[0]
    ensures |parts| > 1 ==> r == parts[0] + sep + Join(parts[1..], sep)
  {
    if |parts| == 0 then ""
    else if |parts| == 1 then parts[0]
    else parts[0] + sep + Join(parts[1..], sep)
  }

  /** `s` begins with `prefix`. */
  predicate StartsWith(s: string, prefix: string) {
    |prefix| <= |s| && s[..|prefix|] == prefix
  }

  lemma StartsWithConcat(a: string, b: string)
    ensures StartsWith(a + b, a)
    ensures (a + b)[|a|..] == b
  {
    assert (a + b)[..|a|] == a;
  }

  /** True when `s` does not contain the two-character separator ", ". */
  predicate NoSep(s: string) {
    forall i :: 0 <= i < |s| - 1 ==> !(s[i] == ',' && s[i + 1] == ' ')
  }

  /** Splits `s` at every occurrence of ", "; the inverse of joining with ", ". */
  function Split(s: string): (r: seq<string>)
    ensures |r| >= 1
    decreases |s|
  {
    if |s| == 0 then [""]
    else if |s| >= 2 && s[0] == ',' && s[1] == ' ' then [""] + Split(s[2..])
    else
      var rest := Split(s[1..]);
      [[s[0]] + rest[0]] + rest[1..]
  }

  /** A separator-free prefix ends up whole in the first piece. */
  lemma {:induction false} SplitPrefix(p: string, t: string)
    requires NoSep(p)
    requires |t| == 0 || t[0] == ','
    ensures Split(p + t) == [p + Split(t)[0]] + Split(t)[1..]
    decreases |p|
  {
    if |p| == 0 {
      assert p + t == t;
      assert p + Split(t)[0] == Split(t)[0];
      assert [Split(t)[0]] + Split(t)[1..] == Split(t);
    } else {
      var s := p + t;
      assert s[1..] == p[1..] + t;
      assert NoSep(p[1..]) by {
        forall i | 0 <= i < |p[1..]| - 1
          ensures !(p[1..][i] == ',' && p[1..][i + 1] == ' ')
        {
          assert p[1..][i] == p[i + 1] && p[1..][i + 1] == p[i + 2];
        }
      }
      SplitPrefix(p[1..], t);
      if |p| > 1 {
        assert s[0] == p[0] && s[1] == p[1];
        assert !(s[0] == ',' && s[1] == ' ');
      } else {
        assert |t| > 0 ==> s[1] == t[0];
      }
      assert [p[0]] + (p[1..] + Split(t)[0]) == p + Split(t)[0];
    }
  }

  /** Joining with ", " and splitting again gives back the parts, when no part holds ", ". */
  lemma {:induction false} SplitJoin(parts: seq<string>)
    requires |parts| > 0
    requires forall k :: 0 <= k < |parts| ==> NoSep(parts[k])
    ensures Split(Join(parts, Sep)) == parts
    decreases |parts|
  {
    if |parts| == 1 {
      SplitPrefix(parts[0], "");
      assert parts[0] + "" == parts[0];
    } else {
      var rest := Join(parts[1..], Sep);
      SplitJoin(parts[1..]);
      var t := Sep + rest;
      assert t[2..] == rest;
      assert Split(t) == [""] + parts[1..];
      SplitPrefix(parts[0], t);
      assert parts[0] + Sep + rest == parts[0] + t;
      assert parts[0] + "" == parts[0];
      assert [parts[0]] + parts[1..] == parts;
    }
  }

  /** `n` copies of `x`. */
  function Repeat<T>(x: T, n: nat): (r: seq<T>)
    ensures |r| == n
    ensures forall i :: 0 <= i < n ==> r[i] == x
  {
    if n == 0 then [] else [x] + Repeat(x, n - 1)
  }

  /** Number of occurrences of `c` in `s`. */
  function Count(c: char, s: string): nat
  {
    if |s| == 0 then 0 else (if s[0] == c then 1 else 0) + Count(c, s[1..])
  }

  lemma {:induction false} CountAppend(c: char, a: string, b: string)
    ensures Count(c, a + b) == Count(c, a) + Count(c, b)
    decreases |a|
  {
    if |a| == 0 {
      assert a + b == b;
    } else {
      assert (a + b)[1..] == a[1..] + b;
      CountAppend(c, a[1..], b);
    }
  }

  /** The separator holds no placeholder. */
  lemma SepUnmarked()
    ensures Count('?', Sep) == 0
  {
    assert Sep[1..] == " ";
    assert Sep[1..][1..] == "";
  }

  /** Joining `n` question marks with ", " yields exactly `n` placeholders. */
  lemma {:induction false} PlaceholderCount(n: nat)
    ensures Count('?', Join(Repeat("?", n), Sep)) == n
    decreases n
  {
    var qs := Repeat("?", n);
    if n == 1 {
      assert Join(qs, Sep) == "?";
      assert Count('?', "?") == 1 + Count('?', ""[..]);
    } else if n > 1 {
      var j := Join(qs[1..], Sep);
      assert qs[1..] == Repeat("?", n - 1);
      PlaceholderCount(n - 1);
      CountAppend('?', "?", Sep + j);
      CountAppend('?', Sep, j);
      SepUnmarked();
      assert Join(qs, Sep) == "?" + (Sep + j);
      assert Count('?', "?") == 1 + Count('?', ""[..]);
    }
  }
}
