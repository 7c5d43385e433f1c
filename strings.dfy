/** The string operations of Python that the modelled code relies on:
    `in` on strings, `startswith`/`endswith`, ASCII `lower`, `str(int)` and
    `str.format` with one keyword argument. */
module Strings {
  import opened Wrappers

  predicate StartsWith(s: string, prefix: string) {
    |prefix| <= |s| && s[..|prefix|] == prefix
  }

  predicate EndsWith(s: string, suffix: string) {
    |suffix| <= |s| && s[|s| - |suffix|..] == suffix
  }

  /** Python's `sub in s`, scanning from the left. */
  predicate Contains(s: string, sub: string)
    decreases |s|
  {
    StartsWith(s, sub) || (s != [] && Contains(s[1..], sub))
  }

  predicate OccursAt(s: string, sub: string, i: int) {
    0 <= i <= |s| - |sub| && s[i..i + |sub|] == sub
  }

  /** `Contains` finds exactly the occurrences at some offset. */
  lemma {:induction false} ContainsIff(s: string, sub: string)
    ensures Contains(s, sub) <==> exists i :: OccursAt(s, sub, i)
    decreases |s|
  {
    if StartsWith(s, sub) {
      assert OccursAt(s, sub, 0);
    } else if s == [] {
      assert sub != [];
      assert forall i :: !OccursAt(s, sub, i);
    } else {
      ContainsIff(s[1..], sub);
      if Contains(s[1..], sub) {
        var i :| OccursAt(s[1..], sub, i);
        assert s[i + 1..i + 1 + |sub|] == s[1..][i..i + |sub|];
        assert OccursAt(s, sub, i + 1);
      }
      if exists i :: OccursAt(s, sub, i) {
        var i :| OccursAt(s, sub, i);
        assert i != 0;
        assert s[1..][i - 1..i - 1 + |sub|] == s[i..i + |sub|];
        assert OccursAt(s[1..], sub, i - 1);
      }
    }
  }

  function LowerChar(c: char): char {
    if 'A' <= c <= 'Z' then (c as int - 'A' as int + 'a' as int) as char else c
  }

  /** `str.lower` restricted to ASCII letters. */
  function Lower(s: string): (r: string)
    ensures |r| == |s|
    ensures forall i :: 0 <= i < |s| ==> r[i] == LowerChar(s[i])
  {
    if s == [] then [] else [LowerChar(s[0])] + Lower(s[1..])
  }

  lemma LowerIdempotent(s: string)
    ensures Lower(Lower(s)) == Lower(s)
  {
    assert forall i :: 0 <= i < |s| ==> LowerChar(LowerChar(s[i])) == LowerChar(s[i]);
  }

  /** Two strings that differ at most in the case of ASCII letters: at each
      position the characters are equal, or one is an upper-case letter and
      the other its lower-case partner. */
  predicate SameIgnoringCase(p: string, q: string) {
    |p| == |q| &&
    forall i :: 0 <= i < |p| ==>
      p[i] == q[i] ||
      ('A' <= p[i] <= 'Z' && q[i] as int == p[i] as int + 32) ||
      ('A' <= q[i] <= 'Z' && p[i] as int == q[i] as int + 32)
  }

  /** Lower-casing identifies exactly the strings that differ only in case. */
  lemma {:induction false} LowerSameIffSameIgnoringCase(p: string, q: string)
    requires |p| == |q|
    ensures Lower(p) == Lower(q) <==> SameIgnoringCase(p, q)
  {
    if p != [] {
      LowerSameIffSameIgnoringCase(p[1..], q[1..]);
      assert Lower(p) == [LowerChar(p[0])] + Lower(p[1..]);
      assert Lower(q) == [LowerChar(q[0])] + Lower(q[1..]);
      if SameIgnoringCase(p, q) {
        assert SameIgnoringCase(p[1..], q[1..]) by {
          forall i | 0 <= i < |p| - 1 ensures p[1..][i] == p[i + 1] && q[1..][i] == q[i + 1] {}
        }
      }
      if Lower(p) == Lower(q) {
        assert LowerChar(p[0]) == LowerChar(q[0]);
        forall i | 0 <= i < |p|
          ensures p[i] == q[i] ||
                  ('A' <= p[i] <= 'Z' && q[i] as int == p[i] as int + 32) ||
                  ('A' <= q[i] <= 'Z' && p[i] as int == q[i] as int + 32)
        {
          if i > 0 { assert p[i] == p[1..][i - 1] && q[i] == q[1..][i - 1]; }
        }
      }
    }
  }

  function DigitChar(d: nat): char
    requires d < 10
  {
    ('0' as int + d) as char
  }

  /** `str(n)` for a natural number: its decimal digits, no leading zero. */
  function NatToString(n: nat): (r: string)
    ensures |r| >= 1
    ensures forall i :: 0 <= i < |r| ==> '0' <= r[i] <= '9'
  {
    if n < 10 then [DigitChar(n)] else NatToString(n / 10) + [DigitChar(n % 10)]
  }

  /** `str(i)` for a Python int. */
  function IntToString(i: int): string {
    if i < 0 then "-" + NatToString(-i) else NatToString(i)
  }

  predicate NoBraces(s: string) {
    forall i :: 0 <= i < |s| ==> s[i] != '{' && s[i] != '}'
  }

  /** The exceptions `str.format` raises: KeyError for a field that was not
      supplied, ValueError for a brace without its partner. */
  datatype FormatError = UnknownField(name: string) | UnmatchedBrace

  /** Index of the first '}' at or after `i`, or `|t|` when there is none. */
  function FieldEnd(t: string, i: nat): (j: nat)
    requires i <= |t|
    ensures i <= j <= |t|
    ensures j < |t| ==> t[j] == '}'
    ensures forall k :: i <= k < j ==> t[k] != '}'
    decreases |t| - i
  {
    if i == |t| || t[i] == '}' then i else FieldEnd(t, i + 1)
  }

  function Prefixed(s: string, r: Result<string, FormatError>): Result<string, FormatError> {
    match r
    case Ok(rest) => Ok(s + rest)
    case Err(e) => Err(e)
  }

  /** `t.format(**{field: value})`, left to right: `{{` and `}}` stand for
      one brace, `{field}` is replaced by `value`, and the first replacement
      field with any other text, or an unpaired brace, raises. */
  function Format(t: string, field: string, value: string): Result<string, FormatError>
    decreases |t|
  {
    if t == [] then Ok([])
    else if t[0] == '{' then
      if |t| >= 2 && t[1] == '{' then Prefixed("{", Format(t[2..], field, value))
      else
        var j := FieldEnd(t, 1);
        if j == |t| then Err(UnmatchedBrace)
        else if t[1..j] == field then Prefixed(value, Format(t[j + 1..], field, value))
        else Err(UnknownField(t[1..j]))
    else if t[0] == '}' then
      if |t| >= 2 && t[1] == '}' then Prefixed("}", Format(t[2..], field, value))
      else Err(UnmatchedBrace)
    else Prefixed([t[0]], Format(t[1..], field, value))
  }

  /** Text without braces is copied through unchanged. */
  lemma {:induction false} FormatLiteralPrefix(pre: string, t: string, field: string, value: string)
    requires NoBraces(pre)
    ensures Format(pre + t, field, value) == Prefixed(pre, Format(t, field, value))
    decreases |pre|
  {
    if pre != [] {
      assert (pre + t)[0] == pre[0];
      assert pre[0] != '{' && pre[0] != '}';
      assert (pre + t)[1..] == pre[1..] + t;
      FormatLiteralPrefix(pre[1..], t, field, value);
      assert Format(pre + t, field, value) == Prefixed([pre[0]], Format(pre[1..] + t, field, value));
      PrefixedTwice([pre[0]], pre[1..], Format(t, field, value));
      assert [pre[0]] + pre[1..] == pre;
    } else {
      assert pre + t == t;
      if Format(t, field, value).Ok? {
        assert pre + Format(t, field, value).value == Format(t, field, value).value;
      }
    }
  }

  lemma PrefixedTwice(a: string, b: string, r: Result<string, FormatError>)
    ensures Prefixed(a, Prefixed(b, r)) == Prefixed(a + b, r)
  {
    if r.Ok? {
      assert a + (b + r.value) == a + b + r.value;
    }
  }

  lemma FormatLiteral(s: string, field: string, value: string)
    requires NoBraces(s)
    ensures Format(s, field, value) == Ok(s)
  {
    FormatLiteralPrefix(s, [], field, value);
    assert s + [] == s;
  }

  /** A template with one `{field}` between brace-free text formats to that
      text with the value in place of the field. */
  lemma FormatOneField(pre: string, field: string, post: string, value: string)
    requires NoBraces(pre) && NoBraces(field) && NoBraces(post)
    requires field != ""
    ensures Format(pre + "{" + field + "}" + post, field, value) == Ok(pre + value + post)
  {
    var t := "{" + field + "}" + post;
    assert pre + "{" + field + "}" + post == pre + t;
    FormatLiteralPrefix(pre, t, field, value);
    assert t[0] == '{' && t[1] != '{';
    var j := FieldEnd(t, 1);
    assert t[|field| + 1] == '}';
    assert forall k :: 1 <= k < |field| + 1 ==> t[k] == field[k - 1];
    assert j == |field| + 1;
    assert t[1..j] == field;
    assert t[j + 1..] == post;
    FormatLiteral(post, field, value);
    assert pre + (value + post) == pre + value + post;
  }

  /** The first replacement field decides: if it names anything but the
      supplied keyword, formatting raises. */
  lemma FormatOtherField(pre: string, name: string, post: string, field: string, value: string)
    requires NoBraces(pre) && NoBraces(name)
    requires name != field && name != ""
    ensures Format(pre + "{" + name + "}" + post, field, value) == Err(UnknownField(name))
  {
    var t := "{" + name + "}" + post;
    assert pre + "{" + name + "}" + post == pre + t;
    FormatLiteralPrefix(pre, t, field, value);
    assert t[0] == '{' && t[1] != '{';
    var j := FieldEnd(t, 1);
    assert t[|name| + 1] == '}';
    assert forall k :: 1 <= k < |name| + 1 ==> t[k] == name[k - 1];
    assert j == |name| + 1;
    assert t[1..j] == name;
  }
}
