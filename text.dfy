/**
 * The parts of Python's `str` that the sync utilities rely on:
 * `strip`, ASCII `lower`, `split` on one character, `join`, and the
 * `int`/`str` conversions between integers and decimal text.
 */
module Text {
  import opened Wrappers

  /** Python's `str.isspace` for one character. */
  predicate IsSpace(c: char) {
    c == ' ' || ('\t' <= c <= '\r') || ('\U{1c}' <= c <= '\U{1f}')
    || c == '\U{85}' || c == '\U{a0}' || c == '\U{1680}'
    || ('\U{2000}' <= c <= '\U{200a}') || c == '\U{2028}' || c == '\U{2029}'
    || c == '\U{202f}' || c == '\U{205f}' || c == '\U{3000}'
  }

  /** Every character is whitespace. */
  predicate AllSpace(s: string) {
    forall i :: 0 <= i < |s| ==> IsSpace(s[i])
  }

  /** `lstrip()`: drops the leading whitespace and nothing else. */
  function TrimStart(s: string): (r: string)
    ensures |r| <= |s| && r == s[|s| - |r|..]
    ensures AllSpace(s[..|s| - |r|])
    ensures r == [] || !IsSpace(r[0])
  {
    if |s| > 0 && IsSpace(s[0]) then TrimStart(s[1..]) else s
  }

  /** `rstrip()`: drops the trailing whitespace and nothing else. */
  function TrimEnd(s: string): (r: string)
    ensures |r| <= |s| && r == s[..|r|]
    ensures AllSpace(s[|r|..])
    ensures r == [] || !IsSpace(r[|r| - 1])
  {
    if |s| > 0 && IsSpace(s[|s| - 1]) then TrimEnd(s[..|s| - 1]) else s
  }

  /** No whitespace at either end. */
  predicate Trimmed(s: string) {
    s == [] || (!IsSpace(s[0]) && !IsSpace(s[|s| - 1]))
  }

  /** Python's `s.strip()`. */
  function Strip(s: string): (r: string)
    ensures Trimmed(r)
    ensures Trimmed(s) ==> r == s
  {
    var t := TrimStart(s);
    var r := TrimEnd(t);
    assert r != [] ==> r[0] == t[0];
    r
  }

  /**
   * `strip()` removes whitespace only: the text is a whitespace prefix of
   * length `k`, the result, and a whitespace suffix.
   */
  lemma StripParts(s: string) returns (k: nat)
    ensures k + |Strip(s)| <= |s|
    ensures AllSpace(s[..k]) && AllSpace(s[k + |Strip(s)|..])
    ensures s == s[..k] + Strip(s) + s[k + |Strip(s)|..]
  {
    var t := TrimStart(s);
    var r := TrimEnd(t);
    assert r == Strip(s);
    k := |s| - |t|;
    SuffixSlices(s, k, |r|);
    SplitThree(s, k, |r|);
  }

  lemma SuffixSlices<T>(s: seq<T>, k: nat, n: nat)
    requires k + n <= |s|
    ensures s[k..][..n] == s[k..k + n] && s[k..][n..] == s[k + n..]
  {
  }

  lemma SplitThree<T>(s: seq<T>, k: nat, n: nat)
    requires k + n <= |s|
    ensures s == s[..k] + s[k..k + n] + s[k + n..]
  {
  }

  /** Leading whitespace does not change `lstrip()`. */
  lemma {:induction false} TrimStartPadded(pre: string, x: string)
    requires AllSpace(pre)
    ensures TrimStart(pre + x) == TrimStart(x)
  {
    if pre != [] {
      assert (pre + x)[1..] == pre[1..] + x;
      assert AllSpace(pre[1..]) by {
        forall i | 0 <= i < |pre[1..]| ensures IsSpace(pre[1..][i]) {
          assert pre[1..][i] == pre[i + 1];
        }
      }
      TrimStartPadded(pre[1..], x);
    } else {
      assert pre + x == x;
    }
  }

  /** Trailing whitespace does not change `rstrip()`. */
  lemma {:induction false} TrimEndPadded(x: string, suf: string)
    requires AllSpace(suf)
    ensures TrimEnd(x + suf) == TrimEnd(x)
  {
    if suf != [] {
      var init := suf[..|suf| - 1];
      assert (x + suf)[..|x + suf| - 1] == x + init;
      assert AllSpace(init) by {
        forall i | 0 <= i < |init| ensures IsSpace(init[i]) {
          assert init[i] == suf[i];
        }
      }
      TrimEndPadded(x, init);
    } else {
      assert x + suf == x;
    }
  }

  /** `strip()` of a trimmed text between whitespace is that text. */
  lemma StripOfPadded(pre: string, r: string, suf: string)
    requires AllSpace(pre) && AllSpace(suf) && Trimmed(r)
    ensures Strip(pre + r + suf) == r
  {
    assert pre + r + suf == pre + (r + suf);
    TrimStartPadded(pre, r + suf);
    if r == [] {
      assert r + suf == suf + [];
      TrimStartPadded(suf, []);
    } else {
      assert (r + suf)[0] == r[0];
    }
    TrimEndPadded(r, suf);
  }

  /** Whitespace added at either end does not change `strip()`. */
  lemma StripIgnoresPadding(pre: string, s: string, suf: string)
    requires AllSpace(pre) && AllSpace(suf)
    ensures Strip(pre + s + suf) == Strip(s)
  {
    var r := Strip(s);
    var k := StripParts(s);
    var a, b := s[..k], s[k + |r|..];
    Regroup(pre, a, r, b, suf);
    AllSpaceConcat(pre, a);
    AllSpaceConcat(b, suf);
    StripOfPadded(pre + a, r, b + suf);
  }

  lemma Regroup<T>(p: seq<T>, a: seq<T>, r: seq<T>, b: seq<T>, q: seq<T>)
    ensures p + (a + r + b) + q == (p + a) + r + (b + q)
  {
  }

  lemma AllSpaceConcat(a: string, b: string)
    requires AllSpace(a) && AllSpace(b)
    ensures AllSpace(a + b)
  {
    assert forall i :: |a| <= i < |a + b| ==> (a + b)[i] == b[i - |a|];
  }

  /** Leading spaces never survive `strip`. */
  lemma StripSkipsLeadingSpace(c: char, s: string)
    requires IsSpace(c)
    ensures Strip([c] + s) == Strip(s)
  {
    assert ([c] + s)[1..] == s;
  }

  /** A string with a non-space first character, its whitespace ends cut. */
  lemma StripOfSpacePrefixed(x: string)
    requires x != [] && Trimmed(x)
    ensures Strip(" " + x) == x
  {
    StripSkipsLeadingSpace(' ', x);
  }

  function LowerChar(c: char): char {
    if 'A' <= c <= 'Z' then (c as int + 32) as char else c
  }

  /** Python's `str.lower()` on ASCII letters; every other character is kept. */
  function Lower(s: string): (r: string)
    ensures |r| == |s|
    ensures forall i :: 0 <= i < |s| ==> r[i] == LowerChar(s[i])
  {
    seq(|s|, i requires 0 <= i < |s| => LowerChar(s[i]))
  }

  /** Lower-casing twice is lower-casing once. */
  lemma LowerTwice(s: string)
    ensures Lower(Lower(s)) == Lower(s)
  {
    var l := Lower(s);
    assert forall i :: 0 <= i < |l| ==> LowerChar(l[i]) == l[i];
  }

  /** Lower-casing moves no character into or out of the white space. */
  lemma LowerKeepsTrimmed(s: string)
    requires Trimmed(s)
    ensures Trimmed(Lower(s))
  {
    if s != [] {
      assert !IsSpace(LowerChar(s[0])) && !IsSpace(LowerChar(s[|s| - 1]));
    }
  }

  predicate NoLineBreak(s: string) {
    '\n' !in s && '\r' !in s
  }

  /** Python's `s.split(sep)`: the pieces between occurrences of `sep`; never empty. */
  function Split(s: string, sep: char): (parts: seq<string>)
    ensures |parts| >= 1
  {
    if |s| == 0 then [""]
    else if s[0] == sep then [""] + Split(s[1..], sep)
    else
      var rest := Split(s[1..], sep);
      [[s[0]] + rest[0]] + rest[1..]
  }

  /** A piece free of the separator splits off intact. */
  lemma {:induction false} SplitAt(a: string, sep: char, b: string)
    requires sep !in a
    ensures Split(a + [sep] + b, sep) == [a] + Split(b, sep)
  {
    if a == [] {
      assert a + [sep] + b == [sep] + b;
      assert ([sep] + b)[1..] == b;
    } else {
      var s := a + [sep] + b;
      assert s[0] == a[0] && a[0] != sep;
      assert s[1..] == a[1..] + [sep] + b;
      SplitAt(a[1..], sep, b);
      assert [a[0]] + a[1..] == a;
    }
  }

  /** Splitting text glued at a separator splits each side on its own. */
  lemma {:induction false} SplitConcat(a: string, sep: char, b: string)
    ensures Split(a + [sep] + b, sep) == Split(a, sep) + Split(b, sep)
  {
    if a == [] {
      assert a + [sep] + b == [sep] + b;
      assert ([sep] + b)[1..] == b;
    } else {
      var s := a + [sep] + b;
      assert s[0] == a[0];
      assert s[1..] == a[1..] + [sep] + b;
      SplitConcat(a[1..], sep, b);
    }
  }

  /** A string without the separator is a single piece. */
  lemma {:induction false} SplitNone(a: string, sep: char)
    requires sep !in a
    ensures Split(a, sep) == [a]
  {
    if a != [] {
      assert a[0] != sep;
      SplitNone(a[1..], sep);
      assert [a[0]] + a[1..] == a;
    }
  }

  /** Python's `sep.join(items)`. */
  function Join(items: seq<string>, sep: string): string {
    if |items| == 0 then ""
    else if |items| == 1 then items[0]
    else items[0] + sep + Join(items[1..], sep)
  }

  /** A character in neither the items nor the separator is not in their join. */
  lemma {:induction false} JoinAvoids(items: seq<string>, sep: string, c: char)
    requires c !in sep
    requires forall i :: 0 <= i < |items| ==> c !in items[i]
    ensures c !in Join(items, sep)
  {
    if |items| > 1 {
      JoinAvoids(items[1..], sep, c);
    }
  }

  /** Joining non-empty trimmed items starts and ends with their outer characters. */
  lemma {:induction false} JoinTrimmed(items: seq<string>, sep: string)
    requires forall i :: 0 <= i < |items| ==> items[i] != [] && Trimmed(items[i])
    ensures Trimmed(Join(items, sep))
  {
    if |items| > 1 {
      JoinTrimmed(items[1..], sep);
      var j := Join(items[1..], sep);
      assert j != [] by {
        JoinNonEmpty(items[1..], sep);
      }
      assert Join(items, sep) == items[0] + sep + j;
      assert Join(items, sep)[0] == items[0][0];
      assert Join(items, sep)[|Join(items, sep)| - 1] == j[|j| - 1];
    }
  }

  lemma {:induction false} JoinNonEmpty(items: seq<string>, sep: string)
    requires |items| > 0 && items[0] != []
    ensures Join(items, sep) != []
  {
  }

  /** Index of the first occurrence of `c` in `s`. */
  function IndexOf(s: string, c: char): (i: nat)
    requires c in s
    ensures i < |s| && s[i] == c && c !in s[..i]
  {
    if s[0] == c then 0 else 1 + IndexOf(s[1..], c)
  }

  predicate IsDigit(c: char) {
    '0' <= c <= '9'
  }

  function DigitChar(d: nat): (c: char)
    requires d < 10
    ensures IsDigit(c)
  {
    ('0' as int + d) as char
  }

  /** Python's `str(n)` for a natural number. */
  function NatText(n: nat): (s: string)
    ensures s != [] && forall i :: 0 <= i < |s| ==> IsDigit(s[i])
  {
    if n < 10 then [DigitChar(n)] else NatText(n / 10) + [DigitChar(n % 10)]
  }

  /** Python's `str(i)` for an integer. */
  function IntText(i: int): string {
    if i < 0 then "-" + NatText(-i) else NatText(i)
  }

  /** The numeric value of digit text in which `_` separators are skipped. */
  function DigitsValue(s: string): nat
    requires forall i :: 0 <= i < |s| ==> IsDigit(s[i]) || s[i] == '_'
  {
    if s == [] then 0
    else if s[|s| - 1] == '_' then DigitsValue(s[..|s| - 1])
    else
      assert IsDigit(s[|s| - 1]);
      DigitsValue(s[..|s| - 1]) * 10 + (s[|s| - 1] as int - '0' as int)
  }

  /**
   * The digit part Python's `int()` accepts, restricted to ASCII: decimal
   * digits, single `_` separators between digits, at least one digit.
   */
  predicate DecimalBody(s: string) {
    && s != []
    && IsDigit(s[0]) && IsDigit(s[|s| - 1])
    && (forall i :: 0 <= i < |s| ==> IsDigit(s[i]) || s[i] == '_')
    && (forall i :: 0 <= i < |s| - 1 ==> !(s[i] == '_' && s[i + 1] == '_'))
  }

  /**
   * Python's `int(s)` for base-10 text with ASCII digits (`None` where it
   * raises ValueError); other Unicode decimal digits are rejected here.
   */
  function ParseInt(s: string): Option<int> {
    var t := Strip(s);
    if |t| > 0 && (t[0] == '+' || t[0] == '-') then
      if DecimalBody(t[1..]) then
        Some(if t[0] == '-' then -(DigitsValue(t[1..]) as int) else DigitsValue(t[1..]) as int)
      else None
    else if DecimalBody(t) then Some(DigitsValue(t) as int)
    else None
  }

  lemma {:induction false} NatTextValue(n: nat)
    ensures DigitsValue(NatText(n)) == n
  {
    if n >= 10 {
      var s := NatText(n);
      assert s[..|s| - 1] == NatText(n / 10);
      NatTextValue(n / 10);
    }
  }

  /** `int(str(n)) == n` for every natural number. */
  lemma ParseIntOfNatText(n: nat)
    ensures ParseInt(NatText(n)) == Some(n as int)
  {
    var s := NatText(n);
    assert IsDigit(s[0]) && IsDigit(s[|s| - 1]);
    assert Trimmed(s);
    assert Strip(s) == s;
    assert !(s[0] == '+' || s[0] == '-');
    assert DecimalBody(s);
    NatTextValue(n);
  }
}
