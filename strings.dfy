/** The few ECMAScript string operations the extractors rely on:
    `String.prototype.trim`, `toUpperCase`, `includes` and the `Number(...)`
    conversion of a `data-timestamp` attribute. */
module Strings {
  import opened Wrappers

  /** WhiteSpace and LineTerminator code points of ECMAScript, the set that
      `trim` removes and that `Number` ignores around a numeral. */
  predicate IsWhitespace(c: char) {
    c in WHITESPACE || '\U{2000}' <= c <= '\U{200A}'
  }

  /** Those code points outside the range U+2000..U+200A. */
  const WHITESPACE: set<char> := {
    '\t', '\n', '\U{000B}', '\U{000C}', '\r', ' ', '\U{00A0}', '\U{1680}',
    '\U{2028}', '\U{2029}', '\U{202F}', '\U{205F}', '\U{3000}', '\U{FEFF}'}

  /** Every character is white space (this includes the empty string). */
  predicate IsBlank(s: string) {
    forall i :: 0 <= i < |s| ==> IsWhitespace(s[i])
  }

  /** Neither the first nor the last character is white space. */
  predicate IsTrimmed(s: string) {
    s == [] || (!IsWhitespace(s[0]) && !IsWhitespace(s[|s| - 1]))
  }

  /** Every character of `s` from index `lo` up to `hi` is white space. */
  predicate BlankBetween(s: string, lo: int, hi: int)
    requires 0 <= lo <= hi <= |s|
  {
    forall i :: lo <= i < hi ==> IsWhitespace(s[i])
  }

  /** The end of the white space that starts at index `i`. */
  function LeadEnd(s: string, i: nat): (j: nat)
    requires i <= |s|
    ensures i <= j <= |s| && BlankBetween(s, i, j)
    ensures j < |s| ==> !IsWhitespace(s[j])
    decreases |s| - i
  {
    if i < |s| && IsWhitespace(s[i]) then LeadEnd(s, i + 1) else i
  }

  /** The start of the white space that ends at index `j`, not going
      below `lo`. */
  function TrailStart(s: string, lo: nat, j: nat): (k: nat)
    requires lo <= j <= |s|
    ensures lo <= k <= j && BlankBetween(s, k, j)
    ensures k > lo ==> !IsWhitespace(s[k - 1])
    decreases j - lo
  {
    if j > lo && IsWhitespace(s[j - 1]) then TrailStart(s, lo, j - 1) else j
  }

  /** `String.prototype.trim`: the text between the leading and the trailing
      white space. */
  function Trim(s: string): (r: string)
    ensures |r| <= |s|
    ensures IsTrimmed(r)
    ensures r == [] <==> IsBlank(s)
    ensures exists a, b :: 0 <= a <= b <= |s| && r == s[a..b] && BlankBetween(s, 0, a) && BlankBetween(s, b, |s|)
  {
    var a := LeadEnd(s, 0);
    var b := TrailStart(s, a, |s|);
    assert BlankBetween(s, 0, a) && BlankBetween(s, b, |s|);
    assert a == b ==> IsBlank(s) by {
      if a == b {
        assert BlankBetween(s, 0, a) && BlankBetween(s, b, |s|);
      }
    }
    s[a..b]
  }

  /** LeadEnd is determined by where the white space stops. */
  lemma {:induction false} LeadEndIs(s: string, i: nat, j: nat)
    requires i <= j <= |s| && BlankBetween(s, i, j)
    requires j < |s| ==> !IsWhitespace(s[j])
    ensures LeadEnd(s, i) == j
    decreases j - i
  {
    if i < j {
      LeadEndIs(s, i + 1, j);
    }
  }

  /** TrailStart is determined by where the white space starts. */
  lemma {:induction false} TrailStartIs(s: string, lo: nat, k: nat, j: nat)
    requires lo <= k <= j <= |s| && BlankBetween(s, k, j)
    requires k > lo ==> !IsWhitespace(s[k - 1])
    ensures TrailStart(s, lo, j) == k
    decreases j - k
  {
    if k < j {
      TrailStartIs(s, lo, k, j - 1);
    }
  }

  /** Any framing of a trimmed text by white space is undone by Trim, so
      Trim is the one way to split a text into blank, trimmed and blank
      parts. */
  lemma TrimOfFramed(pre: string, mid: string, post: string)
    requires IsBlank(pre) && IsBlank(post) && IsTrimmed(mid)
    ensures Trim(pre + mid + post) == mid
  {
    var s := pre + mid + post;
    var p, m := |pre|, |pre| + |mid|;
    assert forall i :: 0 <= i < p ==> s[i] == pre[i];
    assert forall i :: p <= i < m ==> s[i] == mid[i - p];
    assert forall i :: m <= i < |s| ==> s[i] == post[i - m];
    if mid == [] {
      LeadEndIs(s, 0, |s|);
      TrailStartIs(s, |s|, |s|, |s|);
    } else {
      LeadEndIs(s, 0, p);
      TrailStartIs(s, p, m, |s|);
      assert s[p..m] == mid;
    }
  }

  /** Trimming twice is trimming once. */
  lemma TrimIdempotent(s: string)
    ensures Trim(Trim(s)) == Trim(s)
  {
    var r := Trim(s);
    TrimOfFramed([], r, []);
    assert [] + r + [] == r;
  }

  /** The ASCII case mapping of `toUpperCase`. */
  function UpperChar(c: char): char {
    if 'a' <= c <= 'z' then (c as int - 32) as char else c
  }

  /** `String.prototype.toUpperCase`, restricted to the ASCII letters. */
  function ToUpper(s: string): (r: string)
    ensures |r| == |s|
    ensures forall i :: 0 <= i < |s| ==> r[i] == UpperChar(s[i])
    ensures forall i :: 0 <= i < |r| ==> !('a' <= r[i] <= 'z')
  {
    if s == [] then [] else [UpperChar(s[0])] + ToUpper(s[1..])
  }

  /** Upper-casing keeps a trimmed text trimmed and non-empty text
      non-empty: white space is never a letter. */
  lemma UpperKeepsTrimmed(s: string)
    requires IsTrimmed(s)
    ensures IsTrimmed(ToUpper(s)) && (ToUpper(s) == [] <==> s == [])
  {
    if s != [] {
      UpperCharKeepsSpace(s[0]);
      UpperCharKeepsSpace(s[|s| - 1]);
    }
  }

  /** A character and its upper case are both white space or both not. */
  lemma UpperCharKeepsSpace(c: char)
    ensures IsWhitespace(UpperChar(c)) <==> IsWhitespace(c)
  {
    if 'a' <= c <= 'z' {
      assert 'A' <= UpperChar(c) <= 'Z';
    }
  }

  /** `sub` occurs in `s` starting at index `i`. */
  predicate OccursAt(s: string, sub: string, i: int) {
    0 <= i <= |s| - |sub| && s[i..i + |sub|] == sub
  }

  /** `String.prototype.includes`: `sub` occurs in `s` at some position. */
  function Includes(s: string, sub: string): (r: bool)
    ensures r <==> exists i :: OccursAt(s, sub, i)
    decreases |s|
  {
    if |sub| > |s| then false
    else if s[..|sub|] == sub then assert OccursAt(s, sub, 0); true
    else
      var r := Includes(s[1..], sub);
      assert r ==> exists i :: OccursAt(s, sub, i) by {
        if r {
          var j :| OccursAt(s[1..], sub, j);
          assert s[j + 1..j + 1 + |sub|] == s[1..][j..j + |sub|];
          assert OccursAt(s, sub, j + 1);
        }
      }
      assert (exists i :: OccursAt(s, sub, i)) ==> r by {
        if exists i :: OccursAt(s, sub, i) {
          var i :| OccursAt(s, sub, i);
          assert i != 0;
          assert s[1..][i - 1..i - 1 + |sub|] == s[i..i + |sub|];
          assert OccursAt(s[1..], sub, i - 1);
        }
      }
      r
  }

  /** Every string includes itself, so an exact match is also a substring
      match. */
  lemma IncludesSelf(s: string)
    ensures Includes(s, s)
  {
    assert OccursAt(s, s, 0);
  }

  predicate IsDigit(c: char) {
    '0' <= c <= '9'
  }

  predicate IsDigits(s: string) {
    forall i :: 0 <= i < |s| ==> IsDigit(s[i])
  }

  /** The value of a string of decimal digits, most significant first. */
  function DigitsValue(s: string): (n: nat)
    requires IsDigits(s)
  {
    if s == [] then 0
    else DigitsValue(s[..|s| - 1]) * 10 + (s[|s| - 1] as int - '0' as int)
  }

  /** `Number(s)` for the numerals the wiki writes: optional white space
      around an optionally signed run of decimal digits, and a blank string
      that converts to 0. Any other string is taken as NaN (None). */
  function ToNumber(s: string): (r: Option<int>)
    ensures IsBlank(s) ==> r == Some(0)
  {
    NumeralValue(Trim(s))
  }

  /** The value of a trimmed numeral: empty is 0, then an optional sign and
      at least one digit. */
  function NumeralValue(t: string): Option<int> {
    if t == [] then Some(0)
    else if t[0] == '-' || t[0] == '+' then
      var d := t[1..];
      if d != [] && IsDigits(d) then Some(if t[0] == '-' then -(DigitsValue(d) as int) else DigitsValue(d))
      else None
    else if IsDigits(t) then Some(DigitsValue(t))
    else None
  }

  /** The canonical decimal numeral of `n`, as `String(n)` writes it. */
  function Decimal(n: nat): (s: string)
    ensures s != [] && IsDigits(s) && s[0] != '-' && !IsWhitespace(s[0])
    ensures !IsWhitespace(s[|s| - 1])
  {
    if n < 10 then [('0' as int + n) as char]
    else Decimal(n / 10) + [('0' as int + n % 10) as char]
  }

  lemma {:induction false} DecimalValue(n: nat)
    ensures DigitsValue(Decimal(n)) == n
  {
    if n >= 10 {
      var s := Decimal(n);
      assert s[..|s| - 1] == Decimal(n / 10);
      DecimalValue(n / 10);
    }
  }

  /** Round trip: the numeral of a whole number, with surrounding white
      space, converts back to that number. */
  lemma NumberOfDecimal(n: nat, pre: string, post: string)
    requires IsBlank(pre) && IsBlank(post)
    ensures ToNumber(pre + Decimal(n) + post) == Some(n)
  {
    var d := Decimal(n);
    assert Trim(pre + d + post) == d by {
      TrimOfFramed(pre, d, post);
    }
    assert NumeralValue(d) == Some(DigitsValue(d)) by {
      assert !(d[0] == '-' || d[0] == '+');
    }
    DecimalValue(n);
  }

  /** A minus sign in front of a run of digits, with surrounding white
      space, converts to minus the value of the digits. */
  lemma NumberOfSignedDigits(pre: string, d: string, post: string)
    requires IsBlank(pre) && IsBlank(post) && d != [] && IsDigits(d) && !IsWhitespace(d[|d| - 1])
    ensures ToNumber(pre + "-" + d + post) == Some(-(DigitsValue(d) as int))
  {
    TrimOfSigned(pre, d, post);
    NumeralOfSigned(d);
  }

  lemma TrimOfSigned(pre: string, d: string, post: string)
    requires IsBlank(pre) && IsBlank(post) && d != [] && !IsWhitespace(d[|d| - 1])
    ensures Trim(pre + "-" + d + post) == "-" + d
  {
    var m := "-" + d;
    assert m[|m| - 1] == d[|d| - 1];
    assert pre + "-" + d + post == pre + m + post;
    TrimOfFramed(pre, m, post);
  }

  lemma NumeralOfSigned(d: string)
    requires d != [] && IsDigits(d)
    ensures NumeralValue("-" + d) == Some(-(DigitsValue(d) as int))
  {
    var m := "-" + d;
    assert m[0] == '-' && m[1..] == d;
  }
}
