/**
 * String operations of the Go standard library as the back end uses them: byte-wise ordering
 * (`<` on strings, `sort.Strings`), `strings.Split` on one separator, `strings.TrimSpace`,
 * `strconv.Itoa` and `strconv.Atoi`. Strings are sequences of Unicode scalar values; ordering
 * them by code point is the same as Go's ordering of their UTF-8 bytes.
 */
module Text {
  import opened Wrappers

  // ---------------------------------------------------------------- ordering

  /** Go's `a < b` on strings: lexicographic, a proper prefix comes first. */
  predicate LexLess(a: string, b: string)
  {
    if a == [] then b != []
    else if b == [] then false
    else if a[0] != b[0] then a[0] < b[0]
    else LexLess(a[1..], b[1..])
  }

  predicate LexLe(a: string, b: string)
  {
    a == b || LexLess(a, b)
  }

  lemma {:induction false} LexLessIrreflexive(a: string)
    ensures !LexLess(a, a)
  {
    if a != [] {
      LexLessIrreflexive(a[1..]);
    }
  }

  lemma {:induction false} LexLessTransitive(a: string, b: string, c: string)
    requires LexLess(a, b) && LexLess(b, c)
    ensures LexLess(a, c)
  {
    if a != [] && b != [] && c != [] && a[0] == b[0] && b[0] == c[0] {
      LexLessTransitive(a[1..], b[1..], c[1..]);
    }
  }

  /** Exactly one of `a < b`, `a == b`, `b < a` holds. */
  lemma {:induction false} LexLessTrichotomy(a: string, b: string)
    ensures LexLess(a, b) || a == b || LexLess(b, a)
    ensures !(LexLess(a, b) && LexLess(b, a))
  {
    if a != [] && b != [] && a[0] == b[0] {
      LexLessTrichotomy(a[1..], b[1..]);
      if a[1..] == b[1..] {
        assert a == [a[0]] + a[1..] && b == [b[0]] + b[1..];
      }
    }
  }

  lemma LexLeTotal(a: string, b: string)
    ensures LexLe(a, b) || LexLe(b, a)
  {
    LexLessTrichotomy(a, b);
  }

  lemma LexLeTransitive(a: string, b: string, c: string)
    requires LexLe(a, b) && LexLe(b, c)
    ensures LexLe(a, c)
  {
    if a != b && b != c {
      LexLessTransitive(a, b, c);
    }
  }

  lemma LexLeAntisymmetric(a: string, b: string)
    requires LexLe(a, b) && LexLe(b, a)
    ensures a == b
  {
    LexLessTrichotomy(a, b);
  }

  /** Comparing equal-length prefixes keeps the order: the date part of an ISO timestamp orders like the timestamp. */
  lemma {:induction false} LexLePrefix(a: string, b: string, k: nat)
    requires LexLe(a, b) && k <= |a| && k <= |b|
    ensures LexLe(a[..k], b[..k])
  {
    if k > 0 && a != b && a[0] == b[0] {
      LexLePrefix(a[1..], b[1..], k - 1);
      assert a[..k] == [a[0]] + a[1..][..k - 1];
      assert b[..k] == [b[0]] + b[1..][..k - 1];
    }
  }

  /** When two strings share a prefix of the same length, the rest decides their order. */
  lemma {:induction false} LexLessAppend(p: string, a: string, b: string)
    ensures LexLess(p + a, p + b) == LexLess(a, b)
  {
    if p != [] {
      LexLessAppend(p[1..], a, b);
      assert (p + a)[1..] == p[1..] + a && (p + b)[1..] == p[1..] + b;
    } else {
      assert p + a == a && p + b == b;
    }
  }

  /** Two equal-length strings that differ in their first parts are ordered by those parts. */
  lemma {:induction false} LexLessDiffer(p: string, q: string, a: string, b: string)
    requires |p| == |q| && p != q
    ensures LexLess(p + a, q + b) == LexLess(p, q)
  {
    if p[0] == q[0] {
      assert p == [p[0]] + p[1..] && q == [q[0]] + q[1..];
      LexLessDiffer(p[1..], q[1..], a, b);
      assert (p + a)[1..] == p[1..] + a && (q + b)[1..] == q[1..] + b;
    }
  }

  // ---------------------------------------------------------------- splitting

  /** The text before the first `sep`, or the whole string: `strings.Split(s, sep)[0]`. */
  function Before(s: string, sep: char): (r: string)
    ensures |r| <= |s| && r == s[..|r|] && sep !in r
    ensures |r| < |s| ==> s[|r|] == sep
    ensures sep !in s ==> r == s
  {
    if s == [] then [] else if s[0] == sep then [] else [s[0]] + Before(s[1..], sep)
  }

  /** `strings.Split(s, sep)` for a one-character separator: always at least one part, none containing `sep`. */
  function Split(s: string, sep: char): (parts: seq<string>)
    ensures |parts| >= 1 && parts[0] == Before(s, sep)
    ensures forall k :: 0 <= k < |parts| ==> sep !in parts[k]
    decreases |s|
  {
    var head := Before(s, sep);
    if |head| == |s| then [s] else [head] + Split(s[|head| + 1..], sep)
  }

  function Join(parts: seq<string>, sep: char): string
  {
    if parts == [] then [] else if |parts| == 1 then parts[0] else parts[0] + [sep] + Join(parts[1..], sep)
  }

  lemma JoinCons(head: string, parts: seq<string>, sep: char)
    requires parts != []
    ensures Join([head] + parts, sep) == head + [sep] + Join(parts, sep)
  {
    assert ([head] + parts)[1..] == parts;
  }

  /** A string holding the separator is its first part, the separator and the rest. */
  lemma SplitFirst(s: string, sep: char)
    requires |Before(s, sep)| < |s|
    ensures var head := Before(s, sep); var rest := s[|head| + 1..];
      s == head + [sep] + rest && Split(s, sep) == [head] + Split(rest, sep)
  {
    var head := Before(s, sep);
    assert s == s[..|head|] + [s[|head|]] + s[|head| + 1..];
  }

  /** Joining the parts back with the separator gives the original string. */
  lemma {:induction false} JoinSplit(s: string, sep: char)
    ensures Join(Split(s, sep), sep) == s
    decreases |s|
  {
    var head := Before(s, sep);
    if |head| < |s| {
      var rest := s[|head| + 1..];
      JoinSplit(rest, sep);
      SplitFirst(s, sep);
      JoinCons(head, Split(rest, sep), sep);
    }
  }

  /** The text before the first separator is the part written before it. */
  lemma {:induction false} BeforeSeparator(p: string, sep: char, rest: string)
    requires sep !in p
    ensures Before(p + [sep] + rest, sep) == p
  {
    if p != [] {
      assert (p + [sep] + rest)[1..] == p[1..] + [sep] + rest;
      BeforeSeparator(p[1..], sep, rest);
    }
  }

  /** A part before a separator is split off as the first part. */
  lemma SplitCons(p: string, sep: char, rest: string)
    requires sep !in p
    ensures Split(p + [sep] + rest, sep) == [p] + Split(rest, sep)
  {
    var s := p + [sep] + rest;
    BeforeSeparator(p, sep, rest);
    assert s[|p| + 1..] == rest;
  }

  /** Splitting parts joined with a separator none of them holds gives the parts back. */
  lemma {:induction false} SplitJoin(parts: seq<string>, sep: char)
    requires |parts| >= 1 && forall k :: 0 <= k < |parts| ==> sep !in parts[k]
    ensures Split(Join(parts, sep), sep) == parts
  {
    if |parts| > 1 {
      var tail := parts[1..];
      SplitCons(parts[0], sep, Join(tail, sep));
      SplitJoin(tail, sep);
      assert parts == [parts[0]] + tail;
    }
  }

  // ---------------------------------------------------------------- spaces

  /** Go's `unicode.IsSpace`. */
  predicate IsSpace(c: char)
  {
    c == ' ' || c == '\t' || c == '\n' || c == '\r' || c == '\U{000B}' || c == '\U{000C}'
    || c == '\U{0085}' || c == '\U{00A0}' || c == '\U{1680}' || ('\U{2000}' <= c <= '\U{200A}')
    || c == '\U{2028}' || c == '\U{2029}' || c == '\U{202F}' || c == '\U{205F}' || c == '\U{3000}'
  }

  function TrimLeft(s: string): (r: string)
    ensures |r| <= |s| && r == s[|s| - |r|..]
    ensures r != [] ==> !IsSpace(r[0])
    ensures forall k :: 0 <= k < |s| - |r| ==> IsSpace(s[k])
  {
    if s != [] && IsSpace(s[0]) then TrimLeft(s[1..]) else s
  }

  function TrimRight(s: string): (r: string)
    ensures |r| <= |s| && r == s[..|r|]
    ensures r != [] ==> !IsSpace(r[|r| - 1])
    ensures forall k :: |r| <= k < |s| ==> IsSpace(s[k])
  {
    if s != [] && IsSpace(s[|s| - 1]) then TrimRight(s[..|s| - 1]) else s
  }

  /** `strings.TrimSpace`: the result is empty exactly when the input holds nothing but spaces. */
  function TrimSpace(s: string): (r: string)
    ensures r == [] <==> forall k :: 0 <= k < |s| ==> IsSpace(s[k])
    ensures r != [] ==> !IsSpace(r[0]) && !IsSpace(r[|r| - 1])
  {
    var t := TrimLeft(s);
    assert forall k :: |s| - |t| <= k < |s| ==> s[k] == t[k - (|s| - |t|)];
    TrimRight(t)
  }

  // ---------------------------------------------------------------- integers

  predicate IsDigit(c: char)
  {
    '0' <= c <= '9'
  }

  function DigitValue(c: char): (d: nat)
    requires IsDigit(c)
    ensures d < 10
  {
    (c as int) - ('0' as int)
  }

  function DigitChar(d: nat): (c: char)
    requires d < 10
    ensures IsDigit(c) && DigitValue(c) == d
  {
    ('0' as int + d) as char
  }

  predicate AllDigits(s: string)
  {
    forall k :: 0 <= k < |s| ==> IsDigit(s[k])
  }

  /** The value of a string of decimal digits, most significant first. */
  function DigitsValue(s: string): (v: nat)
    requires AllDigits(s)
  {
    if s == [] then 0 else DigitsValue(s[..|s| - 1]) * 10 + DigitValue(s[|s| - 1])
  }

  /** Decimal digits of a natural number without leading zeros ("0" for zero). */
  function NatToString(n: nat): (s: string)
    ensures s != [] && AllDigits(s) && DigitsValue(s) == n
    ensures n > 0 ==> s[0] != '0'
    ensures n < 10 ==> |s| == 1
    ensures n >= 10 ==> |s| >= 2
  {
    if n < 10 then [DigitChar(n)]
    else
      var s := NatToString(n / 10) + [DigitChar(n % 10)];
      assert s[..|s| - 1] == NatToString(n / 10);
      s
  }

  /** `strconv.Itoa` and `%d`: a minus sign for negative numbers, then the digits. */
  function IntToString(n: int): (s: string)
    ensures s != []
  {
    if n < 0 then "-" + NatToString(-n) else NatToString(n)
  }

  const MinInt64: int := -0x8000_0000_0000_0000
  const MaxInt64: int := 0x7FFF_FFFF_FFFF_FFFF

  /**
   * `strconv.Atoi` on a 64-bit platform: an optional `+` or `-`, then one or more decimal digits,
   * nothing else, and a value that fits in 64 bits; anything else is an error.
   */
  function Atoi(s: string): (r: Result<int>)
    ensures r.Ok? ==> MinInt64 <= r.value <= MaxInt64
    ensures s == [] ==> r.Err?
  {
    if s == [] then Err("invalid syntax")
    else
      var negative := s[0] == '-';
      var body := if s[0] == '-' || s[0] == '+' then s[1..] else s;
      if body == [] || !AllDigits(body) then Err("invalid syntax")
      else
        var mag: int := DigitsValue(body);
        var v := if negative then -mag else mag;
        if v < MinInt64 || v > MaxInt64 then Err("value out of range") else Ok(v)
  }

  /** `strconv.Atoi` reads back what `strconv.Itoa` writes, for every 64-bit value. */
  lemma AtoiIntToString(n: int)
    requires MinInt64 <= n <= MaxInt64
    ensures Atoi(IntToString(n)) == Ok(n)
  {
    var s := IntToString(n);
    if n < 0 {
      assert s[1..] == NatToString(-n);
    }
  }

  /** A digit string's value is below ten to the power of its length. */
  function Pow10(k: nat): (p: nat)
    ensures p >= 1
  {
    if k == 0 then 1 else 10 * Pow10(k - 1)
  }

  lemma {:induction false} DigitsValueBound(s: string)
    requires AllDigits(s)
    ensures DigitsValue(s) < Pow10(|s|)
  {
    if s != [] {
      DigitsValueBound(s[..|s| - 1]);
    }
  }

  /** Appending a digit to `y` while `x` sits `p` places higher. */
  lemma ShiftDigit(x: int, p: int, y: int, d: int)
    ensures (x * p + y) * 10 + d == x * (10 * p) + (y * 10 + d)
  {
  }

  /** The value of a digit string read from the front: first digit times a power of ten plus the rest. */
  lemma {:induction false} DigitsValueFront(s: string)
    requires AllDigits(s) && s != []
    ensures DigitsValue(s) == DigitValue(s[0]) * Pow10(|s| - 1) + DigitsValue(s[1..])
  {
    if |s| > 1 {
      DigitsValueFront(s[..|s| - 1]);
      assert s[..|s| - 1][1..] == s[1..][..|s| - 2];
      assert s[1..][|s| - 2] == s[|s| - 1];
      ShiftDigit(DigitValue(s[0]), Pow10(|s| - 2), DigitsValue(s[1..][..|s| - 2]), DigitValue(s[|s| - 1]));
      assert DigitsValue(s[1..]) == DigitsValue(s[1..][..|s| - 2]) * 10 + DigitValue(s[|s| - 1]);
    }
  }

  /** For digit strings of one length, the string order is the numeric order. */
  lemma {:induction false} DigitsLexOrder(a: string, b: string)
    requires AllDigits(a) && AllDigits(b) && |a| == |b|
    ensures LexLess(a, b) <==> DigitsValue(a) < DigitsValue(b)
  {
    if a != [] {
      DigitsValueFront(a);
      DigitsValueFront(b);
      DigitsValueBound(a[1..]);
      DigitsValueBound(b[1..]);
      var p := Pow10(|a| - 1);
      var da, db := DigitValue(a[0]), DigitValue(b[0]);
      if a[0] == b[0] {
        DigitsLexOrder(a[1..], b[1..]);
      } else if a[0] < b[0] {
        LeadingDigitDecides(da, db, p, DigitsValue(a[1..]), DigitsValue(b[1..]));
      } else {
        LeadingDigitDecides(db, da, p, DigitsValue(b[1..]), DigitsValue(a[1..]));
      }
    }
  }

  lemma LeadingDigitDecides(x: nat, y: nat, p: nat, u: nat, v: nat)
    requires x < y && u < p && v < p
    ensures x * p + u < y * p + v
  {
    assert (x + 1) * p <= y * p;
  }

  // ---------------------------------------------------------------- padding

  /** `%02d`: at least two characters, zero-padded after any sign. */
  function ZeroPad2(n: int): (s: string)
    ensures 0 <= n < 100 ==> |s| == 2 && AllDigits(s) && DigitsValue(s) == n
    ensures |s| >= 2
  {
    if 0 <= n < 10 then
      var s := ['0', DigitChar(n)];
      assert s[..1] == ['0'] && ['0'][..0] == [];
      s
    else
      assert 10 <= n < 100 ==> NatToString(n) == NatToString(n / 10) + [DigitChar(n % 10)];
      IntToString(n)
  }

  /** `%2d`: at least two characters, space-padded on the left. */
  function SpacePad2(n: int): (s: string)
    ensures |s| >= 2
    ensures 0 <= n < 10 ==> s == [' ', DigitChar(n)]
  {
    if 0 <= n < 10 then [' ', DigitChar(n)] else IntToString(n)
  }

  /** Two-digit fields are told apart by their text. */
  lemma ZeroPad2Injective(a: int, b: int)
    requires 0 <= a < 100 && 0 <= b < 100 && ZeroPad2(a) == ZeroPad2(b)
    ensures a == b
  {
  }

  /** The value of two digit strings written one after the other. */
  lemma {:induction false} DigitsValueAppend(a: string, b: string)
    requires AllDigits(a) && AllDigits(b)
    ensures AllDigits(a + b) && DigitsValue(a + b) == DigitsValue(a) * Pow10(|b|) + DigitsValue(b)
  {
    if b != [] {
      var n := |b| - 1;
      DigitsValueAppend(a, b[..n]);
      assert (a + b)[..|a + b| - 1] == a + b[..n];
      ShiftDigit(DigitsValue(a), Pow10(n), DigitsValue(b[..n]), DigitValue(b[n]));
      assert DigitsValue(a + b) == DigitsValue(a + b[..n]) * 10 + DigitValue(b[n]);
      assert DigitsValue(b) == DigitsValue(b[..n]) * 10 + DigitValue(b[n]);
    } else {
      assert a + b == a;
    }
  }
}
