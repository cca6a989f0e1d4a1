/** String helpers the service relies on: Python's decimal rendering of integers in
    f-strings, `str.strip()`, ASCII `str.lower()` and `str.split(sep)` with its
    inverse `sep.join(parts)`. */
module Text {
  import opened Outcomes

  // ---------------------------------------------------------------------------
  // Decimal rendering, as `f"{n}"` prints an int

  predicate IsDigit(c: char) {
    '0' <= c <= '9'
  }

  predicate AllDigits(s: string) {
    forall i :: 0 <= i < |s| ==> IsDigit(s[i])
  }

  function DigitChar(d: nat): (c: char)
    requires d < 10
    ensures IsDigit(c)
  {
    ('0' as int + d) as char
  }

  function DigitValue(c: char): (d: nat)
    requires IsDigit(c)
    ensures d < 10
  {
    c as int - '0' as int
  }

  /** The digits of `n`, most significant first, with no leading zero. */
  function NatDigits(n: nat): (s: string)
    ensures 1 <= |s|
    ensures AllDigits(s)
    ensures s[0] == '0' <==> n == 0
  {
    if n < 10 then [DigitChar(n)] else NatDigits(n / 10) + [DigitChar(n % 10)]
  }

  /** `str(n)`: a minus sign for negatives, then the digits of the magnitude. */
  function Decimal(n: int): (s: string)
    ensures 1 <= |s|
    ensures forall i :: 0 <= i < |s| ==> s[i] == '-' || IsDigit(s[i])
    ensures forall i :: 1 <= i < |s| ==> IsDigit(s[i])
    ensures s[0] == '-' <==> n < 0
  {
    if n < 0 then "-" + NatDigits(-n) else NatDigits(n)
  }

  function ParseNat(s: string): nat
    requires 1 <= |s| && AllDigits(s)
  {
    if |s| == 1 then DigitValue(s[0])
    else 10 * ParseNat(s[..|s| - 1]) + DigitValue(s[|s| - 1])
  }

  /** Reads back what `Decimal` writes; `None` for anything that is not an integer. */
  function ParseDecimal(s: string): Option<int> {
    if 2 <= |s| && s[0] == '-' && AllDigits(s[1..]) then Some(0 - ParseNat(s[1..]) as int)
    else if 1 <= |s| && AllDigits(s) then Some(ParseNat(s))
    else None
  }

  lemma {:induction false} NatDigitsRoundTrip(n: nat)
    ensures ParseNat(NatDigits(n)) == n
    decreases n
  {
    if n >= 10 {
      var s := NatDigits(n);
      NatDigitsRoundTrip(n / 10);
      assert s[..|s| - 1] == NatDigits(n / 10);
      assert DigitValue(s[|s| - 1]) == n % 10;
    }
  }

  lemma DecimalRoundTrip(n: int)
    ensures ParseDecimal(Decimal(n)) == Some(n)
  {
    if n < 0 {
      NatDigitsRoundTrip(-n);
      assert Decimal(n)[1..] == NatDigits(-n);
    } else {
      NatDigitsRoundTrip(n);
    }
  }

  /** Distinct integers print differently: file names built from ids cannot collide. */
  lemma DecimalInjective(a: int, b: int)
    ensures Decimal(a) == Decimal(b) <==> a == b
  {
    if Decimal(a) == Decimal(b) {
      DecimalRoundTrip(a);
      DecimalRoundTrip(b);
    }
  }

  lemma DecimalHasNo(n: int, c: char)
    requires c != '-' && !IsDigit(c)
    ensures c !in Decimal(n)
  {
  }

  /** Two strings glued around the first occurrence of a separator split back uniquely. */
  lemma {:induction false} SplitAtFirst(a: string, b: string, a': string, b': string, c: char)
    requires c !in a && c !in a'
    requires a + [c] + b == a' + [c] + b'
    ensures a == a' && b == b'
  {
    var s := a + [c] + b;
    assert s[|a|] == c && forall k :: 0 <= k < |a| ==> s[k] == a[k];
    assert s[|a'|] == c && forall k :: 0 <= k < |a'| ==> s[k] == a'[k];
    assert a == s[..|a|] == a';
    assert b == s[|a| + 1..] == b';
  }

  /** End of the number written at the start of `s`, scanning from `i`: digits, and a
      minus sign only in the first position. */
  function NumberEnd(s: string, i: nat): (e: nat)
    requires i <= |s|
    ensures i <= e <= |s|
    decreases |s| - i
  {
    if i < |s| && (IsDigit(s[i]) || (i == 0 && s[i] == '-')) then NumberEnd(s, i + 1) else i
  }

  /** A text that cannot continue a number written before it. */
  predicate Delimits(t: string) {
    |t| == 0 || (t[0] != '-' && !IsDigit(t[0]))
  }

  lemma {:induction false} NumberEndOfDecimal(n: int, t: string, i: nat)
    requires Delimits(t) && i <= |Decimal(n)|
    ensures NumberEnd(Decimal(n) + t, i) == |Decimal(n)|
    decreases |Decimal(n)| - i
  {
    var d := Decimal(n);
    var s := d + t;
    if i < |d| {
      assert s[i] == d[i];
      NumberEndOfDecimal(n, t, i + 1);
    } else if |t| > 0 {
      assert s[i] == t[0];
    }
  }

  /** A number followed by a delimiting text reads back uniquely: both the number and
      the text are determined by the concatenation. */
  lemma DecimalThenDelimiter(n: int, t: string, n': int, t': string)
    requires Delimits(t) && Delimits(t')
    requires Decimal(n) + t == Decimal(n') + t'
    ensures n == n' && t == t'
  {
    var s := Decimal(n) + t;
    NumberEndOfDecimal(n, t, 0);
    NumberEndOfDecimal(n', t', 0);
    assert Decimal(n) == s[..|Decimal(n)|] && Decimal(n') == s[..|Decimal(n')|];
    DecimalInjective(n, n');
    assert t == s[|Decimal(n)|..] && t' == s[|Decimal(n')|..];
  }

  /** Names built as a fixed prefix, a number and a delimiting tail determine the number
      and the tail. */
  lemma NumberedNameInjective(p: string, n: int, t: string, n': int, t': string)
    requires Delimits(t) && Delimits(t')
    requires p + Decimal(n) + t == p + Decimal(n') + t'
    ensures n == n' && t == t'
  {
    var s := p + Decimal(n) + t;
    assert s[|p|..] == Decimal(n) + t;
    assert (p + Decimal(n') + t')[|p|..] == Decimal(n') + t';
    DecimalThenDelimiter(n, t, n', t');
  }

  /** Two strings that end in different suffixes of the same length differ. */
  lemma SuffixesDiffer(a: string, sa: string, b: string, sb: string)
    requires |sa| == |sb| && sa != sb
    ensures a + sa != b + sb
  {
    assert (a + sa)[|a + sa| - |sa|..] == sa;
    assert (b + sb)[|b + sb| - |sb|..] == sb;
  }

  // ---------------------------------------------------------------------------
  // str.strip() with no argument: Python's whitespace characters

  predicate IsSpace(c: char) {
    var n := c as int;
    (9 <= n <= 13) || (28 <= n <= 32) || n == 0x85 || n == 0xA0 || n == 0x1680
    || (0x2000 <= n <= 0x200A) || n == 0x2028 || n == 0x2029 || n == 0x202F
    || n == 0x205F || n == 0x3000
  }

  predicate AllSpace(s: string) {
    forall k :: 0 <= k < |s| ==> IsSpace(s[k])
  }

  /** Number of whitespace characters before the first non-whitespace one. */
  function LeadingSpaces(s: string): (n: nat)
    ensures n <= |s|
    ensures AllSpace(s[..n])
    ensures n < |s| ==> !IsSpace(s[n])
  {
    if |s| > 0 && IsSpace(s[0]) then
      var n := 1 + LeadingSpaces(s[1..]);
      assert s[..n] == [s[0]] + s[1..][..n - 1];
      n
    else 0
  }

  /** Number of whitespace characters after the last non-whitespace one. */
  function TrailingSpaces(s: string): (n: nat)
    ensures n <= |s|
    ensures AllSpace(s[|s| - n..])
    ensures n < |s| ==> !IsSpace(s[|s| - 1 - n])
  {
    if |s| > 0 && IsSpace(s[|s| - 1]) then
      var init := s[..|s| - 1];
      var n := 1 + TrailingSpaces(init);
      assert s[|s| - n..] == init[|init| - (n - 1)..] + [s[|s| - 1]];
      n
    else 0
  }

  /** `r` is `s` with only whitespace removed from its two ends, starting at `i`. */
  predicate TrimmedAt(s: string, r: string, i: int) {
    && 0 <= i && i + |r| <= |s|
    && r == s[i..i + |r|]
    && AllSpace(s[..i])
    && AllSpace(s[i + |r|..])
  }

  predicate NoOuterSpace(r: string) {
    r == [] || (!IsSpace(r[0]) && !IsSpace(r[|r| - 1]))
  }

  function Strip(s: string): (r: string)
    ensures TrimmedAt(s, r, LeadingSpaces(s))
    ensures NoOuterSpace(r)
  {
    var lead := LeadingSpaces(s);
    var rest := s[lead..];
    var trail := TrailingSpaces(rest);
    var r := rest[..|rest| - trail];
    assert r == s[lead..lead + |r|];
    assert s[lead + |r|..] == rest[|rest| - trail..];
    assert |r| > 0 ==> r[0] == s[lead] && r[|r| - 1] == rest[|rest| - 1 - trail];
    r
  }

  /** `Strip` removes the most it may: any trimming of `s` that leaves no
      whitespace at either end is `Strip(s)`. */
  lemma StripIsTheMaximalTrim(s: string, r: string, i: int)
    requires TrimmedAt(s, r, i) && NoOuterSpace(r)
    ensures r == Strip(s)
  {
    var lead := LeadingSpaces(s);
    var q := Strip(s);
    if r == [] {
      assert AllSpace(s) by {
        forall k | 0 <= k < |s| ensures IsSpace(s[k]) {
          if k < i { assert s[..i][k] == s[k]; } else { assert s[i..][k - i] == s[k]; }
        }
      }
    } else {
      assert s[i] == r[0];
      assert lead == i;
      var e := i + |r| - 1;
      assert s[e] == r[|r| - 1];
    }
  }

  // ---------------------------------------------------------------------------
  // str.lower(), on the ASCII letters

  predicate IsUpper(c: char) {
    'A' <= c <= 'Z'
  }

  function LowerChar(c: char): (l: char)
    ensures !IsUpper(l)
    ensures IsUpper(c) ==> l as int == c as int + 32
    ensures !IsUpper(c) ==> l == c
  {
    if IsUpper(c) then (c as int + 32) as char else c
  }

  function Lower(s: string): (r: string)
    ensures |r| == |s|
    ensures forall i :: 0 <= i < |s| ==> r[i] == LowerChar(s[i])
  {
    seq(|s|, i requires 0 <= i < |s| => LowerChar(s[i]))
  }

  /** A lowered string has no upper-case letter left, so lowering it again changes nothing. */
  lemma LowerIdempotent(s: string)
    ensures Lower(Lower(s)) == Lower(s)
  {
  }

  // ---------------------------------------------------------------------------
  // str.split(sep) and sep.join(parts) for a one-character separator

  function Split(s: string, sep: char): (parts: seq<string>)
    ensures |parts| >= 1
    ensures forall k :: 0 <= k < |parts| ==> sep !in parts[k]
    decreases |s|
  {
    if |s| == 0 then [""]
    else
      var rest := Split(s[1..], sep);
      if s[0] == sep then [""] + rest
      else [[s[0]] + rest[0]] + rest[1..]
  }

  function Join(parts: seq<string>, sep: char): string {
    if |parts| == 0 then ""
    else if |parts| == 1 then parts[0]
    else parts[0] + [sep] + Join(parts[1..], sep)
  }

  /** Joining the pieces of a split with the same separator gives the string back. */
  lemma {:induction false} JoinSplit(s: string, sep: char)
    ensures Join(Split(s, sep), sep) == s
    decreases |s|
  {
    if |s| > 0 {
      var rest := Split(s[1..], sep);
      JoinSplit(s[1..], sep);
      assert s == [s[0]] + s[1..];
      if s[0] == sep {
        assert ([""] + rest)[1..] == rest;
      } else {
        var head := [s[0]] + rest[0];
        if |rest| > 1 {
          assert ([head] + rest[1..])[1..] == rest[1..];
          assert head + [sep] + Join(rest[1..], sep)
              == [s[0]] + (rest[0] + [sep] + Join(rest[1..], sep));
        }
      }
    }
  }

  lemma {:induction false} SplitWithoutSeparator(a: string, sep: char)
    requires sep !in a
    ensures Split(a, sep) == [a]
    decreases |a|
  {
    if |a| > 0 {
      SplitWithoutSeparator(a[1..], sep);
      assert [a[0]] + a[1..] == a;
    }
  }

  lemma {:induction false} SplitAtSeparator(a: string, b: string, sep: char)
    requires sep !in a
    ensures Split(a + [sep] + b, sep) == [a] + Split(b, sep)
    decreases |a|
  {
    var s := a + [sep] + b;
    if |a| == 0 {
      assert s[1..] == b;
    } else {
      assert s[1..] == a[1..] + [sep] + b;
      SplitAtSeparator(a[1..], b, sep);
      assert [s[0]] + a[1..] == a;
    }
  }

  /** Splitting a join of separator-free pieces gives the pieces back. */
  lemma {:induction false} SplitJoin(parts: seq<string>, sep: char)
    requires |parts| >= 1
    requires forall k :: 0 <= k < |parts| ==> sep !in parts[k]
    ensures Split(Join(parts, sep), sep) == parts
    decreases |parts|
  {
    if |parts| == 1 {
      SplitWithoutSeparator(parts[0], sep);
    } else {
      SplitJoin(parts[1..], sep);
      SplitAtSeparator(parts[0], Join(parts[1..], sep), sep);
      assert [parts[0]] + parts[1..] == parts;
    }
  }
}
