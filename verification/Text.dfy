/**
 String operations of the Go standard library that the worker relies on:
 the `<` of strings, `strings.TrimSpace`, `strconv.Itoa` and `strconv.Atoi`.
 A string is a sequence of Unicode scalar values; comparing those one by one
 gives the same answer as comparing the UTF-8 bytes.
 */
module Text {
  import opened Wrappers

  // ---------- string order ----------

  predicate Less(a: string, b: string) {
    if b == [] then false
    else if a == [] then true
    else if a[0] != b[0] then a[0] < b[0]
    else Less(a[1..], b[1..])
  }

  // At the first character in which they differ, the first string has the smaller one or has ended.
  ghost predicate FirstDifferenceIsLess(a: string, b: string) {
    exists n :: 0 <= n <= |a| && SmallerAt(a, b, n)
  }

  ghost predicate SmallerAt(a: string, b: string, n: nat)
    requires n <= |a|
  {
    n < |b| && a[..n] == b[..n] && (n == |a| || a[n] < b[n])
  }

  lemma SmallerAtTail(a: string, b: string, n: nat)
    requires a != [] && b != [] && a[0] == b[0] && 0 < n <= |a|
    ensures SmallerAt(a, b, n) <==> SmallerAt(a[1..], b[1..], n - 1)
  {
    if n < |b| {
      assert a[..n] == [a[0]] + a[1..][..n - 1];
      assert b[..n] == [b[0]] + b[1..][..n - 1];
      assert a[..n][1..] == a[1..][..n - 1];
      assert b[..n][1..] == b[1..][..n - 1];
    }
  }

  lemma DifferAtOnce(a: string, b: string)
    requires a == [] || b == [] || a[0] != b[0]
    ensures FirstDifferenceIsLess(a, b) <==> b != [] && (a == [] || a[0] < b[0])
  {
    if b != [] && (a == [] || a[0] < b[0]) {
      assert SmallerAt(a, b, 0);
    }
    forall n | 0 < n <= |a| && n < |b| ensures a[..n] != b[..n] {
      assert a[..n][0] != b[..n][0];
    }
  }

  lemma {:induction false} LessIsFirstDifference(a: string, b: string)
    ensures Less(a, b) <==> FirstDifferenceIsLess(a, b)
  {
    if a == [] || b == [] || a[0] != b[0] {
      DifferAtOnce(a, b);
    } else {
      assert !SmallerAt(a, b, 0);
      hide SmallerAt;
      LessIsFirstDifference(a[1..], b[1..]);
      forall n | 0 < n <= |a| ensures SmallerAt(a, b, n) <==> SmallerAt(a[1..], b[1..], n - 1) {
        SmallerAtTail(a, b, n);
      }
      if n :| 0 <= n <= |a[1..]| && SmallerAt(a[1..], b[1..], n) {
        assert SmallerAt(a, b, n + 1);
      }
    }
  }

  lemma {:induction false} LessIsAsymmetric(a: string, b: string)
    requires Less(a, b)
    ensures !Less(b, a)
  {
    if a != [] && a[0] == b[0] {
      LessIsAsymmetric(a[1..], b[1..]);
    }
  }

  lemma {:induction false} LessIsTotal(a: string, b: string)
    ensures Less(a, b) || a == b || Less(b, a)
  {
    if a != [] && b != [] && a[0] == b[0] {
      LessIsTotal(a[1..], b[1..]);
      assert a == [a[0]] + a[1..] && b == [b[0]] + b[1..];
    }
  }

  lemma {:induction false} LessIsTransitive(a: string, b: string, c: string)
    requires Less(a, b) && Less(b, c)
    ensures Less(a, c)
  {
    if a != [] && a[0] == b[0] == c[0] {
      LessIsTransitive(a[1..], b[1..], c[1..]);
    }
  }

  // ---------- white space ----------

  // The characters for which Go's unicode.IsSpace holds.
  predicate IsSpace(c: char) {
    || '\t' <= c <= '\r' || c == ' ' || c == '\U{85}' || c == '\U{A0}' || c == '\U{1680}'
    || '\U{2000}' <= c <= '\U{200A}' || c == '\U{2028}' || c == '\U{2029}'
    || c == '\U{202F}' || c == '\U{205F}' || c == '\U{3000}'
  }

  function TrimLeft(s: string): string {
    if s != [] && IsSpace(s[0]) then TrimLeft(s[1..]) else s
  }

  function TrimRight(s: string): string {
    if s != [] && IsSpace(s[|s| - 1]) then TrimRight(s[..|s| - 1]) else s
  }

  function TrimSpace(s: string): string {
    TrimRight(TrimLeft(s))
  }

  predicate AllSpace(s: string) {
    forall c :: c in s ==> IsSpace(c)
  }

  // Trimming cuts white space off both ends and stops at the first other character.
  ghost predicate IsTrimmed(s: string, t: string) {
    && (exists i, j :: 0 <= i <= j <= |s| && s[i..j] == t && AllSpace(s[..i]) && AllSpace(s[j..]))
    && (t != "" ==> !IsSpace(t[0]) && !IsSpace(t[|t| - 1]))
  }

  lemma {:induction false} TrimLeftCuts(s: string) returns (i: nat)
    ensures i <= |s| && TrimLeft(s) == s[i..] && AllSpace(s[..i])
    ensures TrimLeft(s) != "" ==> !IsSpace(TrimLeft(s)[0])
  {
    if s != [] && IsSpace(s[0]) {
      var i' := TrimLeftCuts(s[1..]);
      i := i' + 1;
      assert s[..i] == [s[0]] + s[1..][..i'];
    } else {
      i := 0;
    }
  }

  lemma {:induction false} TrimRightCuts(s: string) returns (j: nat)
    ensures j <= |s| && TrimRight(s) == s[..j] && AllSpace(s[j..])
    ensures TrimRight(s) != "" ==> !IsSpace(TrimRight(s)[|TrimRight(s)| - 1])
  {
    if s != [] && IsSpace(s[|s| - 1]) {
      var init := s[..|s| - 1];
      j := TrimRightCuts(init);
      assert s[j..] == init[j..] + [s[|s| - 1]];
    } else {
      j := |s|;
    }
  }

  lemma TrimSpaceTrims(s: string)
    ensures IsTrimmed(s, TrimSpace(s))
  {
    var i := TrimLeftCuts(s);
    var j := TrimRightCuts(s[i..]);
    assert s[i..i + j] == s[i..][..j];
    assert s[i + j..] == s[i..][j..];
  }

  // Tab, line feed, vertical tab, form feed, carriage return, blank, and the others that
  // Unicode calls white space.
  const WHITE_SPACE: set<char> := {
    '\U{09}', '\U{0A}', '\U{0B}', '\U{0C}', '\U{0D}', '\U{20}', '\U{85}', '\U{A0}', '\U{1680}',
    '\U{2000}', '\U{2001}', '\U{2002}', '\U{2003}', '\U{2004}', '\U{2005}', '\U{2006}',
    '\U{2007}', '\U{2008}', '\U{2009}', '\U{200A}', '\U{2028}', '\U{2029}', '\U{202F}',
    '\U{205F}', '\U{3000}' }

  ghost predicate Blank(s: string) {
    forall c :: c in s ==> c in WHITE_SPACE
  }

  lemma SpacesAreWhite(c: char)
    ensures IsSpace(c) <==> c in WHITE_SPACE
    ensures '!' <= c <= '~' ==> !IsSpace(c)
  {
  }

  // Trimming leaves nothing exactly of a blank string; printable ASCII makes a string not blank.
  lemma TrimsToNothingExactlyWhenBlank(s: string)
    ensures TrimSpace(s) == "" <==> Blank(s)
    ensures (exists i :: 0 <= i < |s| && '!' <= s[i] <= '~') ==> TrimSpace(s) != ""
  {
    hide IsSpace, TrimSpace;
    forall c ensures IsSpace(c) <==> c in WHITE_SPACE {
      SpacesAreWhite(c);
    }
    forall c | !IsSpace(c) ensures c in TrimSpace(s) <==> c in s {
      TrimSpaceKeeps(s, c);
    }
    forall i | 0 <= i < |s| && '!' <= s[i] <= '~' ensures TrimSpace(s) != "" {
      SpacesAreWhite(s[i]);
    }
    TrimSpaceTrims(s);
    if TrimSpace(s) != "" {
      var c := TrimSpace(s)[0];
      assert !IsSpace(c) && c in TrimSpace(s);
    }
  }

  // Text that starts and ends with printable ASCII other than the blank is left alone.
  lemma PrintableStays(s: string)
    requires s != "" && '!' <= s[0] <= '~' && '!' <= s[|s| - 1] <= '~'
    ensures TrimSpace(s) == s
  {
    SpacesAreWhite(s[0]);
    SpacesAreWhite(s[|s| - 1]);
  }

  // Nothing but white space gets lost.
  lemma TrimSpaceKeeps(s: string, c: char)
    requires !IsSpace(c)
    ensures c in TrimSpace(s) <==> c in s
  {
    hide IsSpace;
    var i := TrimLeftCuts(s);
    var j := TrimRightCuts(s[i..]);
    InHalves(s, i, c);
    InHalves(s[i..], j, c);
  }

  lemma InHalves(s: string, i: nat, c: char)
    requires i <= |s|
    ensures c in s <==> c in s[..i] || c in s[i..]
  {
  }

  // ---------- decimal numbers ----------

  const MIN_INT64: int := -0x8000_0000_0000_0000
  const MAX_INT64: int := 0x7FFF_FFFF_FFFF_FFFF

  // The value a Go int holds after an addition whose exact result is n.
  function Wrap64(n: int): int {
    (n - MIN_INT64) % 0x1_0000_0000_0000_0000 + MIN_INT64
  }

  // In range, off by a multiple of 2^64, and exact where that is possible.
  lemma Wrap64InRange(n: int)
    ensures -0x8000_0000_0000_0000 <= Wrap64(n) < 0x8000_0000_0000_0000
    ensures (n - Wrap64(n)) % 0x1_0000_0000_0000_0000 == 0
    ensures MIN_INT64 <= n <= MAX_INT64 ==> Wrap64(n) == n
  {
  }

  predicate AllDigits(s: string) {
    forall i :: 0 <= i < |s| ==> '0' <= s[i] <= '9'
  }

  function Digits(n: nat): (s: string)
    ensures s != [] && AllDigits(s)
  {
    var last := [('0' as int + n % 10) as char];
    if n < 10 then last else Digits(n / 10) + last
  }

  function Value(s: string): nat
    requires AllDigits(s)
  {
    if s == [] then 0 else 10 * Value(s[..|s| - 1]) + (s[|s| - 1] as int - '0' as int)
  }

  function Itoa(n: int): string {
    if n < 0 then "-" + Digits(-n) else Digits(n)
  }

  // An optional sign and at least one digit, within the range of a 64-bit int.
  function Atoi(s: string): Option<int> {
    var signed := s != "" && (s[0] == '-' || s[0] == '+');
    var body := if signed then s[1..] else s;
    if body == "" || !AllDigits(body) then None
    else
      var v: int := if s[0] == '-' then 0 - Value(body) else Value(body);
      if MIN_INT64 <= v <= MAX_INT64 then Some(v) else None
  }

  function Pow10(n: nat): nat {
    if n == 0 then 1 else 10 * Pow10(n - 1)
  }

  // Each digit times the power of ten of its place.
  function Positional(s: string): int
    requires AllDigits(s)
  {
    if s == [] then 0 else (s[0] as int - '0' as int) * Pow10(|s| - 1) + Positional(s[1..])
  }

  lemma {:induction false} PositionalSnoc(s: string, c: char)
    requires AllDigits(s) && '0' <= c <= '9'
    ensures Positional(s + [c]) == 10 * Positional(s) + (c as int - '0' as int)
  {
    if s == [] {
      assert [] + [c] == [c] && [c][1..] == [];
      assert Positional([c]) == (c as int - '0' as int) * Pow10(0) + Positional([c][1..]);
    } else {
      assert (s + [c])[1..] == s[1..] + [c];
      PositionalSnoc(s[1..], c);
      TimesTen(s[0] as int - '0' as int, Pow10(|s| - 1));
    }
  }

  lemma TimesTen(d: int, p: int)
    ensures d * (10 * p) == 10 * (d * p)
  {
  }

  // A numeral is read in base ten.
  lemma {:induction false} ValueIsPositional(s: string)
    requires AllDigits(s)
    ensures Value(s) == Positional(s)
  {
    if s != [] {
      var last := |s| - 1;
      ValueIsPositional(s[..last]);
      PositionalSnoc(s[..last], s[last]);
      assert s == s[..last] + [s[last]];
    }
  }

  // Exactly the numerals with an optional sign, within the range of a 64-bit int, can be read.
  lemma AtoiReadsNumerals(sign: string, digits: string)
    requires sign in ["", "+", "-"] && (digits == "" || (digits[0] != '+' && digits[0] != '-'))
    ensures digits == "" || !AllDigits(digits) ==> Atoi(sign + digits).None?
    ensures digits != "" && AllDigits(digits) ==>
              var n: int := if sign == "-" then 0 - Positional(digits) else Positional(digits);
              Atoi(sign + digits) == if -0x8000_0000_0000_0000 <= n < 0x8000_0000_0000_0000 then Some(n) else None
  {
    hide Value, Positional;
    var s := sign + digits;
    if sign == "" {
      assert s == digits;
    } else {
      assert s[1..] == digits;
    }
    if AllDigits(digits) {
      ValueIsPositional(digits);
    }
  }

  lemma {:induction false} DigitsDenote(n: nat)
    ensures Value(Digits(n)) == n
  {
    if n >= 10 {
      DigitsDenote(n / 10);
      assert Digits(n)[..|Digits(n)| - 1] == Digits(n / 10);
    }
  }

  lemma AtoiReadsItoa(n: int)
    requires MIN_INT64 <= n <= MAX_INT64
    ensures Atoi(Itoa(n)) == Some(n)
  {
    if n < 0 {
      DigitsDenote(-n);
      assert Itoa(n)[1..] == Digits(-n);
    } else {
      DigitsDenote(n);
      assert '0' <= Digits(n)[0] <= '9';
    }
  }

  lemma ItoaIsNotEmpty(n: int)
    ensures Itoa(n) != ""
  {
  }

  lemma ItoaIsInjective(m: int, n: int)
    requires Itoa(m) == Itoa(n)
    ensures m == n
  {
    var a, b := if m < 0 then -m else m, if n < 0 then -n else n;
    DigitsDenote(a);
    DigitsDenote(b);
    assert '0' <= Digits(a)[0] <= '9' && '0' <= Digits(b)[0] <= '9';
    assert (m < 0) == (n < 0);
    if m < 0 {
      assert Itoa(m)[1..] == Digits(a) && Itoa(n)[1..] == Digits(b);
    }
  }
}
