/** Decimal numbers and separator splitting, with the laws that make a printer invertible. */
module Text {
  import opened Base

  const MAX_INT64: int := 9_223_372_036_854_775_807
  const MIN_INT64: int := -9_223_372_036_854_775_808

  // ---- decimal ----

  function DigitChar(d: nat): char
    requires d < 10
  {
    "0123456789"[d]
  }

  function Digits(n: nat): (s: string)
    ensures s != []
  {
    if n < 10 then [DigitChar(n)] else Digits(n / 10) + [DigitChar(n % 10)]
  }

  /** strconv.FormatInt and %d. */
  function FormatInt(n: int): string {
    if n < 0 then "-" + Digits(-n) else Digits(n)
  }

  predicate IsDigit(c: char) {
    '0' <= c <= '9'
  }

  function DigitOf(c: char): nat
    requires IsDigit(c)
  {
    c as int - '0' as int
  }

  function Value(s: string): nat
    requires forall c :: c in s ==> IsDigit(c)
  {
    if s == [] then 0
    else
      assert s[|s| - 1] in s;
      Value(s[..|s| - 1]) * 10 + DigitOf(s[|s| - 1])
  }

  predicate AllDigits(s: string) {
    s != [] && forall c :: c in s ==> IsDigit(c)
  }

  /** strconv.ParseInt(s, 10, 64): an optional sign, digits, and the int64 range. */
  function ParseInt(s: string): Option<int> {
    var signed := s != [] && (s[0] == '+' || s[0] == '-');
    var digits := if signed then s[1..] else s;
    if !AllDigits(digits) then None
    else
      var v: int := Value(digits);
      var n := if signed && s[0] == '-' then -v else v;
      if MIN_INT64 <= n <= MAX_INT64 then Some(n) else None
  }

  lemma {:induction false} DigitsParse(n: nat)
    ensures AllDigits(Digits(n)) && Value(Digits(n)) == n
  {
    var s := Digits(n);
    if n >= 10 {
      DigitsParse(n / 10);
      assert s[..|s| - 1] == Digits(n / 10);
    } else {
      assert s[..0] == [];
    }
  }

  /** Parsing undoes printing on every number that fits. */
  lemma ParsePrinted(n: nat)
    requires n <= MAX_INT64
    ensures ParseInt(FormatInt(n)) == Some(n)
  {
    DigitsParse(n);
    assert Digits(n)[0] in Digits(n);
  }

  function Pow10(k: nat): nat {
    if k == 0 then 1 else 10 * Pow10(k - 1)
  }

  lemma {:induction false} DigitsLength(n: nat, k: nat)
    requires k > 0 && n < Pow10(k)
    ensures |Digits(n)| <= k
  {
    if n >= 10 {
      assert k > 1;
      DigitsLength(n / 10, k - 1);
    }
  }

  // ---- splitting ----

  /** strings.Split on one character. */
  function Split(s: string, sep: char): (parts: seq<string>)
    ensures parts != []
  {
    if s == [] then [[]]
    else
      var rest := Split(s[1..], sep);
      if s[0] == sep then [[]] + rest else [[s[0]] + rest[0]] + rest[1..]
  }

  function Join(parts: seq<string>, sep: char): string {
    if parts == [] then [] else if |parts| == 1 then parts[0] else parts[0] + [sep] + Join(parts[1..], sep)
  }

  lemma {:induction false} JoinSplit(s: string, sep: char)
    ensures Join(Split(s, sep), sep) == s
  {
    if s != [] {
      var rest, parts := Split(s[1..], sep), Split(s, sep);
      JoinSplit(s[1..], sep);
      if s[0] == sep {
        assert parts[1..] == rest;
        assert s == [] + [sep] + s[1..];
      } else {
        assert parts[1..] == rest[1..];
        assert s == [s[0]] + s[1..];
        if |rest| > 1 {
          assert ([s[0]] + rest[0]) + [sep] + Join(rest[1..], sep) == [s[0]] + (rest[0] + [sep] + Join(rest[1..], sep));
        }
      }
    }
  }

  lemma {:induction false} SplitPlain(s: string, sep: char)
    requires sep !in s
    ensures Split(s, sep) == [s]
  {
    if s != [] {
      assert s[0] in s && forall c :: c in s[1..] ==> c in s;
      SplitPlain(s[1..], sep);
      assert [s[0]] + s[1..] == s;
    }
  }

  lemma {:induction false} SplitHead(a: string, rest: string, sep: char)
    requires sep !in a
    ensures Split(a + [sep] + rest, sep) == [a] + Split(rest, sep)
  {
    var s := a + [sep] + rest;
    if a == [] {
      assert s[1..] == rest;
    } else {
      assert a[0] in a && s[0] == a[0] && forall c :: c in a[1..] ==> c in a;
      assert s[1..] == a[1..] + [sep] + rest;
      SplitHead(a[1..], rest, sep);
      assert [a[0]] + a[1..] == a;
      assert ([a[1..]] + Split(rest, sep))[1..] == Split(rest, sep);
    }
  }

  /** Splitting undoes joining when no part contains the separator. */
  lemma {:induction false} SplitJoin(parts: seq<string>, sep: char)
    requires parts != [] && forall p :: p in parts ==> sep !in p
    ensures Split(Join(parts, sep), sep) == parts
  {
    assert parts[0] in parts;
    if |parts| == 1 {
      SplitPlain(parts[0], sep);
    } else {
      assert forall p :: p in parts[1..] ==> p in parts;
      SplitJoin(parts[1..], sep);
      SplitHead(parts[0], Join(parts[1..], sep), sep);
      assert parts == [parts[0]] + parts[1..];
    }
  }
}
