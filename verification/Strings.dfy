/** Text helpers shared by the models: trimming as JavaScript does it, and decimal numerals. */
module Strings {

  /** The characters JavaScript's String.prototype.trim removes. */
  predicate IsSpace(c: char) {
    var code := c as int;
    || 9 <= code <= 13 || code == 32 || code == 0xA0 || code == 0x1680
    || 0x2000 <= code <= 0x200A || code == 0x2028 || code == 0x2029
    || code == 0x202F || code == 0x205F || code == 0x3000 || code == 0xFEFF
  }

  function TrimStart(s: string): string {
    if s != "" && IsSpace(s[0]) then TrimStart(s[1..]) else s
  }

  function TrimEnd(s: string): string {
    if s != "" && IsSpace(s[|s| - 1]) then TrimEnd(s[..|s| - 1]) else s
  }

  function Trim(s: string): string {
    TrimEnd(TrimStart(s))
  }

  /** No white space at either end. */
  predicate Trimmed(s: string) {
    s != "" ==> !IsSpace(s[0]) && !IsSpace(s[|s| - 1])
  }

  /** A usable identifier: what is left after trimming and dropping empty strings. */
  predicate Clean(s: string) {
    s != "" && Trimmed(s)
  }

  lemma {:induction false} TrimEndKeepsHead(s: string)
    requires s != "" ==> !IsSpace(s[0])
    ensures var r := TrimEnd(s); (r == "" <==> s == "") && Trimmed(r) && (r != "" ==> r[0] == s[0])
  {
    if s != "" && IsSpace(s[|s| - 1]) {
      TrimEndKeepsHead(s[..|s| - 1]);
    }
  }

  lemma {:induction false} TrimStartHead(s: string)
    ensures var r := TrimStart(s); r != "" ==> !IsSpace(r[0])
  {
    if s != "" && IsSpace(s[0]) {
      TrimStartHead(s[1..]);
    }
  }

  lemma TrimIsTrimmed(s: string)
    ensures Trimmed(Trim(s))
    ensures Trimmed(s) ==> Trim(s) == s
  {
    TrimStartHead(s);
    TrimEndKeepsHead(TrimStart(s));
  }

  lemma PrefixIsClean(p: string, x: string)
    requires p != "" && !IsSpace(p[0]) && Clean(x)
    ensures Clean(p + x)
  {
    assert (p + x)[|p + x| - 1] == x[|x| - 1];
  }

  const DIGITS := "0123456789"

  /** The decimal numeral of n, as template strings print it. */
  function Decimal(n: nat): (s: string)
    ensures s != ""
    ensures forall c <- s :: c in DIGITS
  {
    if n < 10 then [DIGITS[n]] else Decimal(n / 10) + [DIGITS[n % 10]]
  }

  lemma {:induction false} DecimalInjective(a: nat, b: nat)
    requires Decimal(a) == Decimal(b)
    ensures a == b
  {
    var s := Decimal(a);
    assert s[|s| - 1] == DIGITS[a % 10] == DIGITS[b % 10];
    assert a % 10 == b % 10;
    if a >= 10 && b >= 10 {
      assert s[..|s| - 1] == Decimal(a / 10) == Decimal(b / 10);
      DecimalInjective(a / 10, b / 10);
    }
  }

  /** Numerals never get shorter, and one step adds at most one digit. */
  lemma {:induction false} DecimalGrowth(n: nat)
    ensures |Decimal(n)| <= |Decimal(n + 1)| <= |Decimal(n)| + 1
  {
    if n >= 10 {
      DecimalGrowth(n / 10);
      assert (n + 1) / 10 == n / 10 || (n + 1) / 10 == n / 10 + 1;
    }
  }

  /** A text is cut at its last separator in one way only. */
  lemma LastSeparator(p: string, x: string, q: string, y: string, sep: char)
    requires sep !in x && sep !in y
    requires p + [sep] + x == q + [sep] + y
    ensures p == q && x == y
  {
    var s := p + [sep] + x;
    assert s[|p|] == sep && s[|q|] == sep;
    forall k | |p| < k < |s|
      ensures s[k] != sep
    {
      assert s[k] == x[k - |p| - 1];
    }
    forall k | |q| < k < |s|
      ensures s[k] != sep
    {
      assert s[k] == y[k - |q| - 1];
    }
    assert p == s[..|p|] && q == s[..|q|] && x == s[|p| + 1..] && y == s[|q| + 1..];
  }

  lemma NumeralSuffixInjective(p: string, a: nat, q: string, b: nat, sep: char)
    requires sep !in DIGITS
    requires p + [sep] + Decimal(a) == q + [sep] + Decimal(b)
    ensures p == q && a == b
  {
    LastSeparator(p, Decimal(a), q, Decimal(b), sep);
    DecimalInjective(a, b);
  }

  /** Appending a numeral to a text that starts with a visible character leaves nothing to trim. */
  lemma NumeralTextIsClean(p: string, n: nat)
    requires p != "" && !IsSpace(p[0])
    ensures Clean(p + Decimal(n)) && Trim(p + Decimal(n)) == p + Decimal(n)
  {
    var s := p + Decimal(n);
    assert s[|s| - 1] in DIGITS by { assert s[|s| - 1] == Decimal(n)[|Decimal(n)| - 1]; }
    TrimIsTrimmed(s);
  }
}
