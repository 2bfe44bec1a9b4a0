/** The few string operations the planner bridge relies on. */
module Text {

  /** Decimal numeral of n, as a formatted integer is written. */
  function Decimal(n: nat): (s: string)
    ensures |s| > 0
  {
    if n < 10 then [Digit(n)] else Decimal(n / 10) + [Digit(n % 10)]
  }

  function Digit(d: nat): char
    requires d < 10
  {
    "0123456789"[d]
  }

  lemma {:induction false} DecimalInjective(m: nat, n: nat)
    requires Decimal(m) == Decimal(n)
    ensures m == n
  {
    var s, t := Decimal(m), Decimal(n);
    assert s[|s| - 1] == Digit(m % 10) && t[|t| - 1] == Digit(n % 10);
    if m >= 10 && n >= 10 {
      assert s[..|s| - 1] == Decimal(m / 10) && t[..|t| - 1] == Decimal(n / 10);
      DecimalInjective(m / 10, n / 10);
    }
  }

  /** The number a numeral stands for. */
  function NumeralValue(s: string): nat
    requires forall i :: 0 <= i < |s| ==> '0' <= s[i] <= '9'
  {
    if s == [] then 0 else 10 * NumeralValue(s[..|s| - 1]) + (s[|s| - 1] as int - '0' as int)
  }

  lemma DigitValue(d: nat)
    requires d < 10
    ensures '0' <= Digit(d) <= '9' && Digit(d) as int - '0' as int == d
  {
  }

  /** A numeral has digits only, no leading zero, and stands for its number. */
  lemma {:induction false} DecimalStandsFor(n: nat)
    ensures forall i :: 0 <= i < |Decimal(n)| ==> '0' <= Decimal(n)[i] <= '9'
    ensures NumeralValue(Decimal(n)) == n && (n > 0 ==> Decimal(n)[0] != '0')
  {
    hide Digit;
    DigitValue(n % 10);
    if n < 10 {
      assert [Digit(n)][..0] == [];
    } else {
      DecimalStandsFor(n / 10);
      assert Decimal(n)[..|Decimal(n)| - 1] == Decimal(n / 10);
    }
  }

  /** Lexicographic order by code point, the order in which strings are sorted. */
  predicate StrLe(a: string, b: string) {
    a == [] || (b != [] && (a[0] < b[0] || (a[0] == b[0] && StrLe(a[1..], b[1..]))))
  }

  lemma {:induction false} StrLeTotal(a: string, b: string)
    ensures StrLe(a, b) || StrLe(b, a)
  {
    if a != [] && b != [] && a[0] == b[0] {
      StrLeTotal(a[1..], b[1..]);
    }
  }

  lemma {:induction false} StrLeTransitive(a: string, b: string, c: string)
    requires StrLe(a, b) && StrLe(b, c)
    ensures StrLe(a, c)
  {
    if a != [] && a[0] == b[0] && b[0] == c[0] {
      StrLeTransitive(a[1..], b[1..], c[1..]);
    }
  }

  lemma {:induction false} StrLeAntisymmetric(a: string, b: string)
    requires StrLe(a, b) && StrLe(b, a)
    ensures a == b
  {
    if a != [] {
      StrLeAntisymmetric(a[1..], b[1..]);
      assert a == [a[0]] + a[1..] && b == [b[0]] + b[1..];
    }
  }

  /** A text comes before another exactly when it is a beginning of it or smaller where they first differ. */
  lemma {:induction false} StrLeIff(a: string, b: string, k: nat)
    requires k <= |a| && k <= |b| && a[..k] == b[..k]
    requires k < |a| && k < |b| ==> a[k] != b[k]
    ensures StrLe(a, b) <==> k == |a| || (k < |b| && a[k] < b[k])
  {
    if k > 0 {
      assert a[0] == a[..k][0] == b[..k][0] == b[0];
      assert a[1..][..k - 1] == a[..k][1..] && b[1..][..k - 1] == b[..k][1..];
      StrLeIff(a[1..], b[1..], k - 1);
    }
  }

  /** Lower case of the ASCII letters; other characters are kept. */
  function Lower(s: string): string {
    seq(|s|, i requires 0 <= i < |s| => if 'A' <= s[i] <= 'Z' then s[i] + 32 as char else s[i])
  }

  /** Capitals move to the small letters, everything else stays. */
  lemma LowerAt(s: string, i: nat)
    requires i < |s|
    ensures |Lower(s)| == |s|
    ensures 'A' <= s[i] <= 'Z' ==> Lower(s)[i] as int - 'a' as int == s[i] as int - 'A' as int
    ensures !('A' <= s[i] <= 'Z') ==> Lower(s)[i] == s[i]
  {
  }

  /** The part after the last slash, or all of the path when there is none. */
  function Leaf(path: string): string {
    if path == [] || path[|path| - 1] == '/' then []
    else Leaf(path[..|path| - 1]) + [path[|path| - 1]]
  }

  /** What a leaf is: the end of the path, without a slash, and all of the path unless it follows one. */
  lemma {:induction false} LeafEndsPath(path: string)
    ensures |Leaf(path)| <= |path|
    ensures forall i :: 0 <= i < |Leaf(path)| ==>
              Leaf(path)[i] == path[|path| - |Leaf(path)| + i] && Leaf(path)[i] != '/'
    ensures |Leaf(path)| < |path| ==> path[|path| - |Leaf(path)| - 1] == '/'
  {
    if path != [] && path[|path| - 1] != '/' {
      LeafEndsPath(path[..|path| - 1]);
      assert Leaf(path) == Leaf(path[..|path| - 1]) + [path[|path| - 1]];
    }
  }

  predicate HasPrefix(s: string, prefix: string) {
    prefix <= s
  }

  /** Whether needle occurs in s as a contiguous substring. */
  predicate Contains(s: string, needle: string) {
    exists i :: 0 <= i <= |s| && needle <= s[i..]
  }

  lemma ContainsIff(s: string, needle: string)
    ensures Contains(s, needle) <==> exists before, after :: s == before + needle + after
  {
    if i :| 0 <= i <= |s| && needle <= s[i..] {
      assert s == s[..i] + needle + s[i + |needle|..];
    }
    if before, after :| s == before + needle + after {
      assert s[|before|..] == needle + after;
    }
  }
}
