/** Text joined by separators, numbers written in decimal, and whitespace. */
module Text {
  /** Two pieces joined after one prefix by a separator that neither first piece contains. */
  lemma JoinInjective(prefix: string, a: string, b: string, x: string, y: string, separator: char)
    requires separator !in a && separator !in b
    requires prefix + a + [separator] + x == prefix + b + [separator] + y
    ensures a == b && x == y
  {
    var s, t := a + [separator] + x, b + [separator] + y;
    assert prefix + a + [separator] + x == prefix + s && prefix + b + [separator] + y == prefix + t;
    assert s == (prefix + s)[|prefix|..] == (prefix + t)[|prefix|..] == t;
    assert s[|a|] == separator && t[|b|] == separator;
    assert forall i :: 0 <= i < |a| ==> s[i] == a[i] && a[i] != separator;
    assert forall i :: 0 <= i < |b| ==> t[i] == b[i] && b[i] != separator;
    assert |a| == |b|;
    assert a == s[..|a|] && b == t[..|b|] && x == s[|a| + 1..] && y == t[|b| + 1..];
  }

  /** The same with the separator counted from the end: neither last piece contains it. */
  lemma LastJoinInjective(a: string, b: string, x: string, y: string, separator: char)
    requires separator !in x && separator !in y
    requires a + [separator] + x == b + [separator] + y
    ensures a == b && x == y
  {
    var s, t := a + [separator] + x, b + [separator] + y;
    assert s[|a|] == separator && t[|b|] == separator;
    assert forall i :: |a| < i < |s| ==> s[i] == x[i - |a| - 1] && s[i] != separator;
    assert forall i :: |b| < i < |t| ==> t[i] == y[i - |b| - 1] && t[i] != separator;
    assert |a| == |b|;
    assert a == s[..|a|] && b == t[..|b|] && x == s[|a| + 1..] && y == t[|b| + 1..];
  }

  function Digit(n: nat): char
    requires n < 10
  {
    '0' + n as char
  }

  function Decimal(n: nat): (s: string)
    ensures |s| > 0
  {
    (if n < 10 then "" else Decimal(n / 10)) + [Digit(n % 10)]
  }

  lemma {:induction false} DecimalInjective(m: nat, n: nat)
    requires Decimal(m) == Decimal(n)
    ensures m == n
    decreases m
  {
    var s, t := Decimal(m), Decimal(n);
    assert s[|s| - 1] == Digit(m % 10) && t[|t| - 1] == Digit(n % 10);
    assert s[..|s| - 1] == (if m < 10 then "" else Decimal(m / 10));
    assert t[..|t| - 1] == (if n < 10 then "" else Decimal(n / 10));
    if m >= 10 && n >= 10 {
      DecimalInjective(m / 10, n / 10);
    }
  }

  lemma {:induction false} DecimalIsDigits(n: nat, separator: char)
    requires separator < '0' || separator > '9'
    ensures separator !in Decimal(n)
  {
    if n >= 10 {
      DecimalIsDigits(n / 10, separator);
    }
  }

  /** What `trim` takes off in JavaScript. */
  predicate IsWhitespace(c: char) {
    var n := c as int;
    || 0x09 <= n <= 0x0D || n == 0x20 || n == 0xA0 || n == 0x1680 || 0x2000 <= n <= 0x200A
    || n == 0x2028 || n == 0x2029 || n == 0x202F || n == 0x205F || n == 0x3000 || n == 0xFEFF
  }

  predicate Blank(s: string) {
    forall i :: 0 <= i < |s| ==> IsWhitespace(s[i])
  }
}
