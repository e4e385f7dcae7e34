/** Strings cut at a separator, put together again, and decimal numbers. */
module Text {

  /** Split at every separator; the result is never empty. */
  function Split(s: string, sep: char): (parts: seq<string>)
    ensures parts != []
  {
    if s == "" then [""]
    else
      var rest := Split(s[1..], sep);
      if s[0] == sep then [""] + rest else [[s[0]] + rest[0]] + rest[1..]
  }

  function Join(parts: seq<string>, sep: string): string
    requires parts != []
  {
    if |parts| == 1 then parts[0] else parts[0] + sep + Join(parts[1..], sep)
  }

  lemma {:induction false} SplitParts(s: string, sep: char, p: string)
    requires p in Split(s, sep)
    ensures sep !in p
    ensures forall d :: d in p ==> d in s
  {
    if s != "" {
      var rest := Split(s[1..], sep);
      SplitParts(s[1..], sep, rest[0]);
      if p in rest {
        SplitParts(s[1..], sep, p);
      }
    }
  }

  lemma {:induction false} SplitFirst(p: string, sep: char, s: string)
    requires sep !in p
    ensures Split(p + [sep] + s, sep) == [p] + Split(s, sep)
    ensures Split(p, sep) == [p]
  {
    if p == "" {
      assert p + [sep] + s == [sep] + s;
    } else {
      assert (p + [sep] + s)[1..] == p[1..] + [sep] + s;
      SplitFirst(p[1..], sep, s);
      assert [p[0]] + p[1..] == p;
    }
  }

  lemma {:induction false} SplitJoin(parts: seq<string>, sep: char)
    requires parts != [] && forall p :: p in parts ==> sep !in p
    ensures Split(Join(parts, [sep]), sep) == parts
  {
    if |parts| == 1 {
      SplitFirst(parts[0], sep, "");
    } else {
      SplitFirst(parts[0], sep, Join(parts[1..], [sep]));
      SplitJoin(parts[1..], sep);
    }
  }

  /** What comes before and after the first separator. */
  function Before(s: string, sep: char): string {
    if s == "" || s[0] == sep then "" else [s[0]] + Before(s[1..], sep)
  }

  function Behind(s: string, sep: char): string {
    if s == "" then "" else if s[0] == sep then s[1..] else Behind(s[1..], sep)
  }

  lemma {:induction false} CutFirst(p: string, sep: char, s: string)
    requires sep !in p
    ensures Before(p + [sep] + s, sep) == p && Behind(p + [sep] + s, sep) == s
    ensures Before(p, sep) == p
  {
    if p == "" {
      assert p + [sep] + s == [sep] + s;
    } else {
      assert (p + [sep] + s)[1..] == p[1..] + [sep] + s;
      CutFirst(p[1..], sep, s);
    }
  }

  lemma {:induction false} BeforeLacks(s: string, sep: char)
    ensures sep !in Before(s, sep)
    ensures |Before(s, sep)| <= |s|
  {
    if s != "" && s[0] != sep {
      BeforeLacks(s[1..], sep);
    }
  }

  // ---------------------------------------------------------------- numbers

  predicate IsDigit(c: char) {
    '0' <= c <= '9'
  }

  function Digit(d: nat): char
    requires d < 10
  {
    "0123456789"[d]
  }

  function DigitValue(c: char): nat
    requires IsDigit(c)
  {
    c as int - '0' as int
  }

  function Decimal(n: nat): string {
    if n < 10 then [Digit(n)] else Decimal(n / 10) + [Digit(n % 10)]
  }

  /** The number the leading digits stand for. */
  function LeadingNumber(s: string, sofar: nat): nat {
    if s == "" || !IsDigit(s[0]) then sofar else LeadingNumber(s[1..], 10 * sofar + DigitValue(s[0]))
  }

  lemma {:induction false} LeadingNumberSnoc(s: string, d: nat, sofar: nat)
    requires d < 10 && forall c :: c in s ==> IsDigit(c)
    ensures LeadingNumber(s + [Digit(d)], sofar) == 10 * LeadingNumber(s, sofar) + d
  {
    if s == "" {
      assert LeadingNumber([Digit(d)][1..], 10 * sofar + d) == 10 * sofar + d;
    } else {
      assert (s + [Digit(d)])[1..] == s[1..] + [Digit(d)];
      LeadingNumberSnoc(s[1..], d, 10 * sofar + DigitValue(s[0]));
    }
  }

  lemma {:induction false} DecimalReads(n: nat)
    ensures Decimal(n) != "" && (forall c :: c in Decimal(n) ==> IsDigit(c))
    ensures LeadingNumber(Decimal(n), 0) == n
  {
    if n < 10 {
      LeadingNumberSnoc("", n, 0);
      assert Decimal(n) == "" + [Digit(n)];
    } else {
      DecimalReads(n / 10);
      LeadingNumberSnoc(Decimal(n / 10), n % 10, 0);
    }
  }

  lemma DecimalInjective(n: nat, m: nat)
    requires Decimal(n) == Decimal(m)
    ensures n == m
  {
    DecimalReads(n);
    DecimalReads(m);
  }
}
