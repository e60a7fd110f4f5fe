/** The string operations the source relies on: String.prototype.trim, ASCII
    lower-casing (toLowerCase and SQLite's LIKE), includes, String(number),
    Number.prototype.toFixed(2) on whole cents, and Array.prototype.join. */
module Text {
  import opened Wrappers

  /** The characters String.prototype.trim removes: ECMAScript WhiteSpace (TAB, VT,
      FF, ZWNBSP and every space separator) and LineTerminator (LF, CR, LS, PS). */
  predicate IsJsSpace(c: char)
  {
    || c == '\t' || c == '\n' || c == '\U{000B}' || c == '\U{000C}' || c == '\r'
    || c == ' ' || c == '\U{00A0}' || c == '\U{1680}' || ('\U{2000}' <= c <= '\U{200A}')
    || c == '\U{2028}' || c == '\U{2029}' || c == '\U{202F}' || c == '\U{205F}'
    || c == '\U{3000}' || c == '\U{FEFF}'
  }

  function TrimStart(s: string): (r: string)
    ensures |r| <= |s| && r == s[|s| - |r|..]
    ensures r == [] || !IsJsSpace(r[0])
    ensures forall i :: 0 <= i < |s| - |r| ==> IsJsSpace(s[i])
  {
    if s != [] && IsJsSpace(s[0]) then TrimStart(s[1..]) else s
  }

  function TrimEnd(s: string): (r: string)
    ensures |r| <= |s| && r == s[..|r|]
    ensures r == [] || !IsJsSpace(r[|r| - 1])
    ensures forall i :: |r| <= i < |s| ==> IsJsSpace(s[i])
  {
    if s != [] && IsJsSpace(s[|s| - 1]) then TrimEnd(s[..|s| - 1]) else s
  }

  /** String.prototype.trim: empty exactly when every character is white space. */
  function Trim(s: string): (r: string)
    ensures r == "" <==> forall i :: 0 <= i < |s| ==> IsJsSpace(s[i])
    ensures r != "" ==> !IsJsSpace(r[0]) && !IsJsSpace(r[|r| - 1])
  {
    var a := TrimStart(s);
    var b := TrimEnd(a);
    assert b == [] ==> a == [];
    b
  }

  function LowerChar(c: char): char
  {
    if 'A' <= c <= 'Z' then (c as int + 32) as char else c
  }

  /** ASCII lower-casing, letter by letter. */
  function Lower(s: string): (r: string)
    ensures |r| == |s|
    ensures forall i :: 0 <= i < |s| ==> r[i] == LowerChar(s[i])
  {
    if s == [] then [] else [LowerChar(s[0])] + Lower(s[1..])
  }

  /** `t` occurs in `s` as a contiguous substring (String.prototype.includes, and
      LIKE '%t%' when no wild-card character occurs in `t`). */
  predicate Contains(s: string, t: string)
  {
    exists i | 0 <= i <= |s| :: t <= s[i..]
  }

  /** A substring stays a substring once both sides are lower-cased. */
  lemma ContainsLowered(s: string, t: string)
    requires Contains(s, t)
    ensures Contains(Lower(s), Lower(t))
  {
    var i :| 0 <= i <= |s| && t <= s[i..];
    assert Lower(t) <= Lower(s)[i..] by {
      forall k | 0 <= k < |t| ensures Lower(t)[k] == Lower(s)[i..][k] {
        assert t[k] == s[i + k];
      }
    }
  }

  predicate HasUpper(s: string)
  {
    exists k | 0 <= k < |s| :: 'A' <= s[k] <= 'Z'
  }

  /** A text with an upper-case letter does not contain its own lower-cased form. */
  lemma UpperNotFoundByLowered(s: string)
    requires HasUpper(s)
    ensures !Contains(s, Lower(s))
  {
    var k :| 0 <= k < |s| && 'A' <= s[k] <= 'Z';
    forall i | 0 <= i <= |s| ensures !(Lower(s) <= s[i..]) {
      if i == 0 {
        assert Lower(s)[k] != s[k];
      }
    }
  }

  predicate IsDigit(c: char)
  {
    '0' <= c <= '9'
  }

  predicate AllDigits(s: string)
  {
    forall i :: 0 <= i < |s| ==> IsDigit(s[i])
  }

  function DigitChar(d: int): (c: char)
    requires 0 <= d < 10
    ensures IsDigit(c) && DigitValue(c) == d
  {
    ('0' as int + d) as char
  }

  function DigitValue(c: char): int
  {
    c as int - '0' as int
  }

  /** Decimal digits of a natural number without leading zeros. */
  function NatToString(n: nat): (r: string)
    ensures |r| >= 1 && AllDigits(r)
    ensures r[0] == '0' <==> n == 0
    decreases n
  {
    if n < 10 then [DigitChar(n)] else NatToString(n / 10) + [DigitChar(n % 10)]
  }

  /** The value of a string of decimal digits. */
  function ParseDigits(s: string): nat
    requires AllDigits(s)
  {
    if s == [] then 0 else ParseDigits(s[..|s| - 1]) * 10 + DigitValue(s[|s| - 1])
  }

  lemma {:induction false} ParseNatToString(n: nat)
    ensures ParseDigits(NatToString(n)) == n
    decreases n
  {
    if n >= 10 {
      ParseNatToString(n / 10);
      var s := NatToString(n);
      assert s[..|s| - 1] == NatToString(n / 10);
    }
  }

  /** String(n) for a whole number n. */
  function IntToString(n: int): (r: string)
    ensures n >= 0 ==> r == NatToString(n)
    ensures n < 0 ==> r == "-" + NatToString(-n)
  {
    if n < 0 then "-" + NatToString(-n) else NatToString(n)
  }

  /** parseInt on a plain numeral: an optional minus sign, then at least one digit.
      Anything else reads as nothing. */
  function ParseInt(s: string): Option<int>
  {
    if |s| > 1 && s[0] == '-' && AllDigits(s[1..]) then Some(-(ParseDigits(s[1..]) as int))
    else if |s| > 0 && AllDigits(s) then Some(ParseDigits(s))
    else None
  }

  /** `parseInt(n.toString())` gives n back, negative numbers included. */
  lemma IntToStringRoundTrip(n: int)
    ensures ParseInt(IntToString(n)) == Some(n)
  {
    var s := IntToString(n);
    if n < 0 {
      assert s[1..] == NatToString(-n);
      ParseNatToString(-n);
    } else {
      ParseNatToString(n);
      assert IsDigit(s[0]);
    }
  }

  /** `(c / 100).toFixed(2)` for a whole number of cents c. */
  function Money(c: int): string
  {
    (if c < 0 then "-" else "") + Amount(if c < 0 then -c else c)
  }

  /** The unsigned "d.dd" form of m cents. */
  function Amount(m: nat): string
  {
    var cents := m % 100;
    NatToString(m / 100) + "." + [DigitChar(cents / 10), DigitChar(cents % 10)]
  }

  /** Reads back an amount in the "d.dd" form, with an optional leading minus, as
      a whole number of cents. */
  function ParseMoney(s: string): Option<int>
  {
    if |s| > 0 && s[0] == '-' then
      match ParseAmount(s[1..])
      case Some(v) => Some(-v)
      case None => None
    else ParseAmount(s)
  }

  /** Reads back "d.dd" (one or more digits, a point, two digits) as cents. */
  function ParseAmount(s: string): Option<int>
  {
    if |s| < 4 || s[|s| - 3] != '.' || !AllDigits(s[..|s| - 3]) || !AllDigits(s[|s| - 2..]) then None
    else Some(ParseDigits(s[..|s| - 3]) * 100 + ParseDigits(s[|s| - 2..]))
  }

  /** The digits of a number below 100, written with two places, read back. */
  lemma TwoPlaces(cents: nat)
    requires cents < 100
    ensures AllDigits([DigitChar(cents / 10), DigitChar(cents % 10)])
    ensures ParseDigits([DigitChar(cents / 10), DigitChar(cents % 10)]) == cents
  {
    var frac := [DigitChar(cents / 10), DigitChar(cents % 10)];
    assert frac[..1] == [DigitChar(cents / 10)] && frac[..1][..0] == [];
    assert ParseDigits(frac[..1]) == cents / 10;
  }

  lemma AmountReadsBack(whole: string, frac: string)
    requires |whole| >= 1 && AllDigits(whole) && |frac| == 2 && AllDigits(frac)
    ensures ParseAmount(whole + "." + frac) == Some(ParseDigits(whole) * 100 + ParseDigits(frac))
  {
    var body := whole + "." + frac;
    var n := |body|;
    assert n == |whole| + 3 && body[n - 3] == '.';
    assert body[..n - 3] == whole;
    assert body[n - 2..] == frac;
    assert AllDigits(body[..n - 3]) && AllDigits(body[n - 2..]);
    assert ParseAmount(body) == Some(ParseDigits(body[..n - 3]) * 100 + ParseDigits(body[n - 2..]));
  }

  /** Two decimals of whole cents lose nothing: the text reads back as the amount. */
  lemma MoneyRoundTrip(c: int)
    ensures ParseMoney(Money(c)) == Some(c)
  {
    var m: nat := if c < 0 then -c else c;
    var body := Amount(m);
    AmountRoundTrip(m);
    var s := Money(c);
    if c < 0 {
      assert s == "-" + body;
      assert s[1..] == body;
    } else {
      assert s == body;
    }
  }

  /** The unsigned form reads back, and it starts with a digit, not a minus. */
  lemma AmountRoundTrip(m: nat)
    ensures ParseAmount(Amount(m)) == Some(m)
    ensures |Amount(m)| > 0 && IsDigit(Amount(m)[0])
  {
    var whole := NatToString(m / 100);
    var cents := m % 100;
    var frac := [DigitChar(cents / 10), DigitChar(cents % 10)];
    assert Amount(m) == whole + "." + frac;
    TwoPlaces(cents);
    ParseNatToString(m / 100);
    AmountReadsBack(whole, frac);
    assert (whole + "." + frac)[0] == whole[0];
  }

  /** Array.prototype.join with a one-character separator. */
  function Join(xs: seq<string>, sep: char): string
  {
    if xs == [] then "" else if |xs| == 1 then xs[0] else xs[0] + [sep] + Join(xs[1..], sep)
  }

  /** String.prototype.split on one character. */
  function Split(s: string, sep: char): (r: seq<string>)
    ensures |r| >= 1
  {
    if s == [] then [""]
    else
      var rest := Split(s[1..], sep);
      if s[0] == sep then [""] + rest else [[s[0]] + rest[0]] + rest[1..]
  }

  lemma {:induction false} SplitFreePrefix(a: string, rest: string, sep: char)
    requires sep !in a
    ensures Split(a + rest, sep) == [a + Split(rest, sep)[0]] + Split(rest, sep)[1..]
  {
    if a != [] {
      assert sep != a[0] by {
        assert a[0] in a;
      }
      assert sep !in a[1..] by {
        assert forall c :: c in a[1..] ==> c in a;
      }
      SplitFreePrefix(a[1..], rest, sep);
      var r := Split(rest, sep);
      var tail := Split(a[1..] + rest, sep);
      assert Split(a + rest, sep) == [[a[0]] + tail[0]] + tail[1..] by {
        assert (a + rest)[0] == a[0] && (a + rest)[1..] == a[1..] + rest;
      }
      assert [a[0]] + (a[1..] + r[0]) == a + r[0];
    } else {
      var r := Split(rest, sep);
      assert a + rest == rest && a + r[0] == r[0];
      assert r == [r[0]] + r[1..];
    }
  }

  /** Joining fields that do not contain the separator can be undone by splitting. */
  lemma {:induction false} SplitJoin(xs: seq<string>, sep: char)
    requires |xs| >= 1
    requires forall i :: 0 <= i < |xs| ==> sep !in xs[i]
    ensures Split(Join(xs, sep), sep) == xs
  {
    if |xs| == 1 {
      SplitFreePrefix(xs[0], "", sep);
      assert xs[0] + "" == xs[0] && Split("", sep) == [""];
      assert Join(xs, sep) == xs[0];
    } else {
      SplitJoin(xs[1..], sep);
      var tail := Join(xs[1..], sep);
      assert Join(xs, sep) == xs[0] + ([sep] + tail);
      SplitFreePrefix(xs[0], [sep] + tail, sep);
      assert ([sep] + tail)[0] == sep && ([sep] + tail)[1..] == tail;
      assert Split([sep] + tail, sep) == [""] + xs[1..];
      assert xs[0] + "" == xs[0];
      assert xs == [xs[0]] + xs[1..];
    }
  }

  /** The number of occurrences of `c` in `s`. */
  function Occurrences(s: string, c: char): nat
  {
    if s == [] then 0 else Occurrences(s[..|s| - 1], c) + (if s[|s| - 1] == c then 1 else 0)
  }

  lemma {:induction false} OccurrencesAppend(a: string, b: string, c: char)
    ensures Occurrences(a + b, c) == Occurrences(a, c) + Occurrences(b, c)
    decreases |b|
  {
    if b != [] {
      OccurrencesAppend(a, b[..|b| - 1], c);
      var last := if b[|b| - 1] == c then 1 else 0;
      assert (a + b)[..|a + b| - 1] == a + b[..|b| - 1];
      assert (a + b)[|a + b| - 1] == b[|b| - 1];
      assert Occurrences(a + b, c) == Occurrences(a + b[..|b| - 1], c) + last;
      assert Occurrences(b, c) == Occurrences(b[..|b| - 1], c) + last;
    } else {
      assert a + b == a;
    }
  }

  lemma {:induction false} OccurrencesAbsent(s: string, c: char)
    requires c !in s
    ensures Occurrences(s, c) == 0
  {
    if s != [] {
      assert c !in s[..|s| - 1];
      OccurrencesAbsent(s[..|s| - 1], c);
    }
  }
}
