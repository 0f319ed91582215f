/**
 * The Go formatting and string helpers the payment code relies on:
 * `%d`, `%0.2f` and `%v` of amounts, `strings.Join`, `strings.HasPrefix`
 * and `strings.EqualFold`. Each formatter has a parser beside it, and the
 * round-trip lemmas show that no information is lost.
 */
module Text {
  import opened Wrappers

  predicate IsDigit(c: char) {
    '0' <= c <= '9'
  }

  predicate AllDigits(s: string) {
    forall i :: 0 <= i < |s| ==> IsDigit(s[i])
  }

  function Digit(d: int): (c: char)
    requires 0 <= d < 10
    ensures IsDigit(c) && c as int - '0' as int == d
  {
    ('0' as int + d) as char
  }

  /** The decimal digits of `n`, most significant first, without leading zeros. */
  function NatToDec(n: nat): (s: string)
    ensures |s| > 0 && AllDigits(s)
    ensures |s| > 1 ==> s[0] != '0'
    decreases n
  {
    if n < 10 then [Digit(n)] else NatToDec(n / 10) + [Digit(n % 10)]
  }

  /** The number a string of decimal digits denotes. */
  function DigitsValue(s: string): nat
    requires AllDigits(s)
  {
    if s == [] then 0 else DigitsValue(s[..|s| - 1]) * 10 + (s[|s| - 1] as int - '0' as int)
  }

  lemma {:induction false} NatToDecRoundTrip(n: nat)
    ensures DigitsValue(NatToDec(n)) == n
    decreases n
  {
    if n >= 10 {
      NatToDecRoundTrip(n / 10);
      var s := NatToDec(n);
      assert s[..|s| - 1] == NatToDec(n / 10);
    }
  }

  /** `fmt.Sprintf("%d", i)`. */
  function IntToDec(i: int): string {
    if i < 0 then "-" + NatToDec(-i) else NatToDec(i)
  }

  /** Reads back what `%d` writes. */
  function ParseInt(s: string): Option<int> {
    if s != [] && AllDigits(s) then Some(DigitsValue(s))
    else if |s| > 1 && s[0] == '-' && AllDigits(s[1..]) then Some(-(DigitsValue(s[1..]) as int))
    else None
  }

  lemma IntToDecRoundTrip(i: int)
    ensures ParseInt(IntToDec(i)) == Some(i)
  {
    if i < 0 {
      var s := IntToDec(i);
      assert s[1..] == NatToDec(-i);
      assert !IsDigit(s[0]);
      NatToDecRoundTrip(-i);
    } else {
      NatToDecRoundTrip(i);
    }
  }

  /** `%d` never writes the same text for two different integers. */
  lemma IntToDecInjective(i: int, j: int)
    requires IntToDec(i) == IntToDec(j)
    ensures i == j
  {
    IntToDecRoundTrip(i);
    IntToDecRoundTrip(j);
  }

  /** The shape of `%d` text: digits without a leading zero, or a minus sign before such digits other than "0". */
  predicate CanonicalDec(s: string) {
    || (|s| > 0 && AllDigits(s) && (|s| > 1 ==> s[0] != '0'))
    || (|s| > 1 && s[0] == '-' && AllDigits(s[1..]) && s[1] != '0')
  }

  /** `%d` writes no leading zero and never "-0". */
  lemma IntToDecCanonical(i: int)
    ensures CanonicalDec(IntToDec(i))
  {
    if i < 0 {
      var t := NatToDec(-i);
      if |t| == 1 {
        assert t[0] == Digit(-i);
      }
      assert IntToDec(i)[1..] == t;
    }
  }

  /** The only canonical text that reads back as `i` is `%d` of `i`. */
  lemma CanonicalDecUnique(s: string, i: int)
    requires CanonicalDec(s) && ParseInt(s) == Some(i)
    ensures s == IntToDec(i)
  {
    if |s| > 0 && AllDigits(s) && (|s| > 1 ==> s[0] != '0') {
      NatToDecUnique(s);
    } else {
      var t := s[1..];
      assert !IsDigit(s[0]);
      NatToDecUnique(t);
      assert s == "-" + t;
    }
  }

  /** Digits without a leading zero are the decimal text of their own value. */
  lemma {:induction false} NatToDecUnique(s: string)
    requires |s| > 0 && AllDigits(s) && (|s| > 1 ==> s[0] != '0')
    ensures s == NatToDec(DigitsValue(s))
  {
    var d := s[|s| - 1] as int - '0' as int;
    if |s| == 1 {
      assert DigitsValue(s) == DigitsValue(s[..0]) * 10 + d;
      assert s == [Digit(d)];
    } else {
      var init := s[..|s| - 1];
      assert init[0] == s[0];
      NatToDecUnique(init);
      var m := DigitsValue(init);
      var n := DigitsValue(s);
      assert n == m * 10 + d;
      assert n / 10 == m && n % 10 == d;
      assert s == init + [Digit(d)];
    }
  }

  /** `%0.2f` of the amount `cents / 100`: whole units, a point, exactly two decimals. */
  function Fixed2(cents: nat): string {
    NatToDec(cents / 100) + "." + [Digit(cents / 10 % 10), Digit(cents % 10)]
  }

  /** Reads back what `%0.2f` writes, in cents. */
  function ParseFixed2(s: string): Option<nat> {
    var n := |s|;
    if n >= 4 && s[n - 3] == '.' && AllDigits(s[..n - 3]) && IsDigit(s[n - 2]) && IsDigit(s[n - 1]) then
      Some(DigitsValue(s[..n - 3]) * 100 + (s[n - 2] as int - '0' as int) * 10 + (s[n - 1] as int - '0' as int))
    else None
  }

  lemma Fixed2RoundTrip(cents: nat)
    ensures ParseFixed2(Fixed2(cents)) == Some(cents)
  {
    var s := Fixed2(cents);
    var w := NatToDec(cents / 100);
    assert s[..|s| - 3] == w;
    NatToDecRoundTrip(cents / 100);
    DecimalDigits(cents);
  }

  /** A number is its hundreds, its tens digit and its units digit. */
  lemma DecimalDigits(n: nat)
    ensures n == n / 100 * 100 + n / 10 % 10 * 10 + n % 10
  {
    var a := n / 10;
    assert n == a * 10 + n % 10;
    assert a == a / 10 * 10 + a % 10;
    assert a / 10 == n / 100;
  }

  /**
   * `%v` of the float64 amount `cents / 100`: Go prints the shortest decimal
   * that reads back as the same float, in plain form below a million and in
   * exponent form from a million on ("100", "10.5", "1e+06", "1.5e+07").
   */
  function ShortAmount(cents: nat): string {
    if cents < 100000000 then PlainAmount(cents) else ExponentAmount(cents)
  }

  /** Reads back what `ShortAmount` writes, in cents. */
  function ParseShortAmount(s: string): Option<nat> {
    var plain := ParsePlainAmount(s);
    if plain.Some? then plain else ParseExponentAmount(s)
  }

  lemma ShortAmountRoundTrip(cents: nat)
    ensures ParseShortAmount(ShortAmount(cents)) == Some(cents)
  {
    if cents < 100000000 {
      PlainAmountRoundTrip(cents);
    } else {
      ExponentAmountRoundTrip(cents);
    }
  }

  /** `%v` below a million: trailing zero decimals and a bare point are dropped ("100", "10.5", "10.56"). */
  function PlainAmount(cents: nat): string {
    if cents % 100 == 0 then NatToDec(cents / 100)
    else if cents % 10 == 0 then NatToDec(cents / 100) + "." + [Digit(cents / 10 % 10)]
    else Fixed2(cents)
  }

  /** Reads back what `PlainAmount` writes, in cents. */
  function ParsePlainAmount(s: string): Option<nat> {
    var n := |s|;
    if s != [] && AllDigits(s) then Some(DigitsValue(s) * 100)
    else if n >= 3 && s[n - 2] == '.' && AllDigits(s[..n - 2]) && IsDigit(s[n - 1]) then
      Some(DigitsValue(s[..n - 2]) * 100 + (s[n - 1] as int - '0' as int) * 10)
    else ParseFixed2(s)
  }

  lemma PlainAmountRoundTrip(cents: nat)
    ensures ParsePlainAmount(PlainAmount(cents)) == Some(cents)
  {
    if cents % 100 == 0 {
      NatToDecRoundTrip(cents / 100);
    } else if cents % 10 == 0 {
      OneDecimalRoundTrip(cents);
    } else {
      var s := PlainAmount(cents);
      assert !IsDigit(s[|s| - 3]);
      assert s[|s| - 2] == Digit(cents / 10 % 10);
      Fixed2RoundTrip(cents);
    }
  }

  lemma OneDecimalRoundTrip(cents: nat)
    requires cents % 100 != 0 && cents % 10 == 0
    ensures ParsePlainAmount(PlainAmount(cents)) == Some(cents)
  {
    var s := PlainAmount(cents);
    assert s[..|s| - 2] == NatToDec(cents / 100);
    assert !IsDigit(s[|s| - 2]);
    NatToDecRoundTrip(cents / 100);
    DecimalDigits(cents);
  }

  function Pow10(n: nat): (p: nat)
    ensures p > 0
  {
    if n == 0 then 1 else 10 * Pow10(n - 1)
  }

  /** A number of at least `10^k` has more than `k` digits. */
  lemma {:induction false} NatToDecLength(n: nat, k: nat)
    requires n >= Pow10(k)
    ensures |NatToDec(n)| > k
    decreases k
  {
    if k > 0 {
      NatToDecLength(n / 10, k - 1);
    }
  }

  /** The digits without their trailing zeros; the first digit always stays. */
  function TrimZeros(s: string): (t: string)
    ensures |s| > 0 ==> 0 < |t| <= |s|
  {
    if |s| > 1 && s[|s| - 1] == '0' then TrimZeros(s[..|s| - 1]) else s
  }

  /** Trimming keeps a non-empty prefix, and the zeros it drops are a power of ten. */
  lemma {:induction false} TrimZerosValue(s: string)
    requires |s| > 0 && AllDigits(s)
    ensures var t := TrimZeros(s);
      0 < |t| <= |s| && t == s[..|t|] && AllDigits(t) && DigitsValue(s) == DigitsValue(t) * Pow10(|s| - |t|)
    decreases |s|
  {
    if |s| > 1 && s[|s| - 1] == '0' {
      var init := s[..|s| - 1];
      TrimZerosValue(init);
      var t := TrimZeros(init);
      assert t == s[..|t|];
      var v, p := DigitsValue(t), Pow10(|init| - |t|);
      assert DigitsValue(s) == DigitsValue(init) * 10;
      assert Pow10(|s| - |t|) == 10 * p;
      MulShift(v, p);
    }
  }

  lemma MulShift(v: int, p: int)
    ensures v * p * 10 == v * (10 * p)
  {
  }

  /** The decimal exponent `%e` writes: at least two digits. */
  function ExponentText(e: nat): (x: string)
    ensures |x| >= 2 && AllDigits(x)
  {
    if e < 10 then "0" + NatToDec(e) else NatToDec(e)
  }

  /** The significant digits as `%e` writes them: the first, then a point and the others when there are others. */
  function Mantissa(t: string): string
    requires |t| > 0
  {
    if |t| == 1 then t else [t[0]] + "." + t[1..]
  }

  /** `%v` from a million on: the shortest significant digits, `e+`, and the decimal exponent. */
  function ExponentAmount(cents: nat): string
    requires cents >= 100000000
  {
    var s := NatToDec(cents);
    NatToDecLength(cents, 8);
    Mantissa(TrimZeros(s)) + "e+" + ExponentText(|s| - 3)
  }

  /** The number of decimal digits at the end of `s`. */
  function DigitRun(s: string): (n: nat)
    ensures n <= |s| && AllDigits(s[|s| - n..])
  {
    if s != [] && IsDigit(s[|s| - 1]) then
      var n := 1 + DigitRun(s[..|s| - 1]);
      assert s[|s| - n..] == s[..|s| - 1][|s| - n..] + [s[|s| - 1]];
      n
    else 0
  }

  /** The mantissa and the exponent digits of a string ending in `e+` and at least two digits. */
  function SplitExponent(s: string): (r: Option<(string, string)>)
    ensures r.Some? ==> AllDigits(r.value.1)
  {
    var l, n := DigitRun(s), |s|;
    if l >= 2 && n >= l + 3 && s[n - l - 2] == 'e' && s[n - l - 1] == '+' then Some((s[..n - l - 2], s[n - l..]))
    else None
  }

  /** The significant digits a mantissa written by `Mantissa` stands for. */
  function MantissaDigits(m: string): (r: Option<string>)
    ensures r.Some? ==> |r.value| > 0 && AllDigits(r.value)
  {
    if |m| == 1 && IsDigit(m[0]) then Some(m)
    else if |m| >= 3 && IsDigit(m[0]) && m[1] == '.' && AllDigits(m[2..]) then Some([m[0]] + m[2..])
    else None
  }

  /** Reads back what `ExponentAmount` writes, in cents. */
  function ParseExponentAmount(s: string): Option<nat> {
    match SplitExponent(s)
    case None => None
    case Some((m, x)) =>
      match MantissaDigits(m)
      case None => None
      case Some(t) =>
        if |t| <= DigitsValue(x) + 3 then Some(DigitsValue(t) * Pow10(DigitsValue(x) + 3 - |t|)) else None
  }

  lemma ExponentAmountRoundTrip(cents: nat)
    requires cents >= 100000000
    ensures ParseExponentAmount(ExponentAmount(cents)) == Some(cents)
    ensures ParsePlainAmount(ExponentAmount(cents)) == None
  {
    var s := NatToDec(cents);
    NatToDecLength(cents, 8);
    var t, x := TrimZeros(s), ExponentText(|s| - 3);
    assert ExponentAmount(cents) == Mantissa(t) + "e+" + x;
    assert DigitsValue(x) == |s| - 3 by {
      ExponentTextValue(|s| - 3);
    }
    var k := |s| - |t|;
    TrimmedDigits(cents);
    ExponentFormValue(ExponentAmount(cents), t, x, k, cents);
  }

  /** The significant digits of a number, scaled back by the zeros trimmed off, give the number. */
  lemma TrimmedDigits(n: nat)
    ensures var s := NatToDec(n); var t := TrimZeros(s);
      |t| <= |s| && AllDigits(t) && DigitsValue(t) * Pow10(|s| - |t|) == n
  {
    var s := NatToDec(n);
    TrimZerosValue(s);
    NatToDecRoundTrip(n);
  }

  /** The exponent form of significant digits and exponent that denote `cents` reads back as `cents`, and only as that. */
  lemma ExponentFormValue(out: string, t: string, x: string, k: nat, cents: nat)
    requires |t| > 0 && AllDigits(t) && AllDigits(x) && |x| >= 2 && k == DigitsValue(x) + 3 - |t|
    requires out == Mantissa(t) + "e+" + x
    requires DigitsValue(t) * Pow10(k) == cents
    ensures ParseExponentAmount(out) == Some(cents)
    ensures ParsePlainAmount(out) == None
  {
    ParseExponentForm(t, x);
    PlainRejectsExponentForm(Mantissa(t), x);
  }

  /** Any significant digits and exponent read back as the number they denote. */
  lemma ParseExponentForm(t: string, x: string)
    requires |t| > 0 && AllDigits(t) && AllDigits(x) && |x| >= 2 && |t| <= DigitsValue(x) + 3
    ensures ParseExponentAmount(Mantissa(t) + "e+" + x) == Some(DigitsValue(t) * Pow10(DigitsValue(x) + 3 - |t|))
  {
    var m := Mantissa(t);
    SplitExponentOf(m, x);
    MantissaDigitsOf(t);
    ParseExponentParts(m + "e+" + x, m, x, t);
  }

  lemma ParseExponentParts(s: string, m: string, x: string, t: string)
    requires SplitExponent(s) == Some((m, x)) && MantissaDigits(m) == Some(t)
    requires |t| <= DigitsValue(x) + 3
    ensures ParseExponentAmount(s) == Some(DigitsValue(t) * Pow10(DigitsValue(x) + 3 - |t|))
  {
  }

  lemma SplitExponentOf(m: string, x: string)
    requires |m| > 0 && AllDigits(x) && |x| >= 2
    ensures SplitExponent(m + "e+" + x) == Some((m, x))
  {
    var out := m + "e+" + x;
    assert out == (m + "e+") + x;
    DigitRunAfter(m + "e+", x);
    var n, l := |out|, |x|;
    assert out[n - l - 2] == 'e' && out[n - l - 1] == '+';
    assert out[..n - l - 2] == m;
    assert out[n - l..] == x;
  }

  lemma MantissaDigitsOf(t: string)
    requires |t| > 0 && AllDigits(t)
    ensures MantissaDigits(Mantissa(t)) == Some(t)
  {
    if |t| > 1 {
      var m := Mantissa(t);
      assert m[2..] == t[1..];
      assert [m[0]] + m[2..] == t;
    }
  }

  /** The exponent form is never mistaken for a plain amount: it holds an `e`. */
  lemma PlainRejectsExponentForm(m: string, x: string)
    requires |x| >= 2
    ensures ParsePlainAmount(m + "e+" + x) == None
  {
    var out := m + "e+" + x;
    var n := |out|;
    assert out[|m|] == 'e';
    assert out[..n - 3][|m|] == 'e';
    assert out[..n - 2][|m|] == 'e';
  }

  /** A million prints as `1e+06`. */
  lemma MillionExample()
    ensures ShortAmount(100000000) == "1e+06"
  {
    assert Pow10(8) == 100000000;
    PowerDigits(8);
    TrimPower(8);
    assert ExponentText(6) == "06";
  }

  function Zeros(k: nat): (z: string)
    ensures |z| == k && forall i :: 0 <= i < k ==> z[i] == '0'
  {
    seq(k, _ => '0')
  }

  /** `10^k` is a one followed by `k` zeros. */
  lemma {:induction false} PowerDigits(k: nat)
    ensures NatToDec(Pow10(k)) == "1" + Zeros(k)
  {
    if k > 0 {
      PowerDigits(k - 1);
      assert "1" + Zeros(k) == "1" + Zeros(k - 1) + "0";
    }
  }

  /** Trimming a one followed by zeros leaves the one. */
  lemma {:induction false} TrimPower(k: nat)
    ensures TrimZeros("1" + Zeros(k)) == "1"
  {
    if k > 0 {
      var s := "1" + Zeros(k);
      assert s[..|s| - 1] == "1" + Zeros(k - 1);
      TrimPower(k - 1);
    }
  }

  /** A leading zero does not change the value of a digit string. */
  lemma {:induction false} LeadingZero(x: string)
    requires AllDigits(x)
    ensures AllDigits("0" + x) && DigitsValue("0" + x) == DigitsValue(x)
    decreases |x|
  {
    if x != [] {
      LeadingZero(x[..|x| - 1]);
      assert ("0" + x)[..|x|] == "0" + x[..|x| - 1];
    }
  }

  lemma ExponentTextValue(e: nat)
    ensures DigitsValue(ExponentText(e)) == e
  {
    NatToDecRoundTrip(e);
    if e < 10 {
      LeadingZero(NatToDec(e));
    }
  }

  /** The digit run of a string ending in digits after a non-digit is exactly those digits. */
  lemma {:induction false} DigitRunAfter(p: string, x: string)
    requires |p| > 0 && !IsDigit(p[|p| - 1]) && AllDigits(x)
    ensures DigitRun(p + x) == |x|
    decreases |x|
  {
    if x == [] {
      assert p + x == p;
    } else {
      DigitRunAfter(p, x[..|x| - 1]);
      assert (p + x)[..|p + x| - 1] == p + x[..|x| - 1];
    }
  }

  /** `strings.Join`. */
  function Join(parts: seq<string>, sep: string): string {
    if parts == [] then ""
    else if |parts| == 1 then parts[0]
    else Join(parts[..|parts| - 1], sep) + sep + parts[|parts| - 1]
  }

  /** Appending a part adds the separator only when there was a part before. */
  lemma JoinAppend(parts: seq<string>, p: string, sep: string)
    ensures Join(parts + [p], sep) == if parts == [] then p else Join(parts, sep) + sep + p
  {
    assert (parts + [p])[..|parts|] == parts;
  }

  /** One step of a loop that joins `parts` with `sep`, writing the separator only after the first part. */
  lemma JoinStep(parts: seq<string>, i: int, s: string, sep: string)
    requires 0 <= i < |parts| && |parts[i]| > 0
    requires s == Join(parts[..i], sep) && (|s| > 0 <==> i > 0)
    ensures var t := if |s| > 0 then s + sep + parts[i] else parts[i];
      t == Join(parts[..i + 1], sep) && |t| > 0
  {
    assert parts[..i + 1] == parts[..i] + [parts[i]];
    JoinAppend(parts[..i], parts[i], sep);
  }

  /** Every part preceded by a colon: the shape of the tail of a signing string. */
  function Colons(parts: seq<string>): string {
    if parts == [] then "" else Colons(parts[..|parts| - 1]) + ":" + parts[|parts| - 1]
  }

  lemma {:induction false} JoinColons(parts: seq<string>)
    requires parts != []
    ensures ":" + Join(parts, ":") == Colons(parts)
  {
    if |parts| > 1 {
      var init := parts[..|parts| - 1];
      JoinColons(init);
      JoinColonsStep(parts, init, parts[|parts| - 1]);
    } else {
      assert parts[..0] == [];
    }
  }

  /** Appending one part to both sides of `JoinColons`. */
  lemma JoinColonsStep(parts: seq<string>, init: seq<string>, last: string)
    requires |parts| > 1 && init == parts[..|parts| - 1] && last == parts[|parts| - 1]
    requires ":" + Join(init, ":") == Colons(init)
    ensures ":" + Join(parts, ":") == Colons(parts)
  {
    var j := Join(init, ":");
    assert Join(parts, ":") == j + ":" + last;
    assert Colons(parts) == Colons(init) + ":" + last;
    assert ":" + (j + ":" + last) == (":" + j) + ":" + last;
  }

  lemma {:induction false} ColonsAppend(a: seq<string>, b: seq<string>)
    ensures Colons(a + b) == Colons(a) + Colons(b)
    decreases |b|
  {
    if b != [] {
      var b' := b[..|b| - 1];
      assert (a + b)[..|a + b| - 1] == a + b';
      ColonsAppend(a, b');
    } else {
      assert a + b == a;
    }
  }

  /** One more part adds one `:part` at the end. */
  lemma ColonsStep(parts: seq<string>, i: int)
    requires 0 <= i < |parts|
    ensures Colons(parts[..i + 1]) == Colons(parts[..i]) + (":" + parts[i])
  {
    assert parts[..i + 1][..i] == parts[..i];
  }

  /** The colon-joined form of `ps`, split around its `i`-th part. */
  lemma ColonsAround(ps: seq<string>, i: int)
    requires 0 <= i < |ps|
    ensures Colons(ps) == Colons(ps[..i]) + (":" + ps[i]) + Colons(ps[i + 1..])
  {
    var front, back := ps[..i + 1], ps[i + 1..];
    assert ps == front + back;
    ColonsAppend(front, back);
    assert Colons(ps) == Colons(front) + Colons(back);
    ColonsStep(ps, i);
    assert Colons(front) == Colons(ps[..i]) + (":" + ps[i]);
  }

  /** Regrouping a concatenation after its first part. */
  lemma ColonsOfTwo(x: string, y: string)
    ensures Colons([x, y]) == ":" + x + ":" + y
  {
    assert [x, y][..1] == [x];
    assert [x][..0] == [];
    assert Colons([x]) == "" + ":" + x == ":" + x;
  }

  lemma Regroup(x: string, a: string, b: string, c: string, e: string, f: string)
    ensures x + a + b + c + e + f == x + (a + b + c + e + f)
  {
  }

  lemma Regroup3(x: string, a: string, b: string, c: string)
    ensures x + a + b + c == x + (a + b + c)
  {
  }

  /** Equal strings with the same text around a middle part have the same middle part. */
  lemma MiddleDetermined(p: string, a: string, b: string, s: string)
    ensures p + a + s == p + b + s ==> a == b
  {
    if p + a + s == p + b + s {
      assert |a| == |b|;
      assert a == (p + a + s)[|p|..|p| + |a|];
    }
  }

  /** Equal strings with the same ending have the same beginning. */
  lemma FrontDetermined(a: string, b: string, s: string)
    ensures a + s == b + s ==> a == b
  {
    if a + s == b + s {
      assert a == (a + s)[..|a|];
    }
  }

  /** Equal strings with the same beginning have the same rest. */
  lemma RestDetermined(p: string, a: string, b: string)
    ensures p + a == p + b ==> a == b
  {
    if p + a == p + b {
      assert a == (p + a)[|p|..];
    }
  }

  /** Sequences that agree except in one part have equal colon-joined forms only if that part agrees too. */
  lemma ColonsDetermineMiddle(ps: seq<string>, qs: seq<string>, i: int)
    requires |ps| == |qs| && 0 <= i < |ps|
    requires ps[..i] == qs[..i] && ps[i + 1..] == qs[i + 1..]
    ensures Colons(ps) == Colons(qs) ==> ps[i] == qs[i]
  {
    ColonsAround(ps, i);
    ColonsAround(qs, i);
    MiddleDetermined(Colons(ps[..i]), ":" + ps[i], ":" + qs[i], Colons(ps[i + 1..]));
    assert (":" + ps[i])[1..] == ps[i];
    assert (":" + qs[i])[1..] == qs[i];
  }

  /** `strings.HasPrefix`. */
  predicate HasPrefix(s: string, prefix: string) {
    |prefix| <= |s| && s[..|prefix|] == prefix
  }

  /** Simple case folding of the ASCII letters. */
  function FoldAscii(c: char): char {
    if 'A' <= c <= 'Z' then (c as int + 32) as char else c
  }

  /** `strings.EqualFold`, with case folding restricted to ASCII. */
  predicate EqualFold(a: string, b: string) {
    |a| == |b| && forall i :: 0 <= i < |a| ==> FoldAscii(a[i]) == FoldAscii(b[i])
  }

  function UpperAscii(s: string): (u: string)
    ensures |u| == |s|
    ensures forall i :: 0 <= i < |s| ==> u[i] == (if 'a' <= s[i] <= 'z' then (s[i] as int - 32) as char else s[i])
  {
    seq(|s|, i requires 0 <= i < |s| => if 'a' <= s[i] <= 'z' then (s[i] as int - 32) as char else s[i])
  }

  /** Upper-casing never changes the folded form. */
  lemma EqualFoldUpper(s: string)
    ensures EqualFold(s, UpperAscii(s)) && EqualFold(UpperAscii(s), s)
  {
  }

  lemma EqualFoldReflexive(s: string)
    ensures EqualFold(s, s)
  {
  }
}
