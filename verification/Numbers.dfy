/**
  Decimal numbers: powers of ten (utilities.h), the texts that Print and _FLOAT
  write, and the numbers that sscanf reads back. Arithmetic is exact.
 */
module Numbers {
  import opened Octets

  // ---------- powers of ten ----------

  function Pow(n: nat): (p: nat)
    ensures p > 0
  {
    if n == 0 then 1 else 10 * Pow(n - 1)
  }

  function Up(m: real, k: nat): (r: real)
    ensures m >= 0.0 ==> r >= 0.0
  {
    if k == 0 then m else 10.0 * Up(m, k - 1)
  }

  function Down(m: real, k: nat): (r: real)
    ensures m >= 0.0 ==> r >= 0.0
  {
    if k == 0 then m else Down(m, k - 1) / 10.0
  }

  /** m times ten to the power e, one factor at a time. */
  function Scaled(m: real, e: int): (r: real)
    ensures m >= 0.0 ==> r >= 0.0
  {
    if e >= 0 then Up(m, e) else Down(m, -e)
  }

  lemma {:induction false} DownTen(m: real, k: nat)
    ensures Down(10.0 * m, k) == 10.0 * Down(m, k)
  {
    if k > 0 {
      DownTen(m, k - 1);
    }
  }

  lemma {:induction false} UpTenth(m: real, k: nat)
    ensures Up(m / 10.0, k) == Up(m, k) / 10.0
  {
    if k > 0 {
      UpTenth(m, k - 1);
    }
  }

  lemma {:induction false} UpDown(m: real, k: nat)
    ensures Down(Up(m, k), k) == m && Up(Down(m, k), k) == m
  {
    if k > 0 {
      DownTen(Up(m, k - 1), k - 1);
      UpTenth(Down(m, k - 1), k - 1);
      UpDown(m, k - 1);
    }
  }

  /** Scaling by e and by -e undo each other. */
  lemma ScaledBack(m: real, e: int)
    ensures Scaled(Scaled(m, e), -e) == m
  {
    UpDown(m, if e < 0 then -e else e);
  }

  lemma {:induction false} UpSum(a: real, b: real, k: nat)
    ensures Up(a - b, k) == Up(a, k) - Up(b, k) && Down(a - b, k) == Down(a, k) - Down(b, k)
  {
    if k > 0 {
      UpSum(a, b, k - 1);
    }
  }

  lemma ScaledDifference(a: real, b: real, e: int)
    ensures Scaled(a - b, e) == Scaled(a, e) - Scaled(b, e)
    ensures a <= b ==> Scaled(a, e) <= Scaled(b, e)
  {
    UpSum(a, b, if e < 0 then -e else e);
    UpSum(b, a, if e < 0 then -e else e);
  }

  lemma {:induction false} UpProduct(m: real, k: nat)
    ensures Up(m, k) == m * Up(1.0, k)
  {
    if k > 0 {
      UpProduct(m, k - 1);
      Tenfold(m, Up(1.0, k - 1));
    }
  }

  lemma {:induction false} DownProduct(m: real, k: nat)
    ensures Down(m, k) == m * Down(1.0, k)
  {
    if k > 0 {
      DownProduct(m, k - 1);
      Tenth(m, Down(1.0, k - 1));
    }
  }

  lemma Tenfold(m: real, u: real)
    ensures 10.0 * (m * u) == m * (10.0 * u)
  {
  }

  lemma Tenth(m: real, u: real)
    ensures (m * u) / 10.0 == m * (u / 10.0)
  {
  }

  // ---------- pow10 ----------

  /** The exponents pow10 serves; all others count as 0. */
  function Exponent(p: int): int {
    if p < -9 || p > 9 then 0 else p
  }

  function PowerOfTen(p: int): real {
    Scaled(1.0, Exponent(p))
  }

  lemma UpScales(m: real, k: nat)
    ensures Up(1.0, k) > 0.0 && m * Up(1.0, k) == Up(m, k) && m / Up(1.0, k) == Down(m, k)
  {
    Positive(k);
    UpProduct(m, k);
    UpDivides(m, k);
  }

  lemma UpDivides(m: real, k: nat)
    requires Up(1.0, k) > 0.0
    ensures m / Up(1.0, k) == Down(m, k)
  {
    UpDown(m, k);
    UpProduct(Down(m, k), k);
    Divided(m, Down(m, k), Up(1.0, k));
  }

  lemma DownScales(m: real, k: nat)
    ensures Down(1.0, k) > 0.0 && m * Down(1.0, k) == Down(m, k) && m / Down(1.0, k) == Up(m, k)
  {
    Positive(k);
    DownProduct(m, k);
    DownDivides(m, k);
  }

  lemma DownDivides(m: real, k: nat)
    requires Down(1.0, k) > 0.0
    ensures m / Down(1.0, k) == Up(m, k)
  {
    UpDown(m, k);
    DownProduct(Up(m, k), k);
    Divided(m, Up(m, k), Down(1.0, k));
  }

  /** Multiplying and dividing by PowerOfTen scales up and down. */
  lemma PowerScales(m: real, p: int)
    ensures PowerOfTen(p) > 0.0
    ensures m * PowerOfTen(p) == Scaled(m, Exponent(p))
    ensures m / PowerOfTen(p) == Scaled(m, -Exponent(p))
  {
    var e := Exponent(p);
    if e < 0 {
      DownScales(m, -e);
    } else {
      UpScales(m, e);
    }
  }

  lemma {:induction false} Positive(k: nat)
    ensures Up(1.0, k) == Pow(k) as real && Down(1.0, k) > 0.0
  {
    if k > 0 {
      Positive(k - 1);
    }
  }

  /** The factor, from the exponents that pow10 documents: 10^p up to 9 places either way, else 1. */
  lemma PowerIs(p: int)
    ensures 0 <= p <= 9 ==> PowerOfTen(p) == Pow(p) as real
    ensures -9 <= p < 0 ==> PowerOfTen(p) == 1.0 / Pow(-p) as real
    ensures p < -9 || p > 9 ==> PowerOfTen(p) == 1.0
    ensures Pow(0) == 1 && Pow(1) == 10 && Pow(3) == 1000 && Pow(6) == 1_000_000 && Pow(9) == 1_000_000_000
  {
    if 0 <= p <= 9 {
      Positive(p);
    } else if -9 <= p < 0 {
      Positive(-p);
      UpScales(1.0, -p);
    }
    assert Pow(3) == 1000;
    assert Pow(6) == 1000 * Pow(3);
    assert Pow(9) == 1000 * Pow(6);
  }

  lemma Divided(m: real, q: real, u: real)
    requires u > 0.0 && q * u == m
    ensures m / u == q
  {
  }

  lemma {:induction false} PowMonotone(m: nat, n: nat)
    requires m <= n
    ensures Pow(m) <= Pow(n)
  {
    if m < n {
      PowMonotone(m, n - 1);
    }
  }

  lemma PowNine(n: nat)
    requires n <= 9
    ensures Pow(n) <= 1_000_000_000
  {
    PowMonotone(n, 9);
    assert Pow(9) == 1_000_000_000 by {
      assert Pow(3) == 1000;
      assert Pow(6) == 1000 * Pow(3);
      assert Pow(9) == 1000 * Pow(6);
    }
  }

  /** pow10: a 32-bit product, which never wraps for the exponents that reach the loop. */
  method Pow10(p: int) returns (r: real)
    ensures r == PowerOfTen(p)
  {
    if p < -9 || p > 9 {
      return 1.0;
    }
    var val: Word := 1;
    var n := if p < 0 then -p else p;
    for i := 0 to n
      invariant val == Pow(i)
    {
      PowNine(i + 1);
      val := val * 10 % 0x1_0000_0000;
    }
    Positive(n);
    UpScales(1.0, n);
    return if p < 0 then 1.0 / val as real else val as real;
  }

  // ---------- decimal digits ----------

  predicate IsDigit(c: char) {
    '0' <= c <= '9'
  }

  ghost predicate AllDigits(s: string) {
    forall i :: 0 <= i < |s| ==> IsDigit(s[i])
  }

  function DigitOf(n: nat): char
    requires n < 10
  {
    ('0' as int + n) as char
  }

  function DigitValue(c: char): nat {
    if IsDigit(c) then c as int - '0' as int else 0
  }

  /** The number a text of digits stands for. */
  function Value(s: string): nat {
    if s == [] then 0 else 10 * Value(s[..|s| - 1]) + DigitValue(s[|s| - 1])
  }

  /** The decimal text of n with at least w digits. */
  function AtLeast(n: nat, w: nat): (s: string)
    ensures s != [] && |s| >= w && AllDigits(s) && Value(s) == n
    decreases n + w
  {
    if n < 10 && w <= 1 then [DigitOf(n)]
    else
      var front := AtLeast(n / 10, if w == 0 then 0 else w - 1);
      assert (front + [DigitOf(n % 10)])[..|front|] == front;
      front + [DigitOf(n % 10)]
  }

  lemma {:induction false} AtLeastLength(n: nat, w: nat)
    ensures |AtLeast(n, w)| <= if w <= |AtLeast(n, 1)| then |AtLeast(n, 1)| else w
    decreases n + w
  {
    if n >= 10 || w > 1 {
      AtLeastLength(n / 10, if w == 0 then 0 else w - 1);
      assert AtLeast(n / 10, 0) == AtLeast(n / 10, 1);
    }
  }

  /** The decimal text of n, without leading zeros. */
  function Digits(n: nat): string {
    AtLeast(n, 1)
  }

  lemma {:induction false} DigitsShort(n: nat, k: nat)
    requires k > 0 && n < Pow(k)
    ensures |Digits(n)| <= k
    decreases k
  {
    if n >= 10 {
      assert Pow(1) == 10;
      assert n / 10 < Pow(k - 1);
      DigitsShort(n / 10, k - 1);
      assert AtLeast(n / 10, 0) == AtLeast(n / 10, 1);
    }
  }

  /** What is left of n after i digits from the right are dropped. */
  function Dropped(n: nat, i: nat): nat {
    if i == 0 then n else Dropped(n / 10, i - 1)
  }

  lemma LastDigit(n: nat, w: nat)
    ensures var s := AtLeast(n, w); s[|s| - 1] == "0123456789"[n % 10]
    ensures |AtLeast(n, w)| > 1 ==>
              AtLeast(n, w) == AtLeast(n / 10, if w == 0 then 0 else w - 1) + [DigitOf(n % 10)]
  {
  }

  /** The digit i places from the right is the last one of n once i digits are dropped. */
  lemma {:induction false} DigitPlace(n: nat, w: nat, i: nat)
    requires i < |AtLeast(n, w)|
    ensures AtLeast(n, w)[|AtLeast(n, w)| - 1 - i] == "0123456789"[Dropped(n, i) % 10]
    decreases i
  {
    LastDigit(n, w);
    if i > 0 {
      DigitPlace(n / 10, if w == 0 then 0 else w - 1, i - 1);
    }
  }

  /** Digits stand for the number whose decimal text they are. */
  lemma {:induction false} DigitsOnly(s: string)
    requires s != [] && AllDigits(s)
    ensures AtLeast(Value(s), |s|) == s
  {
    var front, last := s[..|s| - 1], s[|s| - 1];
    assert s == front + [last];
    if front == [] {
      assert Value(s) == DigitValue(last) by {
        assert Value([]) == 0;
      }
    } else {
      DigitsOnly(front);
      var v := Value(front);
      assert Value(s) == 10 * v + DigitValue(last);
      assert Value(s) / 10 == v && Value(s) % 10 == DigitValue(last);
    }
  }

  // ---------- printing ----------

  /** n units of 10^-p */
  function Decimal(n: nat, p: nat): (r: real)
    ensures r >= 0.0
  {
    Down(n as real, p)
  }

  /** n units of 10^-p with p decimals: the text _FLOAT writes once the value is rounded to p decimals. */
  function FixedPoint(n: nat, p: nat): string {
    var d := AtLeast(n, p + 1);
    if p == 0 then d else d[..|d| - p] + "." + d[|d| - p..]
  }

  /** The point stands in front of the last p digits, and there is none when p is 0. */
  lemma PointPlace(n: nat, p: nat)
    ensures p == 0 ==> FixedPoint(n, p) == Digits(n)
    ensures p > 0 ==>
              var s, d := FixedPoint(n, p), AtLeast(n, p + 1);
              && |s| == |d| + 1 && |d| > p && s[|s| - 1 - p] == '.'
              && s[..|s| - 1 - p] + s[|s| - p..] == d
  {
    var d := AtLeast(n, p + 1);
    if p > 0 {
      assert d[..|d| - p] + d[|d| - p..] == d;
    }
  }

  lemma FixedPointChars(n: nat, p: nat)
    ensures FixedPoint(n, p) != []
    ensures forall i :: 0 <= i < |FixedPoint(n, p)| ==> IsDigit(FixedPoint(n, p)[i]) || FixedPoint(n, p)[i] == '.'
  {
    var d := AtLeast(n, p + 1);
    assert FixedPoint(n, p) != [];
  }

  function NumberText(negative: bool, n: nat, p: nat): string {
    if negative then "-" + FixedPoint(n, p) else FixedPoint(n, p)
  }

  function NumberValue(negative: bool, n: nat, p: nat): real {
    if negative then -Decimal(n, p) else Decimal(n, p)
  }

  // ---------- reading ----------

  /** The first place from i on where s holds no digit. */
  function DigitsEnd(s: string, i: nat): (k: nat)
    requires i <= |s|
    ensures i <= k <= |s|
    decreases |s| - i
  {
    if i == |s| || !IsDigit(s[i]) then i else DigitsEnd(s, i + 1)
  }

  lemma {:induction false} DigitsEndIs(s: string, i: nat, k: nat)
    requires i <= k <= |s| && AllDigits(s[i..k]) && (k < |s| ==> !IsDigit(s[k]))
    ensures DigitsEnd(s, i) == k
    decreases k - i
  {
    if i < k {
      assert s[i..k][0] == s[i];
      assert s[i + 1..k] == s[i..k][1..];
      DigitsEndIs(s, i + 1, k);
    }
  }

  /** The first place from i on where s holds no white space. */
  function Blank(s: string, i: nat): (k: nat)
    requires i <= |s|
    ensures i <= k <= |s|
    decreases |s| - i
  {
    if i < |s| && s[i] in " \t\n\r\U{0b}\U{0c}" then Blank(s, i + 1) else i
  }

  function Negated(r: Option<real>): Option<real> {
    match r
    case None => None
    case Some(v) => Some(-v)
  }

  /** What "%lf" reads from s: white space, a sign, digits with a point, and an exponent. */
  function ScanReal(s: string): Option<real> {
    var t := s[Blank(s, 0)..];
    if t == [] then None
    else if t[0] == '-' then Negated(ScanUnsigned(t[1..]))
    else if t[0] == '+' then ScanUnsigned(t[1..])
    else ScanUnsigned(t)
  }

  function ScanUnsigned(s: string): Option<real> {
    var i := DigitsEnd(s, 0);
    var dot := i < |s| && s[i] == '.';
    var f := if dot then i + 1 else i;
    var j := if dot then DigitsEnd(s, f) else f;
    if i == 0 && j == f then None
    else Some(Scaled(Value(s[0..i] + s[f..j]) as real, ScanExponent(s[j..]) - (j - f)))
  }

  /** The exponent s starts with; an unfinished exponent is given back and counts as none. */
  function ScanExponent(s: string): int {
    if s == [] || s[0] !in "eE" then 0
    else
      var i := if 1 < |s| && s[1] in "+-" then 2 else 1;
      var e: int := Value(s[i..DigitsEnd(s, i)]);
      if i == 2 && s[1] == '-' then -e else e
  }

  /** What "%d" reads from s. */
  function ScanInt(s: string): Option<int> {
    var t := s[Blank(s, 0)..];
    var i := if t != [] && t[0] in "+-" then 1 else 0;
    var k := DigitsEnd(t, i);
    var v: int := Value(t[i..k]);
    if k == i then None
    else if i == 1 && t[0] == '-' then Some(-v)
    else Some(v)
  }

  // ---------- reading undoes printing ----------

  /** t ends a number that is printed in front of it. */
  predicate Ends(t: string) {
    t == [] || !(IsDigit(t[0]) || t[0] in ".eE")
  }

  lemma ScanDigits(n: nat, t: string)
    requires Ends(t)
    ensures ScanInt(Digits(n) + t) == Some(n)
  {
    var s := Digits(n) + t;
    assert IsDigit(s[0]) && Blank(s, 0) == 0 && s[0..] == s;
    assert s[0..|Digits(n)|] == Digits(n);
    DigitsEndIs(s, 0, |Digits(n)|);
  }

  lemma ScanFixedPoint(n: nat, p: nat, t: string)
    requires Ends(t)
    ensures ScanReal(FixedPoint(n, p) + t) == Some(Decimal(n, p))
  {
    ScanUnsignedFixed(n, p, t);
    DigitFirst(FixedPoint(n, p) + t);
  }

  lemma ScanNegative(n: nat, p: nat)
    ensures ScanReal("-" + FixedPoint(n, p)) == Negated(Some(Decimal(n, p)))
  {
    ScanUnsignedFixed(n, p, []);
    assert FixedPoint(n, p) + [] == FixedPoint(n, p);
    DigitFirst(FixedPoint(n, p));
  }

  /** Reading a printed number gives back exactly the number it was printed from. */
  lemma ScanNumber(negative: bool, n: nat, p: nat)
    ensures ScanReal(NumberText(negative, n, p)) == Some(NumberValue(negative, n, p))
  {
    if negative {
      ScanNegative(n, p);
    } else {
      assert FixedPoint(n, p) + [] == FixedPoint(n, p);
      ScanFixedPoint(n, p, []);
    }
  }

  lemma DigitFirst(s: string)
    requires s != [] && IsDigit(s[0])
    ensures ScanReal(s) == ScanUnsigned(s) && ScanReal("-" + s) == Negated(ScanUnsigned(s))
  {
    assert Blank(s, 0) == 0 && s[0..] == s;
    var m := "-" + s;
    assert Blank(m, 0) == 0 && m[0..] == m && m[1..] == s;
  }

  lemma ScanUnsignedFixed(n: nat, p: nat, t: string)
    requires Ends(t)
    ensures ScanUnsigned(FixedPoint(n, p) + t) == Some(Decimal(n, p))
    ensures IsDigit((FixedPoint(n, p) + t)[0])
  {
    var d := AtLeast(n, p + 1);
    if p == 0 {
      ScanWhole(d, t);
    } else {
      var whole, part := d[..|d| - p], d[|d| - p..];
      assert whole + part == d && IsDigit(whole[0]);
      ScanPointed(whole, part, t);
    }
  }

  lemma ScanWhole(whole: string, t: string)
    requires whole != [] && AllDigits(whole) && Ends(t)
    ensures ScanUnsigned(whole + t) == Some(Value(whole) as real)
  {
    var s, i := whole + t, |whole|;
    assert s[0..i] == whole && s[i..] == t;
    DigitsEndIs(s, 0, i);
    assert s[0..i] + s[i..i] == whole;
  }

  lemma ScanPointed(whole: string, part: string, t: string)
    requires whole != [] && AllDigits(whole) && part != [] && AllDigits(part) && Ends(t)
    ensures ScanUnsigned(whole + "." + part + t) == Some(Decimal(Value(whole + part), |part|))
  {
    var s := whole + "." + part + t;
    var i, j := |whole|, |whole| + 1 + |part|;
    assert s[0..i] == whole && s[i] == '.';
    DigitsEndIs(s, 0, i);
    assert s[i + 1..j] == part && s[j..] == t;
    DigitsEndIs(s, i + 1, j);
    PointedParts(s, i, j);
    UnitsBelow(Value(whole + part), |part|);
  }

  /** The digits before and behind the point, which nothing follows. */
  lemma PointedParts(s: string, i: nat, j: nat)
    requires 0 < i < |s| && s[i] == '.' && i < j <= |s|
    requires DigitsEnd(s, 0) == i && DigitsEnd(s, i + 1) == j && Ends(s[j..])
    ensures ScanUnsigned(s) == Some(Scaled(Value(s[0..i] + s[i + 1..j]) as real, 0 - (j - (i + 1))))
  {
    assert ScanExponent(s[j..]) == 0;
  }

  lemma UnitsBelow(n: nat, p: nat)
    ensures Scaled(n as real, 0 - p) == Decimal(n, p)
  {
  }

  // ---------- what "%lf" and "%d" read, for every text ----------

  ghost predicate White(s: string) {
    forall i :: 0 <= i < |s| ==> s[i] == ' ' || 9 <= s[i] as int <= 13
  }

  lemma {:induction false} BlankSkips(s: string, i: nat, k: nat)
    requires i <= k <= |s| && White(s[i..k]) && (k < |s| ==> s[k] != ' ' && !(9 <= s[k] as int <= 13))
    ensures Blank(s, i) == k
    decreases k - i
  {
    if i < k {
      assert s[i..k][0] == s[i];
      assert s[i + 1..k] == s[i..k][1..];
      BlankSkips(s, i + 1, k);
    }
  }

  predicate IsSign(s: string) {
    s == "" || s == "+" || s == "-"
  }

  datatype Exponential = Plain | Exponential(letter: char, sign: string, digits: string)

  /** The parts of a number: whole digits, digits behind a point, and an exponent. */
  datatype Parts = Parts(whole: string, point: bool, part: string, exponent: Exponential)

  ghost predicate GoodParts(q: Parts) {
    && AllDigits(q.whole) && AllDigits(q.part) && q.whole + q.part != [] && (q.part != [] ==> q.point)
    && match q.exponent
       case Plain => true
       case Exponential(letter, sign, digits) =>
         (letter == 'e' || letter == 'E') && IsSign(sign) && digits != [] && AllDigits(digits)
  }

  function ExponentText(e: Exponential): string {
    match e
    case Plain => ""
    case Exponential(letter, sign, digits) => [letter] + sign + digits
  }

  function ExponentValue(e: Exponential): int {
    match e
    case Plain => 0
    case Exponential(_, sign, digits) => if sign == "-" then 0 - Value(digits) else Value(digits)
  }

  /** The text of a number without its sign, and the number. */
  function PartsText(q: Parts): string {
    q.whole + (if q.point then "." else "") + q.part + ExponentText(q.exponent)
  }

  function PartsValue(q: Parts): real {
    Scaled(Value(q.whole + q.part) as real, ExponentValue(q.exponent) - |q.part|)
  }

  /** An exponent with at least one digit; without one the letter does not belong to the number. */
  predicate StartsExponent(rest: string) {
    && |rest| > 1 && (rest[0] == 'e' || rest[0] == 'E')
    && (IsDigit(rest[1]) || ((rest[1] == '+' || rest[1] == '-') && |rest| > 2 && IsDigit(rest[2])))
  }

  /** rest does not go on with the number in front of it. */
  ghost predicate StopsAt(q: Parts, rest: string) {
    rest == [] ||
    (&& !('0' <= rest[0] <= '9')
     && (q.exponent.Plain? ==> !StartsExponent(rest) && (!q.point ==> rest[0] != '.')))
  }

  lemma ExponentReads(q: Parts, rest: string, tail: string)
    requires GoodParts(q) && StopsAt(q, rest) && tail == ExponentText(q.exponent) + rest
    ensures ScanExponent(tail) == ExponentValue(q.exponent)
  {
    match q.exponent
    case Plain =>
      assert tail == rest;
      NoExponent(rest);
    case Exponential(letter, sign, digits) =>
      SignedExponent(letter, sign, digits, rest);
  }

  lemma NoExponent(rest: string)
    requires !StartsExponent(rest)
    ensures ScanExponent(rest) == 0
  {
    if rest != [] && (rest[0] == 'e' || rest[0] == 'E') {
      var i := if 1 < |rest| && rest[1] in "+-" then 2 else 1;
      assert DigitsEnd(rest, i) == i;
      assert rest[i..i] == [];
    }
  }

  lemma SignedExponent(letter: char, sign: string, digits: string, rest: string)
    requires (letter == 'e' || letter == 'E') && IsSign(sign) && digits != [] && AllDigits(digits)
    requires rest == [] || !IsDigit(rest[0])
    ensures ScanExponent([letter] + sign + digits + rest) == if sign == "-" then 0 - Value(digits) else Value(digits)
  {
    var s, i := [letter] + sign + digits + rest, 1 + |sign|;
    var k := i + |digits|;
    assert s[i..k] == digits && s[i] == digits[0];
    assert k < |s| ==> s[k] == rest[0];
    assert sign != "" ==> s[1] == sign[0];
    DigitsEndIs(s, i, k);
  }

  lemma UnsignedParts(s: string, i: nat, f: nat, j: nat)
    requires i <= f <= j <= |s| && DigitsEnd(s, 0) == i && (i > 0 || j > f)
    requires if i < |s| && s[i] == '.' then f == i + 1 && DigitsEnd(s, f) == j else f == i == j
    ensures ScanUnsigned(s) == Some(Scaled(Value(s[0..i] + s[f..j]) as real, ScanExponent(s[j..]) - (j - f)))
  {
  }

  /** Where the parts stand in a text. */
  ghost predicate PartsAt(s: string, q: Parts, tail: string, i: nat, f: nat, j: nat) {
    && i <= f <= j <= |s| && i == |q.whole| && f == i + (if q.point then 1 else 0) && j == f + |q.part|
    && s[0..i] == q.whole && s[f..j] == q.part && s[j..] == tail && (q.point ==> s[i] == '.')
  }

  lemma PartsStand(s: string, q: Parts, rest: string, i: nat, f: nat)
    requires s == PartsText(q) + rest && i == |q.whole| && f == i + if q.point then 1 else 0
    ensures PartsAt(s, q, ExponentText(q.exponent) + rest, i, f, f + |q.part|)
  {
  }

  lemma DigitsStand(s: string, q: Parts, tail: string, i: nat, f: nat, j: nat)
    requires GoodParts(q) && PartsAt(s, q, tail, i, f, j)
    requires tail == [] || (!IsDigit(tail[0]) && (!q.point ==> tail[0] != '.'))
    ensures DigitsEnd(s, 0) == i
    ensures if i < |s| && s[i] == '.' then f == i + 1 && DigitsEnd(s, f) == j else f == i == j
  {
    assert j < |s| ==> s[j] == tail[0];
    DigitsEndIs(s, 0, i);
    if q.point {
      DigitsEndIs(s, f, j);
    }
  }

  lemma UnsignedAt(s: string, q: Parts, tail: string, i: nat, f: nat, j: nat)
    requires GoodParts(q) && PartsAt(s, q, tail, i, f, j)
    requires tail == [] || (!IsDigit(tail[0]) && (!q.point ==> tail[0] != '.'))
    requires ScanExponent(tail) == ExponentValue(q.exponent)
    ensures ScanUnsigned(s) == Some(PartsValue(q))
  {
    DigitsStand(s, q, tail, i, f, j);
    UnsignedParts(s, i, f, j);
  }

  lemma TailStops(q: Parts, rest: string, tail: string)
    requires GoodParts(q) && StopsAt(q, rest) && tail == ExponentText(q.exponent) + rest
    ensures tail == [] || (!IsDigit(tail[0]) && (!q.point ==> tail[0] != '.'))
  {
    if q.exponent.Exponential? {
      assert tail[0] == q.exponent.letter;
    } else {
      assert tail == rest;
    }
  }

  lemma PartsRead(s: string, q: Parts, rest: string)
    requires GoodParts(q) && StopsAt(q, rest) && s == PartsText(q) + rest
    ensures ScanUnsigned(s) == Some(PartsValue(q))
  {
    hide ScanUnsigned, ScanExponent;
    var i := |q.whole|;
    var f := i + if q.point then 1 else 0;
    var tail := ExponentText(q.exponent) + rest;
    PartsStand(s, q, rest, i, f);
    TailStops(q, rest, tail);
    ExponentReads(q, rest, tail);
    UnsignedAt(s, q, tail, i, f, f + |q.part|);
  }

  lemma TextStarts(s: string, q: Parts, rest: string)
    requires GoodParts(q) && s == PartsText(q) + rest
    ensures s != [] && (IsDigit(s[0]) || s[0] == '.')
  {
    if q.whole != [] {
      assert s[0] == q.whole[0];
    } else {
      assert s[0] == '.';
    }
  }

  lemma SpaceSkipped(s: string, space: string, t: string)
    requires White(space) && (t == [] || (t[0] != ' ' && !(9 <= t[0] as int <= 13))) && s == space + t
    ensures s[Blank(s, 0)..] == t
  {
    var k := |space|;
    assert s[0..k] == space && s[k..] == t;
    BlankSkips(s, 0, k);
  }

  lemma Unsigned(s: string, t: string)
    requires s[Blank(s, 0)..] == t && (t == [] || (t[0] != '+' && t[0] != '-'))
    ensures ScanReal(s) == ScanUnsigned(t)
  {
  }

  lemma Signed(s: string, sign: char, t: string)
    requires s[Blank(s, 0)..] == [sign] + t && (sign == '+' || sign == '-')
    ensures ScanReal(s) == if sign == '-' then Negated(ScanUnsigned(t)) else ScanUnsigned(t)
  {
    assert ([sign] + t)[1..] == t;
  }

  /** Behind white space and a sign, what is read is what the rest reads as without a sign. */
  lemma SignRead(s: string, space: string, sign: string, t: string)
    requires White(space) && IsSign(sign) && s == space + (sign + t)
    requires sign == "" ==> t == [] || (t[0] != ' ' && !(9 <= t[0] as int <= 13) && t[0] != '+' && t[0] != '-')
    ensures ScanReal(s) == if sign == "-" then Negated(ScanUnsigned(t)) else ScanUnsigned(t)
  {
    hide ScanUnsigned;
    if sign == "" {
      assert sign + t == t;
      SpaceSkipped(s, space, t);
      Unsigned(s, t);
    } else {
      assert sign + t == [sign[0]] + t;
      SpaceSkipped(s, space, [sign[0]] + t);
      Signed(s, sign[0], t);
    }
  }

  lemma SignedNumber(s: string, space: string, sign: string, t: string, v: real)
    requires White(space) && IsSign(sign) && s == space + (sign + t)
    requires t != [] && (IsDigit(t[0]) || t[0] == '.') && ScanUnsigned(t) == Some(v)
    ensures ScanReal(s) == Some(if sign == "-" then -v else v)
  {
    hide ScanUnsigned, ScanReal;
    SignRead(s, space, sign, t);
  }

  /**
    Every number text is read with its sign, its point and its exponent, behind
    white space and in front of other text.
   */
  lemma ScanExact(s: string, space: string, sign: string, q: Parts, rest: string, t: string)
    requires White(space) && IsSign(sign) && GoodParts(q) && StopsAt(q, rest)
    requires t == PartsText(q) + rest && s == space + (sign + t)
    ensures ScanReal(s) == Some(if sign == "-" then -PartsValue(q) else PartsValue(q))
  {
    hide ScanUnsigned, ScanReal;
    PartsRead(t, q, rest);
    TextStarts(t, q, rest);
    SignedNumber(s, space, sign, t, PartsValue(q));
  }

  /** Where no digit stands behind white space, sign and point, nothing is read. */
  lemma NothingRead(space: string, sign: string, t: string)
    requires White(space) && IsSign(sign)
    requires sign == "" ==> t == [] || (t[0] != ' ' && !(9 <= t[0] as int <= 13) && t[0] != '+' && t[0] != '-')
    ensures ScanReal(space + (sign + t)) == None <==>
            !(|t| > 0 && IsDigit(t[0])) && !(|t| > 1 && t[0] == '.' && IsDigit(t[1]))
  {
    SignRead(space + (sign + t), space, sign, t);
  }

  /** "%d": white space, a sign and digits. */
  lemma ScanIntExact(s: string, space: string, sign: string, digits: string, rest: string)
    requires White(space) && IsSign(sign) && AllDigits(digits) && (rest == [] || !IsDigit(rest[0]))
    requires digits == [] && sign == "" ==>
               rest == [] || (rest[0] != ' ' && !(9 <= rest[0] as int <= 13) && rest[0] != '+' && rest[0] != '-')
    requires s == space + (sign + digits + rest)
    ensures ScanInt(s)
         == if digits == [] then None else Some(if sign == "-" then 0 - Value(digits) else Value(digits))
  {
    hide ScanInt;
    var t := sign + digits + rest;
    IntegerStands(t, sign, digits, rest);
    SpaceSkipped(s, space, t);
    IntegerParts(s, t, |sign|, |sign| + |digits|);
  }

  lemma IntegerStands(t: string, sign: string, digits: string, rest: string)
    requires IsSign(sign) && AllDigits(digits) && (rest == [] || !IsDigit(rest[0])) && t == sign + digits + rest
    requires digits == [] && sign == "" ==>
               rest == [] || (rest[0] != ' ' && !(9 <= rest[0] as int <= 13) && rest[0] != '+' && rest[0] != '-')
    ensures var i := |sign|;
            && i <= 1 && t[i..i + |digits|] == digits && DigitsEnd(t, i) == i + |digits|
            && (t == [] || (t[0] != ' ' && !(9 <= t[0] as int <= 13))) && (i == 1 ==> t[0] == sign[0])
            && (i == 1 <==> t != [] && (t[0] == '+' || t[0] == '-'))
  {
    var i := |sign|;
    var k := i + |digits|;
    assert t[i..k] == digits;
    assert k < |t| ==> t[k] == rest[0];
    if sign != "" {
      assert t[0] == sign[0];
    } else if digits != [] {
      assert t[0] == digits[0];
    } else {
      assert t == rest;
    }
    DigitsEndIs(t, i, k);
  }

  lemma IntegerParts(s: string, t: string, i: nat, k: nat)
    requires s[Blank(s, 0)..] == t && i <= k <= |t|
    requires (i == 1 <==> t != [] && (t[0] == '+' || t[0] == '-')) && i <= 1 && DigitsEnd(t, i) == k
    ensures ScanInt(s) == if k == i then None
                          else Some(if i == 1 && t[0] == '-' then 0 - Value(t[i..k]) else Value(t[i..k]))
  {
  }
}
