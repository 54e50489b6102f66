/** The sysfs attribute of the hello device (drivers/helloDev/hello.c): the register as decimal text. */
module HelloText {
  import opened CInts
  import opened HelloRegister

  const PAGE_SIZE := 4096

  type Int32 = n: int | -0x8000_0000 <= n < 0x8000_0000

  // ----- the int in its four bytes, least significant first

  function UnsignedOf(w: Word): nat {
    var a: int, b: int, c: int, d: int := w[0], w[1], w[2], w[3];
    a + 0x100 * b + 0x1_0000 * c + 0x100_0000 * d
  }

  function IntOf(w: Word): Int32 {
    if w[3] < 0x80 then UnsignedOf(w) else UnsignedOf(w) - TWO_32
  }

  function WordOf(n: Int32): Word {
    var u: nat := if n < 0 then n + TWO_32 else n;
    [u % 0x100, u / 0x100 % 0x100, u / 0x1_0000 % 0x100, u / 0x100_0000]
  }

  lemma Split(low: nat, high: nat)
    requires low < 0x100
    ensures (low + 0x100 * high) % 0x100 == low && (low + 0x100 * high) / 0x100 == high
  {}

  lemma UnsignedBytes(w: Word)
    ensures var u := UnsignedOf(w);
            [u % 0x100, u / 0x100 % 0x100, u / 0x1_0000 % 0x100, u / 0x100_0000] == w
  {
    var a: int, b: int, c: int, d: int := w[0], w[1], w[2], w[3];
    var u := UnsignedOf(w);
    Split(a, b + 0x100 * (c + 0x100 * d));
    Split(b, c + 0x100 * d);
    Split(c, d);
    assert u / 0x1_0000 == u / 0x100 / 0x100 && u / 0x100_0000 == u / 0x1_0000 / 0x100;
    assert w == [a, b, c, d];
  }

  lemma WordOfIntOf(w: Word)
    ensures WordOf(IntOf(w)) == w
  {
    UnsignedBytes(w);
  }

  lemma IntOfWordOf(n: Int32)
    ensures IntOf(WordOf(n)) == n
  {
    var i: int := n;
    var u := if i < 0 then i + TWO_32 else i;
    var b := u / 0x100;
    var c := b / 0x100;
    assert u / 0x1_0000 == c && u / 0x100_0000 == c / 0x100;
    assert UnsignedOf(WordOf(n)) == u;
  }

  // ----- snprintf(buf, PAGE_SIZE, "%d\n", val)

  function Digit(d: nat): char
    requires d < 10
  {
    '0' + d as char
  }

  function Digits(n: nat): string {
    if n < 10 then [Digit(n)] else Digits(n / 10) + [Digit(n % 10)]
  }

  function Magnitude(n: Int32): nat {
    var i: int := n;
    if i < 0 then -i else i
  }

  function Print(n: Int32): string {
    (if n < 0 then "-" else "") + Digits(Magnitude(n)) + "\n"
  }

  // ----- simple_strtol(buf, NULL, 10), assigned to an int

  predicate IsDigit(c: char) {
    '0' <= c <= '9'
  }

  /** simple_strtoull: digits up to the first other character, in 64-bit arithmetic. */
  function Accumulate(text: string, acc: nat): nat {
    if text == "" || !IsDigit(text[0]) then acc
    else Accumulate(text[1..], (acc * 10 + (text[0] - '0') as int) % TWO_64)
  }

  function Strtol(text: string): int {
    if text != "" && text[0] == '-' then 0 - Accumulate(text[1..], 0) else Accumulate(text, 0)
  }

  /** What a store of the text puts into the register. */
  function Parse(text: string): Int32 {
    S32(Strtol(text))
  }

  // ----- round trip

  lemma AccumulateDigit(d: nat, rest: string, acc: nat)
    requires d < 10 && acc * 10 + d < TWO_64
    ensures Accumulate([Digit(d)] + rest, acc) == Accumulate(rest, acc * 10 + d)
  {
    assert ([Digit(d)] + rest)[1..] == rest;
  }

  lemma {:induction false} AccumulateDigits(n: nat, rest: string)
    requires n < TWO_64
    ensures Accumulate(Digits(n) + rest, 0) == Accumulate(rest, n)
    decreases n
  {
    if n < 10 {
      AccumulateDigit(n, rest, 0);
    } else {
      var last := [Digit(n % 10)] + rest;
      assert Digits(n) + rest == Digits(n / 10) + last;
      AccumulateDigits(n / 10, last);
      AccumulateDigit(n % 10, rest, n / 10);
    }
  }

  lemma DigitsStart(n: nat)
    ensures Digits(n) != "" && IsDigit(Digits(n)[0])
  {}

  /** Reading back what was printed gives the same int, whatever follows the newline. */
  lemma TextRoundTrip(n: Int32, after: string)
    ensures Parse(Print(n) + after) == n
  {
    var rest := "\n" + after;
    var m := Magnitude(n);
    AccumulateDigits(m, rest);
    DigitsStart(m);
    if n < 0 {
      assert (Print(n) + after)[1..] == Digits(m) + rest;
    } else {
      assert Print(n) + after == Digits(m) + rest;
    }
  }

  /** So does reading the digits without the newline, or with anything else behind them that is not a digit. */
  lemma TextAlone(n: Int32, after: string)
    requires after != "" ==> !('0' <= after[0] <= '9')
    ensures Parse((if n < 0 then "-" else "") + Digits(Magnitude(n)) + after) == n
  {
    var m := Magnitude(n);
    var text := (if n < 0 then "-" else "") + Digits(m) + after;
    AccumulateDigits(m, after);
    DigitsStart(m);
    if n < 0 {
      assert text[1..] == Digits(m) + after;
    } else {
      assert text == Digits(m) + after;
    }
  }

  lemma {:induction false} DigitsAreDigits(n: nat)
    ensures forall i :: 0 <= i < |Digits(n)| ==> '0' <= Digits(n)[i] <= '9'
    ensures |Digits(n)| > 1 ==> Digits(n)[0] != '0'
    ensures |Digits(n)| == 1 <==> n < 10
  {
    if n >= 10 {
      DigitsAreDigits(n / 10);
      DigitsStart(n / 10);
    }
  }

  /** The text is a minus sign for a negative number only, then digits, the first of them no 0 unless it is the only
      one, then the newline. */
  lemma PrintShape(n: Int32)
    ensures var text := Print(n);
            var digits := if n < 0 then text[1..|text| - 1] else text[..|text| - 1];
            && text[|text| - 1] == '\n'
            && (n < 0 ==> text[0] == '-')
            && digits != ""
            && (forall i :: 0 <= i < |digits| ==> '0' <= digits[i] <= '9')
            && (|digits| > 1 ==> digits[0] != '0')
  {
    var m := Magnitude(n);
    DigitsAreDigits(m);
    DigitsStart(m);
    var text := Print(n);
    assert (if n < 0 then text[1..|text| - 1] else text[..|text| - 1]) == Digits(m);
  }

  /** Storing what show printed leaves the register's bytes as they are. */
  lemma ShowThenStore(w: Word)
    ensures WordOf(Parse(Print(IntOf(w)))) == w
  {
    TextRoundTrip(IntOf(w), "");
    assert Print(IntOf(w)) + "" == Print(IntOf(w));
    WordOfIntOf(w);
  }

  // ----- length

  function Pow10(k: nat): nat {
    if k == 0 then 1 else 10 * Pow10(k - 1)
  }

  lemma Pow10AtLeastTen(k: nat)
    requires 0 < k
    ensures Pow10(k) >= 10
  {}

  /** A positive number has k digits exactly when it lies between 10^(k-1) and 10^k. */
  lemma {:induction false} DigitsLength(n: nat, k: nat)
    requires 0 < n && 0 < k
    ensures |Digits(n)| == k <==> Pow10(k - 1) <= n < Pow10(k)
  {
    if n >= 10 {
      if k == 1 {
        DigitsStart(n / 10);
      } else {
        DigitsLength(n / 10, k - 1);
      }
    } else if k > 1 {
      Pow10AtLeastTen(k - 1);
    }
  }

  lemma {:induction false} DigitsAtMost(n: nat, k: nat)
    requires 0 < k && n < Pow10(k)
    ensures |Digits(n)| <= k
  {
    if n >= 10 && k > 1 {
      DigitsAtMost(n / 10, k - 1);
    }
  }

  /** The text of any int fits: at most a sign, ten digits and the newline. */
  lemma PrintFitsPage(n: Int32)
    ensures 2 <= |Print(n)| <= 12 < 4096 == PAGE_SIZE
  {
    var m := Magnitude(n);
    DigitsAtMost(m, 10);
    DigitsStart(m);
  }
}
