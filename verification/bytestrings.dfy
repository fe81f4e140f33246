/**
 The std::string operations the fixture generator builds its inputs with:
 the fill constructor, repeated appends, resize and std::to_string, each on a
 byte string held as a sequence of chars.
 */
module ByteStrings {

  /** One char per byte of a std::string. */
  type Bytes = seq<char>

  /** std::string(n, c): n copies of c. */
  function Fill(n: nat, c: char): (r: Bytes)
    ensures |r| == n
    ensures forall i :: 0 <= i < n ==> r[i] == c
  {
    seq(n, _ => c)
  }

  /** The string left by k passes of a loop whose body is `str += s`, starting from "". */
  function Repeat(k: nat, s: Bytes): Bytes
  {
    if k == 0 then [] else Repeat(k - 1, s) + s
  }

  lemma {:induction false} RepeatLength(k: nat, s: Bytes)
    ensures |Repeat(k, s)| == k * |s|
  {
    if k > 0 {
      RepeatLength(k - 1, s);
    }
  }

  /** A string built by repeated appends of s is periodic with period |s|. */
  lemma {:induction false} RepeatIndex(k: nat, s: Bytes, i: nat)
    requires i < k * |s|
    ensures |Repeat(k, s)| == k * |s|
    ensures Repeat(k, s)[i] == s[i % |s|]
  {
    RepeatLength(k, s);
    if k > 0 {
      var m := (k - 1) * |s|;
      RepeatLength(k - 1, s);
      if i < m {
        RepeatIndex(k - 1, s, i);
      } else {
        ModOffset(k - 1, |s|, i - m);
      }
    }
  }

  /** (q * m + r) % m == r for a remainder r below m. */
  lemma ModOffset(q: nat, m: nat, r: nat)
    requires r < m
    ensures (q * m + r) % m == r
  {
    var x := q * m + r;
    assert x == q * m + r;
    assert (q * m + r) / m == q by {
      DivUnique(x, m, q, r);
    }
  }

  lemma DivUnique(x: nat, m: nat, q: nat, r: nat)
    requires r < m && x == q * m + r
    ensures x / m == q && x % m == r
  {
    var q' := x / m;
    var r' := x % m;
    if q' < q {
      MulGap(q', q - q', m);
    } else if q' > q {
      MulGap(q, q' - q, m);
    }
  }

  /** (a + d) * m is at least m beyond a * m when d is positive. */
  lemma MulGap(a: nat, d: nat, m: nat)
    requires d >= 1
    ensures (a + d) * m >= a * m + m
  {
  }

  /** k appends of a run of m copies of c give one run of k * m copies of c. */
  lemma {:induction false} RepeatFill(k: nat, m: nat, c: char)
    ensures Repeat(k, Fill(m, c)) == Fill(k * m, c)
  {
    if k > 0 {
      RepeatFill(k - 1, m, c);
      assert (k - 1) * m + m == k * m;
    }
  }

  /** A prefix of k appends of s is a prefix of more appends of s. */
  lemma {:induction false} RepeatPrefix(j: nat, k: nat, s: Bytes)
    requires j <= k
    ensures |Repeat(j, s)| <= |Repeat(k, s)|
    ensures Repeat(j, s) == Repeat(k, s)[..|Repeat(j, s)|]
  {
    if j < k {
      RepeatPrefix(j, k - 1, s);
    }
  }

  /** The string left by n passes of a loop whose pass i appends piece(i), starting from "". */
  function Accumulate(n: nat, piece: nat -> Bytes): Bytes
  {
    if n == 0 then [] else Accumulate(n - 1, piece) + piece(n - 1)
  }

  /** A loop of appends only ever extends what earlier passes wrote. */
  lemma {:induction false} AccumulatePrefix(j: nat, n: nat, piece: nat -> Bytes)
    requires j <= n
    ensures |Accumulate(j, piece)| <= |Accumulate(n, piece)|
    ensures Accumulate(n, piece)[..|Accumulate(j, piece)|] == Accumulate(j, piece)
  {
    if j < n {
      AccumulatePrefix(j, n - 1, piece);
    }
  }

  /** f(0) + f(1) + ... + f(n - 1). */
  function Sum(n: nat, f: nat -> nat): nat
  {
    if n == 0 then 0 else Sum(n - 1, f) + f(n - 1)
  }

  /** std::string::resize(n): keep the first n bytes, or pad with NUL bytes up to n. */
  function Resize(s: Bytes, n: nat): (r: Bytes)
    ensures |r| == n
    ensures forall i :: 0 <= i < n && i < |s| ==> r[i] == s[i]
    ensures forall i :: |s| <= i < n ==> r[i] == '\0'
  {
    if n <= |s| then s[..n] else s + Fill(n - |s|, '\0')
  }

  /** The ASCII digit for a value below ten. */
  function DigitChar(d: nat): (c: char)
    requires d < 10
    ensures '0' <= c <= '9'
  {
    ('0' as int + d) as char
  }

  predicate IsDigits(s: Bytes) {
    forall i :: 0 <= i < |s| ==> '0' <= s[i] <= '9'
  }

  /** std::to_string of a non-negative int: its decimal digits, most significant first. */
  function Decimal(n: nat): (r: Bytes)
    ensures |r| >= 1
    ensures IsDigits(r)
    ensures |r| > 1 ==> r[0] != '0'
  {
    if n < 10 then [DigitChar(n)] else Decimal(n / 10) + [DigitChar(n % 10)]
  }

  /** Number of decimal digits of n. */
  function DigitCount(n: nat): nat
  {
    if n < 10 then 1 else 1 + DigitCount(n / 10)
  }

  lemma {:induction false} DecimalLength(n: nat)
    ensures |Decimal(n)| == DigitCount(n)
  {
    if n >= 10 {
      DecimalLength(n / 10);
    }
  }

  /** Digit counts of the four decades that the generator's loop counters reach. */
  lemma DigitCountRanges(n: nat)
    requires n < 10000
    ensures n < 10 ==> DigitCount(n) == 1
    ensures 10 <= n < 100 ==> DigitCount(n) == 2
    ensures 100 <= n < 1000 ==> DigitCount(n) == 3
    ensures 1000 <= n ==> DigitCount(n) == 4
  {
  }

  /** Reads a string of decimal digits back as a number. */
  function ParseDecimal(s: Bytes): nat
    requires IsDigits(s)
  {
    if |s| == 0 then 0
    else ParseDecimal(s[..|s| - 1]) * 10 + (s[|s| - 1] as int - '0' as int)
  }

  /** std::to_string is undone by reading the digits back. */
  lemma {:induction false} DecimalRoundTrip(n: nat)
    ensures ParseDecimal(Decimal(n)) == n
  {
    if n >= 10 {
      var d := Decimal(n);
      assert d[..|d| - 1] == Decimal(n / 10);
      DecimalRoundTrip(n / 10);
    }
  }

  /** Distinct numbers have distinct decimal strings. */
  lemma DecimalInjective(m: nat, n: nat)
    ensures Decimal(m) == Decimal(n) <==> m == n
  {
    if Decimal(m) == Decimal(n) {
      DecimalRoundTrip(m);
      DecimalRoundTrip(n);
    }
  }
}
