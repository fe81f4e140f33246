/**
 What the fixture inputs are: sizes, periodicity, alphabets, where the 1 MB
 case stops carrying text, and the exact number of passes each loop makes.
 */
module CorpusProperties {
  import opened ByteStrings
  import opened Corpus

  // ----- Runs of one byte -----

  /**
   `repeated`, `large` and `large_10mb` are runs of a single byte. The 10 MB
   loop runs 10485760 / 100 = 104857 times, so its run is 60 bytes short of
   10485760.
   */
  lemma UniformRuns()
    ensures Repeated() == Fill(100, 'a')
    ensures Large() == Fill(10000, 'x')
    ensures Large10MBTarget / 100 == 104857
    ensures Large10MB() == Fill(10485700, 'X')
    ensures |Large10MB()| == Large10MBTarget - 60
  {
    RepeatFill(104857, 100, 'X');
  }

  // ----- pattern -----

  /** `pattern` is 160 bytes of PatternUnit repeated with period 8. */
  lemma PatternPeriodic()
    ensures |Pattern()| == 160
    ensures forall i :: 0 <= i < 160 ==> Pattern()[i] == PatternUnit[i % 8]
  {
    RepeatLength(20, PatternUnit);
    forall i | 0 <= i < 160
      ensures Pattern()[i] == PatternUnit[i % 8]
    {
      RepeatIndex(20, PatternUnit, i);
    }
  }

  // ----- ascii -----

  /** After the counter reaches i, `ascii` holds the bytes 32 .. i - 1 in order. */
  lemma {:induction false} AsciiLoopShape(i: nat)
    requires 32 <= i <= 127
    ensures |AsciiLoop(i)| == i - 32
    ensures forall k :: 0 <= k < i - 32 ==> AsciiLoop(i)[k] as int == 32 + k
  {
    if i > 32 {
      AsciiLoopShape(i - 1);
      var prev := AsciiLoop(i - 1);
      assert AsciiLoop(i) == prev + [(i - 1) as char];
      forall k | 0 <= k < i - 32
        ensures AsciiLoop(i)[k] as int == 32 + k
      {
        if k < i - 33 {
          assert AsciiLoop(i)[k] == prev[k];
        }
      }
    }
  }

  /**
   `ascii` is the 95 printable bytes 32 .. 126, each at index value - 32, in
   strictly increasing order, so each printable byte occurs exactly once.
   */
  lemma AsciiCoverage()
    ensures |Ascii()| == 95
    ensures forall k :: 0 <= k < 95 ==> Ascii()[k] as int == 32 + k
    ensures forall j, k :: 0 <= j < k < 95 ==> Ascii()[j] < Ascii()[k]
    ensures forall c: char :: 32 <= c as int < 127 ==> c in Ascii()
  {
    AsciiLoopShape(AsciiEnd);
    forall c: char | 32 <= c as int < 127
      ensures c in Ascii()
    {
      assert Ascii()[c as int - 32] == c;
    }
  }

  // ----- numbers -----

  /** Digits written by to_string for 0 .. n - 1 together. */
  function DigitTotal(n: nat): nat
  {
    Sum(n, DigitCount)
  }

  /** Digits written by n passes: one per number below 10, two up to 99, three up to 999, four beyond. */
  function DigitTotalFormula(n: nat): int {
    if n <= 10 then n else if n <= 100 then 2 * n - 10 else if n <= 1000 then 3 * n - 110 else 4 * n - 1110
  }

  /** The closed form grows by the digit count of each new number. */
  lemma DigitTotalFormulaStep(n: nat)
    requires 0 < n <= 10000
    ensures DigitTotalFormula(n) == DigitTotalFormula(n - 1) + DigitCount(n - 1)
  {
  }

  /** DigitTotal over the four decades below 10000, in closed form. */
  lemma {:induction false} DigitTotalClosed(n: nat)
    requires n <= 10000
    ensures DigitTotal(n) == DigitTotalFormula(n)
  {
    if n > 0 {
      DigitTotalClosed(n - 1);
      DigitTotalFormulaStep(n);
    }
  }

  /** Each pass of the numbers loop adds the number's digits and one space. */
  lemma {:induction false} NumbersLoopShape(n: nat)
    ensures |NumbersLoop(n)| == DigitTotal(n) + n
    ensures forall k :: 0 <= k < |NumbersLoop(n)| ==>
      ('0' <= NumbersLoop(n)[k] <= '9') || NumbersLoop(n)[k] == ' '
  {
    if n > 0 {
      NumbersLoopShape(n - 1);
      DecimalLength(n - 1);
      assert DigitTotal(n) == DigitTotal(n - 1) + DigitCount(n - 1);
      assert NumbersLoop(n) == NumbersLoop(n - 1) + NumberEntry(n - 1);
    }
  }

  /**
   `numbers` is 290 bytes (ten one-digit and ninety two-digit numbers, each
   followed by a space), only digits and spaces, starting "0 1 " and ending
   in a space.
   */
  lemma NumbersShape()
    ensures |Numbers()| == 290
    ensures forall k :: 0 <= k < 290 ==> ('0' <= Numbers()[k] <= '9') || Numbers()[k] == ' '
    ensures Numbers()[..4] == "0 1 "
    ensures Numbers()[289] == ' '
  {
    NumbersLength();
    NumbersLoopShape(100);
    NumbersEnd();
    NumbersBegin();
  }

  lemma NumbersLength()
    ensures |Numbers()| == 290
  {
    NumbersLoopShape(100);
    assert DigitTotal(100) == 190 by {
      DigitTotalClosed(100);
    }
  }

  /** The last pass writes 99's digits and a space. */
  lemma NumbersEnd()
    ensures |Numbers()| >= 1 && Numbers()[|Numbers()| - 1] == ' '
  {
  }

  lemma NumbersBegin()
    ensures |Numbers()| >= 4 && Numbers()[..4] == "0 1 "
  {
    NumbersStart();
    AccumulatePrefix(2, 100, NumberEntry);
  }

  /** The first two passes write "0 " and "1 ". */
  lemma NumbersStart()
    ensures NumbersLoop(2) == "0 1 "
  {
  }

  // ----- large_100kb -----

  /**
   From any pass count j up to 2223, the while loop runs on to exactly 2223
   appends of the 45-byte phrase: 2222 appends (99990 bytes) are still short
   of 100000, 2223 appends (100035 bytes) are not.
   */
  lemma {:induction false} GrowFrom(j: nat, k: nat, s: Bytes, target: nat)
    requires |s| > 0 && 0 < k && j <= k
    requires |Repeat(k - 1, s)| < target <= |Repeat(k, s)|
    ensures GrowUntil(Repeat(j, s), s, target) == Repeat(k, s)
    decreases k - j
  {
    if j < k {
      RepeatPrefix(j, k - 1, s);
      assert Repeat(j, s) + s == Repeat(j + 1, s);
      GrowFrom(j + 1, k, s, target);
    }
  }

  /**
   The 100 KB loop stops after 2223 appends at 100035 bytes; resize then keeps
   exactly 100000 bytes, each the phrase's byte at the index modulo 45.
   */
  lemma Large100kShape()
    ensures GrowUntil([], Chunk, Large100kTarget) == Repeat(2223, Chunk)
    ensures |Repeat(2222, Chunk)| < Large100kTarget <= |Repeat(2223, Chunk)| == 100035
    ensures |Large100k()| == 100000
    ensures forall i :: 0 <= i < 100000 ==> Large100k()[i] == Chunk[i % 45]
  {
    RepeatLength(2222, Chunk);
    RepeatLength(2223, Chunk);
    GrowFrom(0, 2223, Chunk, Large100kTarget);
    RepeatLength(2222, Chunk);
    RepeatLength(2223, Chunk);
    forall i | 0 <= i < 100000
      ensures Large100k()[i] == Chunk[i % 45]
    {
      RepeatIndex(2223, Chunk, i);
    }
  }

  /**
   The imperative form of the 100 KB block: the while loop of appends, then
   resize. It reports how many appends the loop made.
   */
  method BuildLarge100k() returns (s: Bytes, appends: nat)
    ensures appends == 2223
    ensures s == Large100k()
  {
    var text: Bytes := [];
    appends := 0;
    while |text| < Large100kTarget
      invariant appends <= 2223
      invariant text == Repeat(appends, Chunk)
      invariant |text| == 45 * appends
      decreases Large100kTarget - |text|
    {
      text := text + Chunk;
      appends := appends + 1;
    }
    s := Resize(text, Large100kTarget);
    Large100kShape();
  }

  /** `longer_text` is the first 179 bytes of `large_100kb`: four phrases less the last space. */
  lemma LongerTextIsPrefixOfLarge100k()
    ensures |LongerText()| == 179
    ensures LongerText() == Large100k()[..179]
  {
    LongerTextPhrases();
    Large100kShape();
    RepeatPrefix(4, 2223, Chunk);
    RepeatLength(4, Chunk);
  }

  lemma LongerTextPhrases()
    ensures LongerText() == Repeat(4, Chunk)[..179]
  {
  }

  // ----- large_1mb -----

  /** Every log line is "Line ", its number, the 59-byte tail and, on every tenth line, 50 burst bytes. */
  lemma LogLineLength(i: nat)
    ensures |LogLine(i)| == 64 + DigitCount(i) + (if i % 10 == 0 then 50 else 0)
  {
  }

  /** Burst bytes written by the first n passes of the 1 MB loop. */
  function BurstTotal(n: nat): nat
  {
    Sum(n, BurstLength)
  }

  function BurstLength(i: nat): nat
  {
    |Burst(i)|
  }

  /** |large1mb| after n passes: 64 bytes per line, the digits, and the bursts. */
  lemma {:induction false} LogTextLength(n: nat)
    ensures |LogText(n)| == 64 * n + DigitTotal(n) + BurstTotal(n)
  {
    if n > 0 {
      assert LogText(n) == LogText(n - 1) + LogLine(n - 1);
      LogTextLength(n - 1);
      LogLineLength(n - 1);
      assert DigitTotal(n) == DigitTotal(n - 1) + DigitCount(n - 1);
      assert BurstTotal(n) == BurstTotal(n - 1) + |Burst(n - 1)|;
    }
  }

  /** One burst of 50 bytes for every multiple of ten below n. */
  lemma {:induction false} BurstTotalClosed(n: nat)
    ensures BurstTotal(n) == 50 * ((n + 9) / 10)
  {
    if n > 0 {
      BurstTotalClosed(n - 1);
      assert BurstTotal(n) == BurstTotal(n - 1) + |Burst(n - 1)|;
      BurstCountStep(n);
    }
  }

  /** Among 0 .. n - 1, one more multiple of ten than among 0 .. n - 2 exactly when n - 1 is one. */
  lemma BurstCountStep(n: nat)
    requires n > 0
    ensures (n + 9) / 10 == (n + 8) / 10 + (if (n - 1) % 10 == 0 then 1 else 0)
  {
  }

  /**
   The 1 MB loop writes 728890 bytes of text (640000 of fixed line text, 38890
   digits, 1000 bursts of 50), short of 1048576, so resize keeps all of it and
   pads the remaining 319686 bytes with NUL.
   */
  lemma Large1MBLayout()
    ensures |LogText(10000)| == 728890
    ensures |Large1MB()| == 1048576
    ensures Large1MB()[..728890] == LogText(10000)
    ensures forall k :: 728890 <= k < 1048576 ==> Large1MB()[k] == '\0'
  {
    LogTextTotal();
  }

  /**
   After a whole number of decades past line 1000, every line so far has cost
   73 bytes on average, less 1110 for the shorter numbers below 1000.
   */
  lemma LogTextLengthClosed(n: nat)
    requires 1000 <= n <= 10000 && n % 10 == 0
    ensures |LogText(n)| == 73 * n - 1110
  {
    LogTextLength(n);
    BurstTotalClosed(n);
    DigitTotalClosed(n);
    assert (n + 9) / 10 == n / 10;
  }

  /** The 1 MB loop's text before resize is 728890 bytes. */
  lemma LogTextTotal()
    ensures |LogText(10000)| == 728890
  {
    LogTextLengthClosed(10000);
  }

  /**
   Line i ends in its burst: 50 copies of 'A' + i % 26, a capital letter, on
   every tenth line, and the lorem tail on the others.
   */
  lemma BurstLetters(i: nat)
    ensures 'A' <= BurstLetter(i) <= 'Z'
    ensures i % 10 == 0 ==> LogLine(i)[|LogLine(i)| - 50..] == Fill(50, BurstLetter(i))
    ensures i % 10 != 0 ==> LogLine(i)[|LogLine(i)| - |LoremTail|..] == LoremTail
  {
  }

  // ----- mixed -----

  /** `mixed` is six runs of distinct letters followed by the ten digits. */
  lemma MixedRuns()
    ensures Mixed() == Fill(7, 'A') + Fill(5, 'b') + Fill(5, 'C') + Fill(3, 'd')
      + Fill(2, 'E') + Fill(2, 'F') + "1234567890"
  {
  }

  // ----- the catalog -----

  /** The names in the order `main` writes them, as listed independently of `CaseName`. */
  const ListedNames: seq<Bytes> := [
    "empty", "single_byte", "hello", "repeated", "pattern", "longer_text", "ascii",
    "large", "mixed", "numbers", "large_100kb", "large_1mb", "large_10mb"]

  /** Where a case stands in the order `main` writes them. */
  function CaseIndex(id: CaseId): (i: nat)
    ensures i < |CaseOrder| && CaseOrder[i] == id
  {
    match id
    case EmptyCase => 0
    case SingleByteCase => 1
    case HelloCase => 2
    case RepeatedCase => 3
    case PatternCase => 4
    case LongerTextCase => 5
    case AsciiCase => 6
    case LargeCase => 7
    case MixedCase => 8
    case NumbersCase => 9
    case Large100kCase => 10
    case Large1MBCase => 11
    case Large10MBCase => 12
  }

  /** The catalog entry at a case's position is that case's name and input. */
  lemma CaseAt(id: CaseId)
    ensures CaseIndex(id) < |Cases()|
    ensures Cases()[CaseIndex(id)] == TestCase(CaseName(id), CaseInput(id))
  {
  }

  /** Every case is written exactly once. */
  lemma CaseOrderComplete()
    ensures |CaseOrder| == 13
    ensures forall id: CaseId :: id in CaseOrder
    ensures forall i :: 0 <= i < |CaseOrder| ==> CaseIndex(CaseOrder[i]) == i
    ensures forall i, j :: 0 <= i < j < |CaseOrder| ==> CaseOrder[i] != CaseOrder[j]
  {
    forall id: CaseId
      ensures id in CaseOrder
    {
      var i := CaseIndex(id);
    }
  }

  /** Different cases have different names. */
  lemma CaseNameInjective(a: CaseId, b: CaseId)
    ensures CaseName(a) == CaseName(b) <==> a == b
  {
  }

  /** The catalog lists the thirteen names in the order `main` writes them. */
  lemma CatalogNames()
    ensures |Cases()| == |ListedNames| == 13
    ensures forall i :: 0 <= i < 13 ==> Cases()[i].name == ListedNames[i]
  {
    OrderNames();
  }

  lemma OrderNames()
    ensures forall i :: 0 <= i < 13 ==> CaseName(CaseOrder[i]) == ListedNames[i]
  {
  }

  /** No two catalog entries share a name. */
  lemma CaseNamesDistinct()
    ensures forall i, j :: 0 <= i < j < |Cases()| ==> Cases()[i].name != Cases()[j].name
  {
    CaseOrderComplete();
    forall i, j | 0 <= i < j < |Cases()|
      ensures Cases()[i].name != Cases()[j].name
    {
      CaseNameInjective(CaseOrder[i], CaseOrder[j]);
    }
  }
}
