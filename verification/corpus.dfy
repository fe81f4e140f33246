/**
 The thirteen fixture inputs of the generator, each built the way its block in
 `main` builds it: string literals, the fill constructor, counted loops of
 appends, a while loop of appends and resize. A loop is modelled by the string
 it leaves after a given number of passes.
 */
module Corpus {
  import opened ByteStrings

  /** A named fixture input. */
  datatype TestCase = TestCase(name: Bytes, input: Bytes)

  /** The phrase appended by the 100 KB loop, trailing space included. */
  const Chunk: Bytes := "The quick brown fox jumps over the lazy dog. "

  /** Text of every 1 MB log line after its number. */
  const LoremTail: Bytes := ": Lorem ipsum dolor sit amet, consectetur adipiscing elit. "

  const Large100kTarget: nat := 100000
  const Large1MBTarget: nat := 1048576
  const Large10MBTarget: nat := 10485760

  // ----- Cases 1 to 4, 6, 8 and 9: literals and fill constructors -----

  function Empty(): Bytes { "" }

  function SingleByte(): Bytes { "A" }

  function Hello(): Bytes { "Hello, World!" }

  function Repeated(): Bytes { Fill(100, 'a') }

  function LongerText(): Bytes {
    "The quick brown fox jumps over the lazy dog. "
    + "The quick brown fox jumps over the lazy dog. "
    + "The quick brown fox jumps over the lazy dog. "
    + "The quick brown fox jumps over the lazy dog."
  }

  function Large(): Bytes { Fill(10000, 'x') }

  function Mixed(): Bytes { "AAAAAAAbbbbbCCCCCdddEEFF1234567890" }

  // ----- Case 5: twenty appends of "abcdefgh" -----

  const PatternUnit: Bytes := "abcdefgh"

  function Pattern(): Bytes { Repeat(20, PatternUnit) }

  // ----- Case 7: one char per loop counter value 32 .. 126 -----

  /** `ascii` once the loop counter has reached i. */
  function AsciiLoop(i: nat): Bytes
    requires 32 <= i <= 127
  {
    if i == 32 then [] else AsciiLoop(i - 1) + [(i - 1) as char]
  }

  /** The loop's bound: the counter runs while below 127. */
  const AsciiEnd: nat := 127

  function Ascii(): Bytes { AsciiLoop(AsciiEnd) }

  // ----- Case 10: "0 1 2 ... 99 " -----

  /** What pass i of the numbers loop appends: to_string(i) and a space. */
  function NumberEntry(i: nat): Bytes { Decimal(i) + " " }

  /** `numbers` after n passes. */
  function NumbersLoop(n: nat): Bytes { Accumulate(n, NumberEntry) }

  function Numbers(): Bytes { NumbersLoop(100) }

  // ----- Case 11: append the phrase while shorter than 100000, then resize -----

  /** The while loop: append chunk until the string reaches target bytes. */
  function GrowUntil(acc: Bytes, chunk: Bytes, target: nat): Bytes
    requires |chunk| > 0
    decreases target - |acc|
  {
    if |acc| < target then GrowUntil(acc + chunk, chunk, target) else acc
  }

  function Large100k(): Bytes {
    Resize(GrowUntil([], Chunk, Large100kTarget), Large100kTarget)
  }

  // ----- Case 12: 10000 log lines with a letter burst every tenth line, resized -----

  /** The burst letter of line i: 'A' + i % 26. */
  function BurstLetter(i: nat): char {
    ('A' as int + i % 26) as char
  }

  /** Fifty copies of the burst letter on every tenth line, nothing on the others. */
  function Burst(i: nat): Bytes {
    if i % 10 == 0 then Fill(50, BurstLetter(i)) else []
  }

  /** Everything one pass of the 1 MB loop appends. */
  function LogLine(i: nat): Bytes {
    "Line " + Decimal(i) + LoremTail + Burst(i)
  }

  /** `large1mb` after n passes. */
  function LogText(n: nat): Bytes { Accumulate(n, LogLine) }

  function Large1MB(): Bytes { Resize(LogText(10000), Large1MBTarget) }

  // ----- Case 13: 10485760 / 100 appends of a run of 100 'X' -----

  function Large10MB(): Bytes { Repeat(Large10MBTarget / 100, Fill(100, 'X')) }

  // ----- The catalog -----

  /** The thirteen cases, one constructor each. */
  datatype CaseId =
    | EmptyCase | SingleByteCase | HelloCase | RepeatedCase | PatternCase
    | LongerTextCase | AsciiCase | LargeCase | MixedCase | NumbersCase
    | Large100kCase | Large1MBCase | Large10MBCase

  /** The order in which `main` writes the cases. */
  const CaseOrder: seq<CaseId> := [
    EmptyCase, SingleByteCase, HelloCase, RepeatedCase, PatternCase,
    LongerTextCase, AsciiCase, LargeCase, MixedCase, NumbersCase,
    Large100kCase, Large1MBCase, Large10MBCase]

  /** The name a case is written under. */
  function CaseName(id: CaseId): Bytes {
    match id
    case EmptyCase => "empty"
    case SingleByteCase => "single_byte"
    case HelloCase => "hello"
    case RepeatedCase => "repeated"
    case PatternCase => "pattern"
    case LongerTextCase => "longer_text"
    case AsciiCase => "ascii"
    case LargeCase => "large"
    case MixedCase => "mixed"
    case NumbersCase => "numbers"
    case Large100kCase => "large_100kb"
    case Large1MBCase => "large_1mb"
    case Large10MBCase => "large_10mb"
  }

  /** The bytes a case compresses. */
  function CaseInput(id: CaseId): Bytes {
    match id
    case EmptyCase => Empty()
    case SingleByteCase => SingleByte()
    case HelloCase => Hello()
    case RepeatedCase => Repeated()
    case PatternCase => Pattern()
    case LongerTextCase => LongerText()
    case AsciiCase => Ascii()
    case LargeCase => Large()
    case MixedCase => Mixed()
    case NumbersCase => Numbers()
    case Large100kCase => Large100k()
    case Large1MBCase => Large1MB()
    case Large10MBCase => Large10MB()
  }

  /** The catalog: each case's name paired with its input, in the order `main` writes them. */
  function Cases(): seq<TestCase> {
    seq(|CaseOrder|, i requires 0 <= i < |CaseOrder| =>
      TestCase(CaseName(CaseOrder[i]), CaseInput(CaseOrder[i])))
  }
}
