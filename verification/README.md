# Snappy fixture generator and validator, modelled in Dafny

Two small C++ programs sit beside a Swift port of the Snappy compression
format. `generate_test_data.cpp` builds thirteen named inputs, compresses each
with the Snappy reference library and writes the result to
`Tests/SnappySwiftTests/TestData/<name>.snappy`. `validate_snappy.cpp` takes a
compressed file and an expected size. It asks the library whether the buffer
is well formed, what length it declares and what it decompresses to. It exits
0 only when every answer agrees with the expected size.

This project models both programs. The Snappy library is an oracle passed in
as a value (`Codec.Oracle`): a compress function, a validity test, a length
query and a decompress function, the last two with an optional result. Every
property holds for any library. Where a lemma needs the library to behave as a
lossless codec, it says so with `Codec.RoundTrips`.

Layout:

- `wrappers.dfy`: `Option`, for the library's "bool success plus out-parameter" results.
- `bytestrings.dfy`: the std::string operations the generator uses, on byte strings held as `seq<char>`. These are the fill constructor, repeated appends, resize and `std::to_string`.
- `codec.dfy`: the library oracle.
- `corpus.dfy`: the thirteen inputs as the generator builds them, and the catalog in write order. Each loop is modelled by the string it leaves after a given number of passes.
- `corpus_properties.dfy`: what the inputs are. This covers sizes, periodicity, alphabets, loop pass counts, the 1 MB case's NUL padding, and name order and uniqueness.
- `generator.dfy`: fixture paths and their inverse, `writeTestCase`, and the directory state that `main` leaves.
- `validator.dfy`: the validator's `main` as a pure function from command line and library to a report. The report gives the exit code, the deciding check, the steps taken and the sizes seen.
- `end_to_end.dfy`: the two programs together. Every fixture written by the generator passes the validator when given its input's size, if the library round-trips.

Facts about the source that the proofs establish:

- The 10 MB case is 104857 appends of 100 bytes, which is 10485700 bytes, 60 bytes short of 10485760.
- The 1 MB case's loop writes only 728890 bytes. Resize pads the remaining 319686 bytes with NUL.
- The 100 KB loop stops after 2223 appends at 100035 bytes. Resize then cuts it back to 100000.
- The validator compares only the decompressed size with the expected size, never the bytes themselves. `Validator.VerdictIgnoresContent` states this.

## Model

| member | source | states |
|---|---|---|
| ByteStrings.Fill | generate_test_data.cpp:42 | `std::string(n, c)` has length n and every byte is c |
| ByteStrings.RepeatIndex | generate_test_data.cpp:45-48 | k appends of s give a string of length k·\|s\| whose byte i is s[i mod \|s\|] |
| ByteStrings.RepeatFill | generate_test_data.cpp:105-108 | k appends of a run of m copies of c give one run of k·m copies of c |
| ByteStrings.RepeatPrefix | generate_test_data.cpp:84-86 | fewer appends of s give a prefix of more appends of s |
| ByteStrings.AccumulatePrefix | generate_test_data.cpp:76-78 | a loop of appends only extends what earlier passes wrote: the string after j passes is a prefix of the string after n ≥ j passes |
| ByteStrings.Resize | generate_test_data.cpp:87 | `resize(n)` gives length n, keeps the first min(n, \|s\|) bytes and fills the rest with NUL |
| ByteStrings.Decimal | generate_test_data.cpp:77 | `std::to_string` of a non-negative number is a non-empty string of decimal digits with no leading zero |
| ByteStrings.DecimalLength | generate_test_data.cpp:77 | `std::to_string(n)` has as many bytes as n has decimal digits |
| ByteStrings.DecimalRoundTrip | generate_test_data.cpp:77 | reading the digits of `std::to_string(n)` back gives n |
| ByteStrings.DecimalInjective | generate_test_data.cpp:77 | distinct numbers have distinct decimal strings, and equal numbers equal ones |
| CorpusProperties.UniformRuns | generate_test_data.cpp:101-109 | `repeated` is 100 × 'a', `large` 10000 × 'x'; the 10 MB loop runs 104857 times and leaves 10485700 × 'X', 60 bytes short of 10485760 |
| CorpusProperties.PatternPeriodic | generate_test_data.cpp:44-49 | `pattern` has 160 bytes, byte i being "abcdefgh"[i mod 8] |
| CorpusProperties.AsciiLoopShape | generate_test_data.cpp:60-63 | once the counter reaches i, the string holds bytes 32 .. i−1 in order, byte k being 32 + k |
| CorpusProperties.AsciiCoverage | generate_test_data.cpp:59-64 | `ascii` has 95 bytes, byte k being 32 + k, strictly increasing, and every byte 32 .. 126 occurs in it |
| CorpusProperties.DigitTotalFormulaStep | generate_test_data.cpp:76-77 | the closed digit-count formula grows by the digit count of each new loop counter |
| CorpusProperties.DigitTotalClosed | generate_test_data.cpp:76-77 | the digits `to_string` writes for 0 .. n−1 total n, 2n−10, 3n−110 or 4n−1110 in the four decades up to 10000 |
| CorpusProperties.NumbersLoopShape | generate_test_data.cpp:75-78 | after n passes the string has one byte per digit plus one space per pass, and holds only digits and spaces |
| CorpusProperties.NumbersShape | generate_test_data.cpp:74-79 | `numbers` has 290 bytes, only digits and spaces, begins "0 1 " and ends in a space |
| CorpusProperties.NumbersLength | generate_test_data.cpp:74-79 | `numbers` has 290 bytes |
| CorpusProperties.NumbersEnd | generate_test_data.cpp:76-78 | the last byte of `numbers` is the space after 99 |
| CorpusProperties.NumbersBegin | generate_test_data.cpp:76-78 | `numbers` begins "0 1 " |
| CorpusProperties.NumbersStart | generate_test_data.cpp:76-78 | the first two passes write exactly "0 1 " |
| CorpusProperties.GrowFrom | generate_test_data.cpp:84-86 | the append-while-short loop, started from any number of appends up to k, stops at exactly k appends, where k appends is the first count reaching the target |
| CorpusProperties.Large100kShape | generate_test_data.cpp:81-88 | the 100 KB loop stops after 2223 appends at 100035 bytes (2222 appends are short of 100000); after resize `large_100kb` has 100000 bytes, byte i being the phrase's byte i mod 45 |
| CorpusProperties.BuildLarge100k | generate_test_data.cpp:82-87 | the imperative while loop makes 2223 appends and, after resize, yields `large_100kb` |
| CorpusProperties.LongerTextPhrases | generate_test_data.cpp:52-56 | `longer_text` is four copies of the phrase less the final space |
| CorpusProperties.LongerTextIsPrefixOfLarge100k | generate_test_data.cpp:51-56 | `longer_text` has 179 bytes and is exactly the first 179 bytes of `large_100kb` |
| CorpusProperties.LogLineLength | generate_test_data.cpp:93-96 | pass i of the 1 MB loop appends 64 bytes plus the digits of i, plus 50 on every tenth pass |
| CorpusProperties.LogTextLength | generate_test_data.cpp:92-97 | after n passes the 1 MB text has 64n bytes plus all digits written plus all burst bytes |
| CorpusProperties.BurstTotalClosed | generate_test_data.cpp:94-96 | the first n passes write one 50-byte burst for each multiple of ten below n |
| CorpusProperties.BurstCountStep | generate_test_data.cpp:94 | pass n−1 adds a burst exactly when n−1 is a multiple of ten |
| CorpusProperties.LogTextLengthClosed | generate_test_data.cpp:92-97 | after n passes (1000 ≤ n ≤ 10000, n a multiple of ten) the text has 73n − 1110 bytes |
| CorpusProperties.LogTextTotal | generate_test_data.cpp:92-97 | the 10000 passes write 728890 bytes |
| CorpusProperties.Large1MBLayout | generate_test_data.cpp:90-98 | `large_1mb` has 1048576 bytes: the 728890 bytes of log text, then NUL up to the end |
| CorpusProperties.BurstLetters | generate_test_data.cpp:93-96 | the burst letter is a capital 'A' + i mod 26; on every tenth line the last 50 bytes are that letter, and other lines end in the lorem tail |
| CorpusProperties.MixedRuns | generate_test_data.cpp:71 | `mixed` is runs of 7 'A', 5 'b', 5 'C', 3 'd', 2 'E', 2 'F' followed by the ten digits |
| CorpusProperties.CaseIndex | generate_test_data.cpp:33-109 | each case has a position in write order, and the case written at that position is that case |
| CorpusProperties.CaseAt | generate_test_data.cpp:33-109 | the catalog entry at a case's position carries that case's name and input |
| CorpusProperties.CaseOrderComplete | generate_test_data.cpp:33-109 | `main` writes thirteen cases, each exactly once |
| CorpusProperties.CaseNameInjective | generate_test_data.cpp:33-109 | two cases have the same name exactly when they are the same case |
| CorpusProperties.OrderNames | generate_test_data.cpp:33-109 | in write order the names are empty, single_byte, hello, repeated, pattern, longer_text, ascii, large, mixed, numbers, large_100kb, large_1mb, large_10mb |
| CorpusProperties.CatalogNames | generate_test_data.cpp:33-109 | the catalog has thirteen entries carrying those names in that order |
| CorpusProperties.CaseNamesDistinct | generate_test_data.cpp:33-109 | no two catalog entries share a name |
| Generator.FixturePath | generate_test_data.cpp:15 | a fixture path is the test-data directory, then the name, then ".snappy" |
| Generator.CaseNameOf | generate_test_data.cpp:15 | a name read back from a path is as long as the path less the directory and the extension; `Generator.PathRoundTrip` and `Generator.PathFromName` make it the inverse of `Generator.FixturePath` |
| Generator.PathRoundTrip | generate_test_data.cpp:15 | the name can be read back from its fixture path |
| Generator.PathFromName | generate_test_data.cpp:15 | a path from which a name can be read is that name's fixture path |
| Generator.FixturePathInjective | generate_test_data.cpp:15 | two names have the same fixture path exactly when they are equal |
| Generator.WriteTestCase | generate_test_data.cpp:11-18 | the file written for a case holds the library's compression of its input, at a path that names the case |
| Generator.WriteCases | generate_test_data.cpp:33-109 | one file per case in order: file i names case i and holds case i's input compressed |
| Generator.WriteAllContents | generate_test_data.cpp:16-18 | after writing files with distinct paths, each path holds its file's bytes, the directory gains exactly those paths, and other paths keep their contents |
| Validator.FirstFailure | validate_snappy.cpp:13-74 | the first of a list of checks that fails, or None exactly when all of them hold |
| Validator.Validate | validate_snappy.cpp:12-82 | the exit code is 0 or 1, and 0 exactly on a pass; a failure names a check that fails after all earlier checks held; the steps are a prefix of read, validate, length, decompress; the file is read only with three arguments; each library call is made only when the checks before it passed (decompression only after the declared length equalled the expected size); reported sizes are the library's answers; a pass has seen the expected size as both the declared and the decompressed size |
| Validator.ExitZeroIffAllChecksHold | validate_snappy.cpp:39-81 | exit 0 exactly when all seven checks hold, and then the file declares and decompresses to the expected size |
| Validator.FirstFailureIsLeast | validate_snappy.cpp:13-74 | if check k fails and all before it hold, the first failure is check k |
| Validator.FailedGateIsFirst | validate_snappy.cpp:13-74 | a failing check whose predecessors in `main`'s order all hold is the first failure in that order |
| Validator.VerdictIsFirstFailure | validate_snappy.cpp:13-74 | the verdict equals the first failing check of the independently listed order, and a pass means there is none |
| Validator.ArgumentCountFirst | validate_snappy.cpp:13-17 | with an argument count other than three, the run exits 1 with no step taken, whatever the file, size or library |
| Validator.VerdictIgnoresContent | validate_snappy.cpp:62-74 | two libraries that agree on validity and declared length, and whose decompressions fail together or give outputs of equal length, produce identical reports |
| EndToEnd.CompressedValidates | validate_snappy.cpp:39-81 | for a round-tripping library, its compression of x with expected size \|x\| passes every check with exit 0 |
| EndToEnd.WrongSizeRejected | validate_snappy.cpp:54-58 | for a round-tripping library, any other expected size fails at the declared-length check, before decompression, reporting \|x\| |
| EndToEnd.GeneratedPathsDistinct | generate_test_data.cpp:15 | the generator never writes two fixtures to the same path |
| EndToEnd.GeneratedFixture | generate_test_data.cpp:11-18 | the fixture for each case sits at its position in write order, at its name's path, holding its input compressed |
| EndToEnd.FixtureOnDisk | generate_test_data.cpp:15-18 | after `main`, each case's path holds its input compressed, whatever the directory held before |
| EndToEnd.FixturesValidate | validate_snappy.cpp:12-82 | for a round-tripping library, each fixture on disk passes the validator with its input's size |
| EndToEnd.HelloScenario | validate_snappy.cpp:54-58 | the `hello` fixture passes with 13 and fails the declared-length check with 12 |
| EndToEnd.RepeatedScenario | validate_snappy.cpp:54-58 | the `repeated` fixture given 99 exits 1 without being decompressed |

## Left out

- The Snappy library's algorithm is not part of this model. Its four entry points are an oracle; round-tripping is a stated assumption (`Codec.RoundTrips`), not a proved fact.
- File I/O is a parameter. The validator receives the file's bytes, or None when it cannot be opened. The generator's directory is a map from path to bytes.
- A failed write in the generator is not modelled. The source never checks whether its `ofstream` opened, so a missing directory is silently ignored. The model assumes every write lands.
- Console output is not modelled: the per-case summaries, the progress and error messages, and the check marks.
- The compression ratios (generate_test_data.cpp:23, validate_snappy.cpp:77) are floating-point divisions that are only printed. The generator's ratio has no guard against a compressed size of 0, and that is not modelled either.
- `std::stoull` (validate_snappy.cpp:20) is not modelled. The expected size arrives as a natural number. The source's own behaviour on malformed or negative text is left out: an uncaught exception aborts the program rather than exiting with 1, and a leading minus sign wraps modulo 2^64.
- `size_t` is unbounded in the model. Sizes beyond 2^64 cannot arise from the inputs modelled.
- `reserve` (generate_test_data.cpp:104) only affects capacity, so it has no counterpart.
- Printability of the inputs' bytes is not proved for the literal cases. Bytes are chars, and only `ascii`, `numbers`, `pattern` and the bursts have alphabet lemmas.
- Input sizes are proved per case function (for example `CorpusProperties.UniformRuns` and `CorpusProperties.Large1MBLayout`), not as one table over the catalog.
- CorpusProperties.NumbersShape: states only the first four bytes and the last byte of `numbers` literally, not the whole 290-byte string.
