/**
 The command-line validator: given a compressed file and the size it should
 decompress to, it runs a fixed sequence of checks and exits 0 only when all
 of them pass. Opening and reading the file is a parameter (the file's bytes,
 or None when it cannot be opened); the console messages are not modelled.
 */
module Validator {
  import opened Wrappers
  import opened ByteStrings
  import opened Codec

  /** The command line as `main` receives it, with the size argument already parsed. */
  datatype Invocation = Invocation(argc: int, file: Option<Bytes>, expectedSize: nat)

  /** The checks `main` makes, in the order it makes them. */
  datatype Gate =
    | ArgumentCount      // exactly two arguments after the program name
    | FileOpen           // the file can be opened
    | Format             // the library accepts the bytes as a compressed buffer
    | LengthQuery        // the library can read the declared uncompressed length
    | DeclaredSize       // the declared length is the expected size
    | Decompression      // the library decompresses the bytes
    | DecompressedSize   // the output has the expected size

  /** What `main` does to the outside world: read the file, or call into the library. */
  datatype Step = ReadFile | ValidityCall | LengthCall | UncompressCall

  datatype Verdict = Pass | Fail(gate: Gate)

  /**
   The outcome of one run: the exit status, which check decided it, the steps
   taken in order, the length the buffer declared (once it has been read) and
   the size of the decompressed output (once there is one).
   */
  datatype Report = Report(
    exitCode: int,
    verdict: Verdict,
    steps: seq<Step>,
    declaredSize: Option<nat>,
    decompressedSize: Option<nat>)

  /** Every step of a run that reaches the end, in order. */
  const AllSteps: seq<Step> := [ReadFile, ValidityCall, LengthCall, UncompressCall]

  /** The checks in the order `main` makes them. */
  const GateOrder: seq<Gate> :=
    [ArgumentCount, FileOpen, Format, LengthQuery, DeclaredSize, Decompression, DecompressedSize]

  /** Position of a check in `GateOrder`. */
  function Rank(g: Gate): (k: nat)
    ensures k < |GateOrder| && GateOrder[k] == g
  {
    match g
    case ArgumentCount => 0
    case FileOpen => 1
    case Format => 2
    case LengthQuery => 3
    case DeclaredSize => 4
    case Decompression => 5
    case DecompressedSize => 6
  }

  /**
   Whether check g succeeds for this command line and library, judged on its
   own: each check is stated as a fact about the inputs, not about the checks
   before it.
   */
  predicate Holds(g: Gate, inv: Invocation, codec: Oracle) {
    match g
    case ArgumentCount => inv.argc == 3
    case FileOpen => inv.file.Some?
    case Format => inv.file.Some? && codec.isValidCompressedBuffer(inv.file.value)
    case LengthQuery => inv.file.Some? && codec.getUncompressedLength(inv.file.value).Some?
    case DeclaredSize =>
      inv.file.Some? && codec.getUncompressedLength(inv.file.value) == Some(inv.expectedSize)
    case Decompression => inv.file.Some? && codec.uncompress(inv.file.value).Some?
    case DecompressedSize =>
      && inv.file.Some?
      && codec.uncompress(inv.file.value).Some?
      && |codec.uncompress(inv.file.value).value| == inv.expectedSize
  }

  /** The first check of `gates` that does not hold, if any. */
  function FirstFailure(gates: seq<Gate>, inv: Invocation, codec: Oracle): (r: Option<Gate>)
    ensures r.None? <==> forall i :: 0 <= i < |gates| ==> Holds(gates[i], inv, codec)
    ensures r.Some? ==> r.value in gates && !Holds(r.value, inv, codec)
  {
    if |gates| == 0 then None
    else if !Holds(gates[0], inv, codec) then Some(gates[0])
    else FirstFailure(gates[1..], inv, codec)
  }

  /** `main`: each check in turn; the first that fails ends the run with status 1. */
  function Validate(inv: Invocation, codec: Oracle): (r: Report)
    ensures r.exitCode == 0 || r.exitCode == 1
    ensures r.exitCode == 0 <==> r.verdict == Pass
    ensures r.verdict.Fail? ==>
      && !Holds(r.verdict.gate, inv, codec)
      && forall g :: Rank(g) < Rank(r.verdict.gate) ==> Holds(g, inv, codec)
    ensures r.steps <= AllSteps
    ensures ReadFile in r.steps <==> inv.argc == 3
    ensures ValidityCall in r.steps <==> Holds(ArgumentCount, inv, codec) && Holds(FileOpen, inv, codec)
    ensures LengthCall in r.steps <==> Holds(ArgumentCount, inv, codec) && Holds(Format, inv, codec)
    ensures UncompressCall in r.steps <==>
      Holds(ArgumentCount, inv, codec) && Holds(Format, inv, codec) && Holds(DeclaredSize, inv, codec)
    ensures r.declaredSize.Some? ==>
      inv.file.Some? && codec.getUncompressedLength(inv.file.value) == r.declaredSize
    ensures r.decompressedSize.Some? ==>
      inv.file.Some? && codec.uncompress(inv.file.value).Some?
      && r.decompressedSize == Some(|codec.uncompress(inv.file.value).value|)
    ensures r.verdict == Pass ==>
      r.declaredSize == Some(inv.expectedSize) && r.decompressedSize == Some(inv.expectedSize)
  {
    if inv.argc != 3 then
      Report(1, Fail(ArgumentCount), [], None, None)
    else if inv.file.None? then
      Report(1, Fail(FileOpen), [ReadFile], None, None)
    else
      var compressed := inv.file.value;
      if !codec.isValidCompressedBuffer(compressed) then
        Report(1, Fail(Format), [ReadFile, ValidityCall], None, None)
      else
        match codec.getUncompressedLength(compressed)
        case None =>
          Report(1, Fail(LengthQuery), [ReadFile, ValidityCall, LengthCall], None, None)
        case Some(declared) =>
          if declared != inv.expectedSize then
            Report(1, Fail(DeclaredSize), [ReadFile, ValidityCall, LengthCall], Some(declared), None)
          else
            match codec.uncompress(compressed)
            case None =>
              Report(1, Fail(Decompression), AllSteps, Some(declared), None)
            case Some(decompressed) =>
              if |decompressed| != inv.expectedSize then
                Report(1, Fail(DecompressedSize), AllSteps, Some(declared), Some(|decompressed|))
              else
                Report(0, Pass, AllSteps, Some(declared), Some(|decompressed|))
  }

  /** The run exits 0 exactly when every check holds, and then it has seen the expected size twice. */
  lemma ExitZeroIffAllChecksHold(inv: Invocation, codec: Oracle)
    ensures Validate(inv, codec).exitCode == 0 <==> forall g :: Holds(g, inv, codec)
    ensures Validate(inv, codec).exitCode == 0 ==>
      && inv.file.Some?
      && codec.getUncompressedLength(inv.file.value) == Some(inv.expectedSize)
      && codec.uncompress(inv.file.value).Some?
      && |codec.uncompress(inv.file.value).value| == inv.expectedSize
  {
  }

  /** The verdict is the first check, in `main`'s order, that does not hold. */
  lemma VerdictIsFirstFailure(inv: Invocation, codec: Oracle)
    ensures Validate(inv, codec).verdict.Fail? ==>
      FirstFailure(GateOrder, inv, codec) == Some(Validate(inv, codec).verdict.gate)
    ensures Validate(inv, codec).verdict == Pass ==> FirstFailure(GateOrder, inv, codec) == None
  {
    var r := Validate(inv, codec);
    if r.verdict.Fail? {
      FailedGateIsFirst(inv, codec, r.verdict.gate);
    } else {
      ExitZeroIffAllChecksHold(inv, codec);
    }
  }

  /** A failing check with every check of lower rank holding is the first failure in `GateOrder`. */
  lemma FailedGateIsFirst(inv: Invocation, codec: Oracle, g: Gate)
    requires !Holds(g, inv, codec)
    requires forall h :: Rank(h) < Rank(g) ==> Holds(h, inv, codec)
    ensures FirstFailure(GateOrder, inv, codec) == Some(g)
  {
    var k := Rank(g);
    assert forall i :: 0 <= i < k ==> Rank(GateOrder[i]) == i;
    FirstFailureIsLeast(GateOrder, inv, codec, k);
  }

  /**
   In a list of distinct checks, if position k fails and every earlier one
   holds, the first failure is the one at k.
   */
  lemma {:induction false} FirstFailureIsLeast(gates: seq<Gate>, inv: Invocation, codec: Oracle, k: nat)
    requires k < |gates|
    requires !Holds(gates[k], inv, codec)
    requires forall i :: 0 <= i < k ==> Holds(gates[i], inv, codec)
    ensures FirstFailure(gates, inv, codec) == Some(gates[k])
  {
    if k > 0 {
      FirstFailureIsLeast(gates[1..], inv, codec, k - 1);
    }
  }

  /** With the wrong number of arguments nothing is read: the file and the expected size do not matter. */
  lemma ArgumentCountFirst(inv: Invocation, inv': Invocation, codec: Oracle, codec': Oracle)
    requires inv.argc != 3 && inv'.argc == inv.argc
    ensures Validate(inv, codec) == Validate(inv', codec')
    ensures Validate(inv, codec) == Report(1, Fail(ArgumentCount), [], None, None)
  {
  }

  /**
   The validator looks at the decompressed bytes only through their length:
   two libraries that agree on validity and declared length, and whose
   decompressions of this file fail together or succeed with outputs of the
   same length, give the same report, whatever the output bytes are.
   */
  lemma VerdictIgnoresContent(inv: Invocation, codec: Oracle, codec': Oracle)
    requires inv.file.Some?
    requires codec.isValidCompressedBuffer(inv.file.value) == codec'.isValidCompressedBuffer(inv.file.value)
    requires codec.getUncompressedLength(inv.file.value) == codec'.getUncompressedLength(inv.file.value)
    requires codec.uncompress(inv.file.value).Some? == codec'.uncompress(inv.file.value).Some?
    requires codec.uncompress(inv.file.value).Some? ==>
      |codec.uncompress(inv.file.value).value| == |codec'.uncompress(inv.file.value).value|
    ensures Validate(inv, codec) == Validate(inv, codec')
  {
  }
}
