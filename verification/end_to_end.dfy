/**
 The two programs together: the generator writes the catalog's fixtures, and
 the validator, run on a fixture with its input's size, accepts it whenever
 the library decompresses what it compresses.
 */
module EndToEnd {
  import opened Wrappers
  import opened ByteStrings
  import opened Codec
  import opened Corpus
  import opened CorpusProperties
  import opened Generator
  import opened Validator

  /** The validator's command line for a file and an expected size. */
  function Run(file: Bytes, expectedSize: nat): Invocation {
    Invocation(3, Some(file), expectedSize)
  }

  /** A round-tripping library's output passes every check when the expected size is the input's. */
  lemma CompressedValidates(codec: Oracle, x: Bytes)
    requires RoundTrips(codec)
    ensures Validate(Run(codec.compress(x), |x|), codec) == Report(0, Pass, AllSteps, Some(|x|), Some(|x|))
  {
  }

  /**
   With any other expected size the run stops at the declared-length check,
   before decompressing, and reports the input's true length.
   */
  lemma WrongSizeRejected(codec: Oracle, x: Bytes, n: nat)
    requires RoundTrips(codec)
    requires n != |x|
    ensures Validate(Run(codec.compress(x), n), codec) ==
      Report(1, Fail(DeclaredSize), [ReadFile, ValidityCall, LengthCall], Some(|x|), None)
  {
  }

  /** The generator never writes two fixtures to one path. */
  lemma GeneratedPathsDistinct(codec: Oracle)
    ensures DistinctPaths(Generate(codec))
  {
    var fs := Generate(codec);
    CaseNamesDistinct();
    forall i, j | 0 <= i < j < |fs|
      ensures fs[i].path != fs[j].path
    {
      assert CaseNameOf(fs[i].path) != CaseNameOf(fs[j].path);
    }
  }

  /** The fixture the generator writes for case id: its name's path, holding its input compressed. */
  lemma GeneratedFixture(codec: Oracle, id: CaseId)
    ensures CaseIndex(id) < |Generate(codec)|
    ensures Generate(codec)[CaseIndex(id)] == Fixture(FixturePath(CaseName(id)), codec.compress(CaseInput(id)))
  {
    CaseAt(id);
    PathFromName(Generate(codec)[CaseIndex(id)].path);
  }

  /** After `main`, each case's path holds its input compressed, whatever the directory held before. */
  lemma FixtureOnDisk(codec: Oracle, disk: map<Bytes, Bytes>, id: CaseId)
    ensures FixturePath(CaseName(id)) in WriteAll(disk, Generate(codec))
    ensures WriteAll(disk, Generate(codec))[FixturePath(CaseName(id))] == codec.compress(CaseInput(id))
  {
    GeneratedPathsDistinct(codec);
    GeneratedFixture(codec, id);
    var fs := Generate(codec);
    WriteAllContents(disk, fs);
    assert fs[CaseIndex(id)] in fs;
  }

  /**
   Every fixture on disk after `main` passes the validator when given its
   input's size, provided the library round-trips its own output.
   */
  lemma FixturesValidate(codec: Oracle, disk: map<Bytes, Bytes>, id: CaseId)
    requires RoundTrips(codec)
    ensures FixturePath(CaseName(id)) in WriteAll(disk, Generate(codec))
    ensures Validate(Run(WriteAll(disk, Generate(codec))[FixturePath(CaseName(id))], |CaseInput(id)|), codec).exitCode == 0
  {
    FixtureOnDisk(codec, disk, id);
    CompressedValidates(codec, CaseInput(id));
  }

  /** The `hello` fixture passes with size 13 and fails the declared-length check with 12. */
  lemma HelloScenario(codec: Oracle)
    requires RoundTrips(codec)
    ensures Validate(Run(codec.compress(Hello()), 13), codec).exitCode == 0
    ensures Validate(Run(codec.compress(Hello()), 12), codec).verdict == Fail(DeclaredSize)
  {
  }

  /** The `repeated` fixture, given 99 instead of 100, is rejected without being decompressed. */
  lemma RepeatedScenario(codec: Oracle)
    requires RoundTrips(codec)
    ensures UncompressCall !in Validate(Run(codec.compress(Repeated()), 99), codec).steps
    ensures Validate(Run(codec.compress(Repeated()), 99), codec).exitCode == 1
  {
  }
}
