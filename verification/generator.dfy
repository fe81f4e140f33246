/**
 The fixture generator: every catalog case is compressed with the library and
 written, truncating any earlier file, to a path built from the case's name.
 The file system is a map from path to contents; the console report is not
 modelled.
 */
module Generator {
  import opened Wrappers
  import opened ByteStrings
  import opened Codec
  import opened Corpus

  const FixtureDir: Bytes := "Tests/SnappySwiftTests/TestData/"
  const FixtureExt: Bytes := ".snappy"

  /** One file written by the generator. */
  datatype Fixture = Fixture(path: Bytes, contents: Bytes)

  /** The path a case named `name` is written to. */
  function FixturePath(name: Bytes): (p: Bytes)
    ensures |p| == |FixtureDir| + |name| + |FixtureExt|
    ensures p[..|FixtureDir|] == FixtureDir
    ensures p[|FixtureDir| + |name|..] == FixtureExt
  {
    FixtureDir + name + FixtureExt
  }

  /** The case name a fixture path was built from, or None for any other path. */
  function CaseNameOf(path: Bytes): (r: Option<Bytes>)
    ensures r.Some? ==> |r.value| + |FixtureDir| + |FixtureExt| == |path|
  {
    if |path| >= |FixtureDir| + |FixtureExt|
      && path[..|FixtureDir|] == FixtureDir
      && path[|path| - |FixtureExt|..] == FixtureExt
    then Some(path[|FixtureDir|..|path| - |FixtureExt|])
    else None
  }

  /** Reading the name back from a fixture path recovers it. */
  lemma PathRoundTrip(name: Bytes)
    ensures CaseNameOf(FixturePath(name)) == Some(name)
  {
  }

  /** A path that names a case is exactly that case's fixture path. */
  lemma PathFromName(path: Bytes)
    ensures CaseNameOf(path).Some? ==> FixturePath(CaseNameOf(path).value) == path
  {
  }

  /** Different names give different paths. */
  lemma FixturePathInjective(a: Bytes, b: Bytes)
    ensures FixturePath(a) == FixturePath(b) <==> a == b
  {
    if FixturePath(a) == FixturePath(b) {
      PathRoundTrip(a);
      PathRoundTrip(b);
    }
  }

  /** writeTestCase: compress the input and address the result by the case's name. */
  function WriteTestCase(codec: Oracle, tc: TestCase): (f: Fixture)
    ensures CaseNameOf(f.path) == Some(tc.name)
    ensures f.contents == codec.compress(tc.input)
  {
    PathRoundTrip(tc.name);
    Fixture(FixturePath(tc.name), codec.compress(tc.input))
  }

  /** One writeTestCase per case, in order. */
  function WriteCases(codec: Oracle, cases: seq<TestCase>): (fs: seq<Fixture>)
    ensures |fs| == |cases|
    ensures forall i :: 0 <= i < |fs| ==>
      CaseNameOf(fs[i].path) == Some(cases[i].name) && fs[i].contents == codec.compress(cases[i].input)
  {
    seq(|cases|, i requires 0 <= i < |cases| => WriteTestCase(codec, cases[i]))
  }

  /** The files `main` writes: the whole catalog, in catalog order. */
  function Generate(codec: Oracle): seq<Fixture> {
    WriteCases(codec, Cases())
  }

  /** Writing fixtures in order: each file replaces whatever the path held before. */
  function WriteAll(disk: map<Bytes, Bytes>, fs: seq<Fixture>): map<Bytes, Bytes>
    decreases |fs|
  {
    if |fs| == 0 then disk else WriteAll(disk[fs[0].path := fs[0].contents], fs[1..])
  }

  /** No two fixtures in the list share a path. */
  predicate DistinctPaths(fs: seq<Fixture>) {
    forall i, j :: 0 <= i < j < |fs| ==> fs[i].path != fs[j].path
  }

  /**
   After writing fixtures with distinct paths, each path holds its fixture's
   contents, and every other path keeps what it held.
   */
  lemma {:induction false} WriteAllContents(disk: map<Bytes, Bytes>, fs: seq<Fixture>)
    requires DistinctPaths(fs)
    ensures WriteAll(disk, fs).Keys == disk.Keys + set f | f in fs :: f.path
    ensures forall i :: 0 <= i < |fs| ==> WriteAll(disk, fs)[fs[i].path] == fs[i].contents
    ensures forall p :: p in disk && (forall f :: f in fs ==> f.path != p) ==> WriteAll(disk, fs)[p] == disk[p]
    decreases |fs|
  {
    if |fs| > 0 {
      var disk' := disk[fs[0].path := fs[0].contents];
      var rest := fs[1..];
      WriteAllContents(disk', rest);
      assert forall f :: f in fs <==> f == fs[0] || f in rest;
      forall i | 0 <= i < |fs|
        ensures WriteAll(disk, fs)[fs[i].path] == fs[i].contents
      {
        if i == 0 {
          assert forall f :: f in rest ==> f.path != fs[0].path;
        } else {
          assert fs[i] == rest[i - 1];
        }
      }
    }
  }
}
