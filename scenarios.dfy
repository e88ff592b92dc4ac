/** Small concrete trees and targets worked through the specification functions. */
module Scenarios {
  import opened Wrappers
  import opened Text
  import opened Digest
  import opened FileTree
  import opened Target
  import opened Driver

  function EmptyAndData(data: seq<byte>): seq<Entry> {
    [File("empty.dat", Regular, Source([], false)), File("data.dat", Regular, Source(data, false))]
  }

  lemma EmptyAndDataListing(data: seq<byte>)
    ensures IterateFiles(EmptyAndData(data), false, None) == [["empty.dat"], ["data.dat"]]
  {
    var root := EmptyAndData(data);
    var other := root[1];
    assert root[1..] == [other] && [other][1..] == [];
    assert ListTop([other], None) == [["data.dat"]] + ListTop([], None);
    assert ListTop(root, None) == [["empty.dat"]] + ListTop([other], None);
  }

  lemma EmptyAndDataMatches(md5: DigestFunction, data: seq<byte>)
    requires md5(data) != md5([])
    ensures Matches(EmptyAndData(data), [["empty.dat"], ["data.dat"]], md5([]), md5) == [MatchRecord(["empty.dat"], md5([]))]
  {
    var root := EmptyAndData(data);
    var paths := [["empty.dat"], ["data.dat"]];
    assert "empty.dat" != "data.dat" by {
      assert "empty.dat"[0] != "data.dat"[0];
    }
    assert root[1..] == [root[1]];
    assert Open(root, ["empty.dat"]) == Source([], false);
    assert Open(root, ["data.dat"]) == Source(data, false);
    assert paths[1..] == [["data.dat"]] && paths[1..][1..] == [];
    assert HashesTo(root, ["empty.dat"], md5([]), md5);
    assert !HashesTo(root, ["data.dat"], md5([]), md5);
    assert Matches(root, [["data.dat"]], md5([]), md5) == [] + Matches(root, [], md5([]), md5);
    assert Matches(root, paths, md5([]), md5) == [MatchRecord(["empty.dat"], md5([]))] + Matches(root, [["data.dat"]], md5([]), md5);
  }

  /**
   * A target file holding the fingerprint of empty content (for MD5,
   * d41d8cd98f00b204e9800998ecf8427e), a flat scan of a directory with an empty
   * and a non-empty file: exactly the empty file matches.
   */
  lemma LiteralFindsEmptyFile(md5: DigestFunction, data: seq<byte>, targetBytes: Source)
    requires md5(data) != md5([])
    ensures TargetHash(TargetFile(Some(md5([])), targetBytes), md5) == Ok(md5([]))
    ensures var root := EmptyAndData(data);
            Matches(root, IterateFiles(root, false, None), md5([]), md5) == [MatchRecord(["empty.dat"], md5([]))]
  {
    FingerprintRoundTrip(md5([]), "", "", targetBytes, md5);
    assert "" + md5([]) + "" == md5([]);
    EmptyAndDataListing(data);
    EmptyAndDataMatches(md5, data);
  }

  /** A 10-character target whose text decodes is hashed, not read as a literal, and a byte-identical file matches it. */
  lemma ShortTargetIsHashed(md5: DigestFunction, text: string, bytes: seq<byte>)
    requires |text| == 10
    ensures TargetHash(TargetFile(Some(text), Source(bytes, false)), md5) == Ok(md5(bytes))
    ensures var root := [File("copy.bin", Regular, Source(bytes, false))];
            Matches(root, IterateFiles(root, false, None), md5(bytes), md5) == [MatchRecord(["copy.bin"], md5(bytes))]
  {
    NonLiteralIsHashed(text, Source(bytes, false), md5);
    var root := [File("copy.bin", Regular, Source(bytes, false))];
    assert root[1..] == [];
    assert ListTop(root, None) == [["copy.bin"]];
    assert Open(root, ["copy.bin"]) == Source(bytes, false);
    assert [["copy.bin"]][1..] == [];
  }

  lemma TxtFilter()
    ensures var exts := NormalizeExtensions(Some([".txt"]));
            Selected("a.txt", exts) && !Selected("b.log", exts)
  {
    var exts := NormalizeExtensions(Some([".txt"]));
    assert Lower(".txt") == ".txt";
    assert Lower("a.txt") == "a.txt";
    assert Lower("b.log") == "b.log";
    assert exts.value == {".txt"};
    assert "a.txt"[1..] == ".txt";
    assert "b.log"[1..] != ".txt" by {
      assert "b.log"[1..][1] != ".txt"[1];
    }
  }

  function TxtAndSubLog(s1: Source, s2: Source): seq<Entry> {
    [File("a.txt", Regular, s1), Dir("sub", [File("b.log", Regular, s2)])]
  }

  lemma TxtAndSubLogTopFiles(s1: Source, s2: Source, exts: Option<set<string>>)
    requires Selected("a.txt", exts)
    ensures FilesOf([], TxtAndSubLog(s1, s2), exts) == [["a.txt"]]
  {
    var root := TxtAndSubLog(s1, s2);
    var sub := root[1];
    assert root[1..] == [sub] && [sub][1..] == [];
    assert FilesOf([], [sub], exts) == [] + FilesOf([], [], exts);
    assert FilesOf([], root, exts) == [[] + ["a.txt"]] + FilesOf([], [sub], exts);
    assert [] + ["a.txt"] == ["a.txt"];
  }

  lemma TxtAndSubLogSubdirs(s1: Source, s2: Source, exts: Option<set<string>>)
    requires !Selected("b.log", exts)
    ensures WalkSubdirs([], TxtAndSubLog(s1, s2), exts) == []
  {
    var root := TxtAndSubLog(s1, s2);
    var sub := root[1];
    var b := sub.children[0];
    assert root[1..] == [sub] && [sub][1..] == [] && [b][1..] == [];
    assert FilesOf(["sub"], [b], exts) == [] + FilesOf(["sub"], [], exts);
    assert WalkSubdirs(["sub"], [b], exts) == [] + WalkSubdirs(["sub"], [], exts);
    assert Walk(["sub"], [b], exts) == [];
    assert WalkSubdirs([], [sub], exts) == Walk([] + ["sub"], [b], exts) + WalkSubdirs([], [], exts);
    assert [] + ["sub"] == ["sub"];
    assert WalkSubdirs([], root, exts) == [] + WalkSubdirs([], [sub], exts);
  }

  /** A recursive scan of `a.txt` and `sub/b.log` filtered by `.txt` yields `a.txt` alone: `b.log` is visited and filtered out. */
  lemma RecursiveScanFiltersByExtension(s1: Source, s2: Source)
    ensures IterateFiles(TxtAndSubLog(s1, s2), true, NormalizeExtensions(Some([".txt"]))) == [["a.txt"]]
  {
    TxtFilter();
    var exts := NormalizeExtensions(Some([".txt"]));
    TxtAndSubLogTopFiles(s1, s2, exts);
    TxtAndSubLogSubdirs(s1, s2, exts);
  }

  /** An empty scan reports both that nothing matched and that nothing was checked. */
  lemma EmptyScanSummary()
    ensures Summary(0, 0, []) == [NoMatches, NothingChecked]
  {
  }
}
