/**
 * The match driver: the part of `main` in Hash-Matcher.py that checks its
 * arguments, resolves the target hash, scans the enumerated paths while counting
 * and collecting matches, and decides the summary.
 */
module Driver {
  import opened Wrappers
  import opened Text
  import opened Sequences
  import opened Digest
  import opened FileTree
  import opened Target

  /** One entry of `matchResults`: a `(filePath, fileHash)` pair. */
  datatype MatchRecord = MatchRecord(path: Path, hash: string)

  /** Hashing the file at `p` succeeds and gives `target`. */
  predicate HashesTo(root: seq<Entry>, p: Path, target: string, md5: DigestFunction) {
    var d := FileDigest(Open(root, p), md5);
    d.Ok? && d.value == target
  }

  /** Hashing the file at `p` raises. */
  predicate HashFails(root: seq<Entry>, p: Path, md5: DigestFunction) {
    FileDigest(Open(root, p), md5).Err?
  }

  /** The records the scan collects from `paths`: one per path whose hash equals the target, in order. */
  function Matches(root: seq<Entry>, paths: seq<Path>, target: string, md5: DigestFunction): seq<MatchRecord>
    decreases |paths|
  {
    if paths == [] then [] else Checked(root, paths[0], target, md5) + Matches(root, paths[1..], target, md5)
  }

  /** What checking one path adds to the records. */
  function Checked(root: seq<Entry>, p: Path, target: string, md5: DigestFunction): seq<MatchRecord> {
    if HashesTo(root, p, target, md5) then [MatchRecord(p, target)] else []
  }

  /** Checking `paths[i]` moves the records collected so far one path further. */
  lemma MatchesAdvance(root: seq<Entry>, paths: seq<Path>, i: nat, target: string, md5: DigestFunction, acc: seq<MatchRecord>)
    requires i < |paths|
    requires acc + Matches(root, paths[i..], target, md5) == Matches(root, paths, target, md5)
    ensures (acc + Checked(root, paths[i], target, md5)) + Matches(root, paths[i + 1..], target, md5) == Matches(root, paths, target, md5)
  {
    assert paths[i..][1..] == paths[i + 1..];
    var step := Checked(root, paths[i], target, md5);
    assert Matches(root, paths[i..], target, md5) == step + Matches(root, paths[i + 1..], target, md5);
    assert (acc + step) + Matches(root, paths[i + 1..], target, md5) == acc + (step + Matches(root, paths[i + 1..], target, md5));
  }

  /**
   * Every record carries the target as its hash and a path that was enumerated and
   * whose hashing succeeded with that hash; there are at most as many records as paths.
   */
  lemma {:induction false} MatchesSound(root: seq<Entry>, paths: seq<Path>, target: string, md5: DigestFunction)
    ensures var r := Matches(root, paths, target, md5);
            && |r| <= |paths|
            && forall k :: 0 <= k < |r| ==> r[k].hash == target && r[k].path in paths && HashesTo(root, r[k].path, target, md5)
    decreases |paths|
  {
    if paths != [] {
      MatchesSound(root, paths[1..], target, md5);
      var r := Matches(root, paths, target, md5);
      var rest := Matches(root, paths[1..], target, md5);
      forall k | 0 <= k < |r|
        ensures r[k].hash == target && r[k].path in paths && HashesTo(root, r[k].path, target, md5)
      {
        if |r| > |rest| && k == 0 {
          assert r[0] == MatchRecord(paths[0], target);
        } else {
          var j := k - (|r| - |rest|);
          assert r[k] == rest[j];
          assert rest[j].path in paths[1..];
        }
      }
    }
  }

  function PathsOf(rs: seq<MatchRecord>): seq<Path> {
    seq(|rs|, k requires 0 <= k < |rs| => rs[k].path)
  }

  /** The number of paths whose hashing raises. */
  function Failures(root: seq<Entry>, paths: seq<Path>, md5: DigestFunction): nat
    decreases |paths|
  {
    if paths == [] then 0
    else (if HashFails(root, paths[0], md5) then 1 else 0) + Failures(root, paths[1..], md5)
  }

  /** The matched paths appear in enumeration order. */
  lemma {:induction false} MatchesInOrder(root: seq<Entry>, paths: seq<Path>, target: string, md5: DigestFunction)
    ensures IsSubsequence(PathsOf(Matches(root, paths, target, md5)), paths)
    decreases |paths|
  {
    if paths != [] {
      var rest := Matches(root, paths[1..], target, md5);
      MatchesInOrder(root, paths[1..], target, md5);
      var xs := PathsOf(Matches(root, paths, target, md5));
      if HashesTo(root, paths[0], target, md5) {
        assert xs[0] == paths[0] && xs[1..] == PathsOf(rest);
      } else {
        assert xs == PathsOf(rest);
      }
    }
  }

  /** Every enumerated path whose hash equals the target is recorded. */
  lemma {:induction false} MatchesComplete(root: seq<Entry>, paths: seq<Path>, target: string, md5: DigestFunction, p: Path)
    requires p in paths && HashesTo(root, p, target, md5)
    ensures MatchRecord(p, target) in Matches(root, paths, target, md5)
    decreases |paths|
  {
    if p != paths[0] {
      assert p in paths[1..];
      MatchesComplete(root, paths[1..], target, md5, p);
    }
  }

  /** A path counts once: as a match, as a failure, or as neither. */
  lemma {:induction false} MatchesAndFailuresWithinChecked(root: seq<Entry>, paths: seq<Path>, target: string, md5: DigestFunction)
    ensures |Matches(root, paths, target, md5)| + Failures(root, paths, md5) <= |paths|
    decreases |paths|
  {
    if paths != [] {
      MatchesAndFailuresWithinChecked(root, paths[1..], target, md5);
    }
  }

  /** An upper-case literal target matches nothing, whatever the tree holds. */
  lemma UppercaseTargetMatchesNothing(root: seq<Entry>, paths: seq<Path>, target: string, md5: DigestFunction)
    requires Lower(target) != target
    ensures Matches(root, paths, target, md5) == []
  {
    var r := Matches(root, paths, target, md5);
    MatchesSound(root, paths, target, md5);
    if r != [] {
      UppercaseLiteralNeverMatches(target, md5, Open(root, r[0].path).bytes);
      assert false;
    }
  }

  /** The `for` loop of `main` over the enumerated paths. */
  method Scan(root: seq<Entry>, paths: seq<Path>, targetHash: string, md5: DigestFunction)
    returns (checked: nat, matches: nat, matchResults: seq<MatchRecord>)
    ensures checked == |paths|
    ensures matches == |matchResults|
    ensures matchResults == Matches(root, paths, targetHash, md5)
  {
    checked, matches, matchResults := 0, 0, [];
    assert paths[0..] == paths;
    for i := 0 to |paths|
      invariant checked == i
      invariant matches == |matchResults|
      invariant matchResults + Matches(root, paths[i..], targetHash, md5) == Matches(root, paths, targetHash, md5)
    {
      var filePath := paths[i];
      checked := checked + 1;
      MatchesAdvance(root, paths, i, targetHash, md5, matchResults);
      ghost var step := Checked(root, filePath, targetHash, md5);
      var fileHash, _ := HashFile(Open(root, filePath), md5);
      if fileHash.Ok? && fileHash.value == targetHash {
        assert step == [MatchRecord(filePath, fileHash.value)];
        matches := matches + 1;
        matchResults := matchResults + [MatchRecord(filePath, fileHash.value)];
      } else {
        assert step == [];
        assert matchResults + step == matchResults;
      }
    }
    assert paths[|paths|..] == [];
  }

  /** The messages of the summary, without their formatting. */
  datatype SummaryLine =
    | NoMatches                                // "No matches found."
    | Totals(checked: nat, matches: nat)       // "Checked {checked} files, found {matches} matches:"
    | Found(path: Path, hash: string)          // "File: {filePath} | MD5: {fileHash}"
    | NothingChecked                           // "No files were checked. ..."

  function FoundLines(lines: seq<SummaryLine>): seq<MatchRecord> {
    if lines == [] then []
    else (if lines[0].Found? then [MatchRecord(lines[0].path, lines[0].hash)] else []) + FoundLines(lines[1..])
  }

  /** The summary printed after the loop. */
  function Summary(checked: nat, matches: nat, matchResults: seq<MatchRecord>): (lines: seq<SummaryLine>)
    ensures NoMatches in lines <==> matches == 0
    ensures NothingChecked in lines <==> checked == 0
    ensures Totals(checked, matches) in lines <==> matches != 0
    ensures FoundLines(lines) == if matches == 0 then [] else matchResults
  {
    var head := if matches == 0 then [NoMatches]
                else [Totals(checked, matches)] + seq(|matchResults|, k requires 0 <= k < |matchResults| =>
                                                     Found(matchResults[k].path, matchResults[k].hash));
    var tail := if checked == 0 then [NothingChecked] else [];
    FoundLinesAppend(head, tail);
    FoundLinesOfRecords(matchResults);
    head + tail
  }

  lemma {:induction false} FoundLinesAppend(a: seq<SummaryLine>, b: seq<SummaryLine>)
    ensures FoundLines(a + b) == FoundLines(a) + FoundLines(b)
    decreases |a|
  {
    if a != [] {
      FoundLinesAppend(a[1..], b);
      assert (a + b)[1..] == a[1..] + b;
    } else {
      assert a + b == b;
    }
  }

  lemma {:induction false} FoundLinesOfRecords(rs: seq<MatchRecord>)
    ensures FoundLines(seq(|rs|, k requires 0 <= k < |rs| => Found(rs[k].path, rs[k].hash))) == rs
    decreases |rs|
  {
    var lines := seq(|rs|, k requires 0 <= k < |rs| => Found(rs[k].path, rs[k].hash));
    if rs != [] {
      FoundLinesOfRecords(rs[1..]);
      assert lines[1..] == seq(|rs[1..]|, k requires 0 <= k < |rs[1..]| => Found(rs[1..][k].path, rs[1..][k].hash));
    }
  }

  /** The command-line options that decide what is scanned; `--verbose` only adds output. */
  datatype Args = Args(recursive: bool, extensions: Option<seq<string>>)

  /** The file system as `main` finds it: the listing of `directory` when it is a directory, the target when it is a regular file. */
  datatype Environment = Environment(directory: Option<seq<Entry>>, targetFile: Option<TargetFile>)

  datatype Outcome =
    | DirectoryNotFound   // FileNotFoundError raised for the directory
    | TargetNotFound      // FileNotFoundError raised for the target file
    | TargetUnreadable    // the ValueError from getTargetHash, printed; main returns None
    | Completed(targetHash: string, checked: nat, matches: nat, matchResults: seq<MatchRecord>, summary: seq<SummaryLine>)

  /**
   * `raise SystemExit(main())`: the process exit status is 1 for an exception that
   * escapes `main` and 0 when `main` returns, whether it returns 0 or `None`.
   */
  method Run(env: Environment, args: Args, md5: DigestFunction) returns (o: Outcome, exitStatus: int)
    ensures o == DirectoryNotFound <==> env.directory.None?
    ensures o == TargetNotFound <==> env.directory.Some? && env.targetFile.None?
    ensures o == TargetUnreadable <==>
              env.directory.Some? && env.targetFile.Some? && TargetHash(env.targetFile.value, md5).Err?
    ensures o.Completed? <==>
              env.directory.Some? && env.targetFile.Some? && TargetHash(env.targetFile.value, md5).Ok?
    ensures o.Completed? ==>
              var root := env.directory.value;
              var paths := IterateFiles(root, args.recursive, NormalizeExtensions(args.extensions));
              && env.targetFile.Some?
              && TargetHash(env.targetFile.value, md5) == Ok(o.targetHash)
              && o.checked == |paths|
              && o.matchResults == Matches(root, paths, o.targetHash, md5)
              && o.matches == |o.matchResults|
              && o.summary == Summary(o.checked, o.matches, o.matchResults)
    ensures exitStatus == if o.DirectoryNotFound? || o.TargetNotFound? then 1 else 0
  {
    if env.directory.None? {
      return DirectoryNotFound, 1;
    }
    if env.targetFile.None? {
      return TargetNotFound, 1;
    }
    var root := env.directory.value;
    var targetHash := GetTargetHash(env.targetFile.value, md5);
    if targetHash.Err? {
      return TargetUnreadable, 0;
    }
    var extensions := NormalizeExtensions(args.extensions);
    var checked, matches, matchResults := Scan(root, IterateFiles(root, args.recursive, extensions), targetHash.value, md5);
    o := Completed(targetHash.value, checked, matches, matchResults, Summary(checked, matches, matchResults));
    exitStatus := 0;
  }
}
