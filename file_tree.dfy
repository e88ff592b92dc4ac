/**
 * The file enumerator of Hash-Matcher.py (`iterateFiles`) over an abstract
 * directory tree whose listings come in a fixed order. A path is the list of names
 * from the scanned directory down to the entry, so `os.path.join(root, file)` is
 * appending a name.
 */
module FileTree {
  import opened Wrappers
  import opened Text
  import opened Sequences
  import opened Digest

  /** A non-directory entry is a regular file, or something else (`os.path.isfile` is false: a FIFO, a socket, a device). */
  datatype Kind = Regular | Special

  datatype Entry =
    | Dir(name: string, children: seq<Entry>)
    | File(name: string, kind: Kind, source: Source)

  type Path = seq<string>

  /** Line 87 of `main`: the `-e` values lower-cased into a set, or `None` when `-e` is absent or given no values. */
  function NormalizeExtensions(given: Option<seq<string>>): (r: Option<set<string>>)
    ensures r.None? <==> given.None? || given.value == []
    ensures r.Some? ==> forall e :: e in r.value <==> exists g :: g in given.value && e == Lower(g)
  {
    if given.None? || given.value == [] then None else Some(set g | g in given.value :: Lower(g))
  }

  /** Python's truth value of `extensions`: present and non-empty. */
  predicate Filtering(exts: Option<set<string>>) {
    exts.Some? && exts.value != {}
  }

  /** The filter of `iterateFiles`: no filtering, or the lower-cased name ends with one of the extensions. */
  predicate Selected(name: string, exts: Option<set<string>>) {
    !Filtering(exts) || exists e :: e in exts.value && EndsWith(Lower(name), e)
  }

  /** The `-e` list as given on the command line selects a name iff the name ends with one of them, ignoring case. */
  lemma CaseInsensitiveFilter(name: string, given: Option<seq<string>>)
    ensures Selected(name, NormalizeExtensions(given)) <==>
            given.None? || given.value == [] || exists g :: g in given.value && EndsWith(Lower(name), Lower(g))
  {
    var exts := NormalizeExtensions(given);
    if given.Some? && given.value != [] {
      var g0 := given.value[0];
      assert Lower(g0) in exts.value;
      if exists g :: g in given.value && EndsWith(Lower(name), Lower(g)) {
        var g :| g in given.value && EndsWith(Lower(name), Lower(g));
        assert Lower(g) in exts.value;
      }
    }
  }

  /** `os.walk` yields the non-directory names of a directory (its `files`) ... */
  function FilesOf(dir: Path, cs: seq<Entry>, exts: Option<set<string>>): seq<Path>
    decreases cs
  {
    if cs == [] then []
    else (if cs[0].File? && Selected(cs[0].name, exts) then [dir + [cs[0].name]] else [])
         + FilesOf(dir, cs[1..], exts)
  }

  /** ... and then walks each subdirectory in listing order, top-down. */
  function WalkSubdirs(dir: Path, cs: seq<Entry>, exts: Option<set<string>>): seq<Path>
    decreases cs, 0
  {
    if cs == [] then []
    else (if cs[0].Dir? then Walk(dir + [cs[0].name], cs[0].children, exts) else [])
         + WalkSubdirs(dir, cs[1..], exts)
  }

  /** Recursive mode: the loop over `os.walk(directoryPath)`. */
  function Walk(dir: Path, cs: seq<Entry>, exts: Option<set<string>>): seq<Path>
    decreases cs, 1
  {
    FilesOf(dir, cs, exts) + WalkSubdirs(dir, cs, exts)
  }

  /** Flat mode: the loop over `os.listdir(directoryPath)`, keeping what `os.path.isfile` accepts. */
  function ListTop(cs: seq<Entry>, exts: Option<set<string>>): seq<Path> {
    if cs == [] then []
    else (if cs[0].File? && cs[0].kind == Regular && Selected(cs[0].name, exts) then [[cs[0].name]] else [])
         + ListTop(cs[1..], exts)
  }

  /** `iterateFiles(directoryPath, recursive, extensions)` */
  function IterateFiles(root: seq<Entry>, recursive: bool, exts: Option<set<string>>): seq<Path> {
    if recursive then Walk([], root, exts) else ListTop(root, exts)
  }

  /** `q` names a non-directory entry reachable from the listing `cs`. */
  ghost predicate FileAt(cs: seq<Entry>, q: Path)
    decreases cs
  {
    |q| > 0 &&
    exists i :: 0 <= i < |cs| && cs[i].name == q[0] &&
      (if |q| == 1 then cs[i].File? else cs[i].Dir? && FileAt(cs[i].children, q[1..]))
  }

  lemma FileAtCons(cs: seq<Entry>, q: Path)
    requires cs != []
    ensures FileAt(cs, q) <==>
            (|q| > 0 && cs[0].name == q[0] && (if |q| == 1 then cs[0].File? else cs[0].Dir? && FileAt(cs[0].children, q[1..])))
            || FileAt(cs[1..], q)
  {
    if FileAt(cs, q) {
      var i :| 0 <= i < |cs| && cs[i].name == q[0] &&
        (if |q| == 1 then cs[i].File? else cs[i].Dir? && FileAt(cs[i].children, q[1..]));
      if i > 0 {
        assert cs[1..][i - 1] == cs[i];
      }
    }
    if FileAt(cs[1..], q) {
      var j :| 0 <= j < |cs[1..]| && cs[1..][j].name == q[0] &&
        (if |q| == 1 then cs[1..][j].File? else cs[1..][j].Dir? && FileAt(cs[1..][j].children, q[1..]));
      assert cs[j + 1] == cs[1..][j];
    }
  }

  /** The names `FilesOf` yields are exactly the selected non-directory entries of the listing. */
  lemma {:induction false} FilesOfYields(dir: Path, cs: seq<Entry>, exts: Option<set<string>>, p: Path)
    ensures p in FilesOf(dir, cs, exts) <==>
            |p| == |dir| + 1 && p[..|dir|] == dir && Selected(p[|dir|], exts) && FileAt(cs, p[|dir|..])
    decreases cs
  {
    if cs != [] {
      FilesOfYields(dir, cs[1..], exts, p);
      var n := cs[0].name;
      assert (dir + [n])[..|dir|] == dir && (dir + [n])[|dir|..] == [n];
      if |p| == |dir| + 1 {
        FileAtCons(cs, p[|dir|..]);
        if p[..|dir|] == dir {
          assert p == dir + [p[|dir|]];
        }
      }
    } else if |p| >= |dir| {
      assert !FileAt(cs, p[|dir|..]);
    }
  }

  /** The paths `WalkSubdirs` yields are exactly the selected entries two or more levels below `dir`. */
  lemma {:induction false} SubdirsYield(dir: Path, cs: seq<Entry>, exts: Option<set<string>>, p: Path)
    ensures p in WalkSubdirs(dir, cs, exts) <==>
            |p| > |dir| + 1 && p[..|dir|] == dir && Selected(p[|p| - 1], exts) && FileAt(cs, p[|dir|..])
    decreases cs, 0
  {
    if cs != [] {
      SubdirsYield(dir, cs[1..], exts, p);
      if |p| >= |dir| {
        FileAtCons(cs, p[|dir|..]);
      }
      var c := cs[0];
      if c.Dir? {
        var sub := dir + [c.name];
        WalkYields(sub, c.children, exts, p);
        if |p| > |dir| + 1 {
          assert p[|dir|..][0] == p[|dir|] && p[|dir|..][1..] == p[|sub|..];
          assert p[..|sub|] == sub <==> p[..|dir|] == dir && p[|dir|] == c.name by {
            if p[..|dir|] == dir && p[|dir|] == c.name {
              assert p[..|sub|] == p[..|dir|] + [p[|dir|]];
            }
            if p[..|sub|] == sub {
              assert p[..|dir|] == p[..|sub|][..|dir|];
            }
          }
        }
      }
    } else if |p| >= |dir| {
      assert !FileAt(cs, p[|dir|..]);
    }
  }

  /** Recursive mode yields exactly the selected non-directory entries at any depth below `dir`. */
  lemma {:induction false} WalkYields(dir: Path, cs: seq<Entry>, exts: Option<set<string>>, p: Path)
    ensures p in Walk(dir, cs, exts) <==>
            |p| > |dir| && p[..|dir|] == dir && Selected(p[|p| - 1], exts) && FileAt(cs, p[|dir|..])
    decreases cs, 1
  {
    FilesOfYields(dir, cs, exts, p);
    SubdirsYield(dir, cs, exts, p);
  }

  /** Recursive mode over the scanned directory: a path is yielded iff it names a non-directory entry and passes the filter. */
  lemma RecursiveYields(root: seq<Entry>, exts: Option<set<string>>, p: Path)
    ensures p in IterateFiles(root, true, exts) <==> FileAt(root, p) && Selected(p[|p| - 1], exts)
  {
    WalkYields([], root, exts, p);
    assert p[..0] == [] && p[0..] == p;
  }

  /** Flat mode yields exactly the selected regular files directly in the scanned directory. */
  lemma {:induction false} FlatYields(cs: seq<Entry>, exts: Option<set<string>>, p: Path)
    ensures p in IterateFiles(cs, false, exts) <==>
            exists i :: 0 <= i < |cs| && cs[i].File? && cs[i].kind == Regular && Selected(cs[i].name, exts) && p == [cs[i].name]
    decreases cs
  {
    if cs != [] {
      FlatYields(cs[1..], exts, p);
      if exists j :: 0 <= j < |cs[1..]| && cs[1..][j].File? && cs[1..][j].kind == Regular && Selected(cs[1..][j].name, exts) && p == [cs[1..][j].name] {
        var j :| 0 <= j < |cs[1..]| && cs[1..][j].File? && cs[1..][j].kind == Regular && Selected(cs[1..][j].name, exts) && p == [cs[1..][j].name];
        assert cs[j + 1] == cs[1..][j];
      }
      if exists i :: 0 <= i < |cs| && cs[i].File? && cs[i].kind == Regular && Selected(cs[i].name, exts) && p == [cs[i].name] {
        var i :| 0 <= i < |cs| && cs[i].File? && cs[i].kind == Regular && Selected(cs[i].name, exts) && p == [cs[i].name];
        if i > 0 {
          assert cs[1..][i - 1] == cs[i];
        }
      }
    }
  }

  lemma {:induction false} ListTopWithinFiles(cs: seq<Entry>, exts: Option<set<string>>)
    ensures IsSubsequence(ListTop(cs, exts), FilesOf([], cs, exts))
    decreases cs
  {
    if cs != [] {
      ListTopWithinFiles(cs[1..], exts);
      var xs, ys := ListTop(cs, exts), FilesOf([], cs, exts);
      var c := cs[0];
      if c.File? && Selected(c.name, exts) {
        assert [] + [c.name] == [c.name];
        assert ys[0] == [c.name] && ys[1..] == FilesOf([], cs[1..], exts);
        if c.kind == Regular {
          assert xs[0] == [c.name] && xs[1..] == ListTop(cs[1..], exts);
        } else {
          assert xs == ListTop(cs[1..], exts);
        }
      } else {
        assert xs == ListTop(cs[1..], exts) && ys == FilesOf([], cs[1..], exts);
      }
    }
  }

  /** Every path flat mode yields, recursive mode over the same tree and filter yields too, in the same relative order. */
  lemma FlatWithinRecursive(root: seq<Entry>, exts: Option<set<string>>)
    ensures IsSubsequence(IterateFiles(root, false, exts), IterateFiles(root, true, exts))
  {
    ListTopWithinFiles(root, exts);
    SubsequenceConcat(ListTop(root, exts), FilesOf([], root, exts), [], WalkSubdirs([], root, exts));
    assert ListTop(root, exts) + [] == ListTop(root, exts);
    SubsequenceEmpty(WalkSubdirs([], root, exts));
  }

  /** `open(path, "rb")`: the source of the file a path names; a path naming nothing, or a directory, fails to open. */
  function Open(cs: seq<Entry>, p: Path): Source
    decreases cs
  {
    if p == [] || cs == [] then Source([], true)
    else if cs[0].name == p[0] then
      if |p| == 1 && cs[0].File? then cs[0].source
      else if |p| > 1 && cs[0].Dir? then Open(cs[0].children, p[1..])
      else Source([], true)
    else Open(cs[1..], p)
  }
}
