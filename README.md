# Hash-Matcher in Dafny

Hash-Matcher is a command-line script. It takes a directory and a target file, and
reports every file under the directory whose MD5 fingerprint equals the target's.
The target file holds either a fingerprint written out as 32 hexadecimal
characters, or any other content, which is then hashed itself. Options select a
recursive scan (`-r`) and an allow-list of file extensions, matched without regard
to case (`-e`).

This project models the four pieces of logic in the script. MD5 and the file system
are abstract in the model:

- **Digest** (`digest.dfy`): `hashFile`. A `Reader` class stands for a file opened
  in binary mode, and a `RunningDigest` class for the `hashlib.md5()` object.
  `HashFile` runs the `while True` loop over them. MD5 is the parameter
  `md5: seq<byte> -> Fingerprint`, so every result holds for any hash function that
  returns 32 lower-case hexadecimal characters. A file is a `Source`: its bytes, and
  whether reading it raises once those bytes are delivered. A file that cannot be
  opened is `Source([], true)`.
- **FileTree** (`file_tree.dfy`): `iterateFiles` and the extension set built in
  `main`. A directory is a datatype tree whose listings come in a fixed order. A
  path is the list of names below the scanned directory. Recursive mode visits
  entries in the order `os.walk` yields them: the non-directory names of a
  directory first, then each subdirectory in listing order. Flat mode is the
  `os.listdir` loop with its `os.path.isfile` test.
- **Target** (`target.dfy`): `getTargetHash`. It classifies the stripped text as a
  literal fingerprint or falls back to hashing the target file.
- **Driver** (`driver.dfy`): `main` from line 70 on. `Scan` is the counting loop
  and `Summary` the decision of what to report. `Run` covers the whole of `main`,
  with its early exits and the exit status that `raise SystemExit(main())` produces.

`Text` (`text.dfy`) gives `str.strip`, `str.lower` and `str.endswith` on ASCII.
`Sequences` (`sequences.dfy`) defines subsequences, and `Wrappers` defines
`Option` and `Result`. `Scenarios` (`scenarios.dfy`) works through concrete runs
of the model on small trees.

Each loop is a method proved against a specification function: `HashFile` against
`FileDigest` and `Chunks`, and `Scan` against `Matches`. The properties are then
lemmas about those functions.

Four behaviours of the script are easy to misread; the model follows the code:

- When the target file cannot be read, `main` prints the error and returns `None`.
  The process therefore exits with status 0, not with a failure status
  (`Driver.Run`).
- The target file is first read in text mode, and only then, if its text is not
  a literal, hashed as bytes. Content that does not decode in the locale's
  encoding, such as most binary files, raises at that first read. The result is
  the single target error, and no scan happens. The target is never hashed, even
  though its bytes could be (`Target.UndecodableTargetNotHashed`).
- In recursive mode, `os.walk` lists every entry that is not a directory, and the
  script applies no `isfile` test there. So a FIFO, a socket, a device or a broken
  symbolic link below the directory is yielded. It may then fail, block, or be
  hashed like a regular file. Flat mode yields regular files only
  (`FileTree.Kind`, `FileTree.RecursiveYields`, `FileTree.FlatYields`).
- `os.walk` skips a directory it cannot list without reporting it. The script
  gives it no error handler, so no traversal error is ever printed.

## Model

| member | source | states |
|---|---|---|
| Digest.Reader.Read | Hash-Matcher.py:13 | `file.read(n)` returns the next `min(n, remaining)` bytes and advances by that many, and returns the empty piece at the end. It raises exactly when the end of a faulty source is reached, and then does not advance. |
| Digest.RunningDigest.Update | Hash-Matcher.py:16 | `update` appends the piece to the bytes folded in so far. |
| Digest.HashFile | Hash-Matcher.py:8-17 | The loop returns MD5 of the whole content, or the read error when the source fails. The pieces it passes to `update` are exactly `Chunks(bytes, ChunkSize)`, with ChunkSize 1 MiB. |
| Digest.ChunksJoin | Hash-Matcher.py:12-16 | The pieces fed to the digest, joined in order, are the whole file content. |
| Digest.ChunksBounded | Hash-Matcher.py:7-16 | Every piece fed to the digest is non-empty and at most `chunkSize` long. Only the last piece may be shorter, so the loop stops at the first empty read. |
| Digest.ChunksAdvance | Hash-Matcher.py:13-16 | One non-empty read moves the fed pieces one chunk further along `Chunks(bytes)`, and the bytes consumed grow by exactly that piece. |
| Text.Strip | Hash-Matcher.py:44 | `strip()` yields a contiguous slice of the text with no whitespace at either end, and everything cut off on both sides is whitespace. |
| Text.StripPadded | Hash-Matcher.py:44 | Stripping a trimmed text surrounded by any whitespace gives back exactly that text. |
| FileTree.NormalizeExtensions | Hash-Matcher.py:87 | The extension set is `None` exactly when `-e` is absent or empty. Otherwise it holds exactly the lower-cased forms of the given extensions. |
| FileTree.CaseInsensitiveFilter | Hash-Matcher.py:24-28 | Combined with line 87, a name passes iff there is no filter, or its lower-cased form ends with the lower-cased form of some given extension (so `A.TXT` passes both `.txt` and `.TXT`). |
| FileTree.RecursiveYields | Hash-Matcher.py:21-28 | Recursive mode yields a path iff the path names a non-directory entry somewhere in the tree and its last name passes the filter. |
| FileTree.WalkYields | Hash-Matcher.py:22-28 | For any directory reached by the walk, the yielded paths are exactly the filtered non-directory entries below it, prefixed by that directory's path. |
| FileTree.FlatYields | Hash-Matcher.py:30-38 | Flat mode yields a path iff it is the name of a regular file directly in the scanned directory that passes the filter. |
| FileTree.FlatWithinRecursive | Hash-Matcher.py:19-38 | Everything flat mode yields, recursive mode yields too, over the same tree and filter and in the same relative order. |
| Target.GetTargetHash | Hash-Matcher.py:41-50 | Resolving the target gives the literal fingerprint, the hash of the target file, or the single read error, as `TargetHash` defines. |
| Target.LiteralNeverHashed | Hash-Matcher.py:44-46 | When the stripped text is a literal, the result is that stripped text unchanged (not lower-cased). The file's bytes, its faults and the hash function play no part. |
| Target.NonLiteralIsHashed | Hash-Matcher.py:47-50 | When the stripped text is not a literal, the result is MD5 of the target file's bytes, or the error when they cannot be read. |
| Target.UndecodableTargetNotHashed | Hash-Matcher.py:43-50 | When the target's text cannot be read, the result is the single target error, even for bytes that `hashFile` would hash successfully. |
| Target.LiteralIffLoweredDigest | Hash-Matcher.py:45 | A text is a literal iff its lower-cased form has the shape of a `hexdigest()` result. |
| Target.FingerprintRoundTrip | Hash-Matcher.py:43-46 | A fingerprint written into the target file, with any whitespace around it, resolves back to that fingerprint. |
| Target.UppercaseLiteralNeverMatches | Hash-Matcher.py:98 | A literal containing an upper-case letter differs from every computed hash, so the exact comparison never accepts it. |
| Driver.MatchesAdvance | Hash-Matcher.py:95-103 | Checking the next path extends the records collected so far by that path's record, if it matches, with the rest of the paths still to come. |
| Driver.Scan | Hash-Matcher.py:84-105 | After the loop, `checked` is the number of enumerated paths, failed ones included, `matches` is the number of records, and the records are `Matches` of the paths. |
| Driver.MatchesSound | Hash-Matcher.py:98-103 | There are no more records than paths. Every record carries the target hash and an enumerated path whose hashing succeeded with that hash, so no failed path is ever recorded. |
| Driver.MatchesInOrder | Hash-Matcher.py:92-103 | The recorded paths are a subsequence of the enumeration order. |
| Driver.MatchesComplete | Hash-Matcher.py:92-103 | Every enumerated path whose hash equals the target is recorded. |
| Driver.MatchesAndFailuresWithinChecked | Hash-Matcher.py:92-105 | Matches plus hashing failures never exceed the number of paths checked. |
| Driver.UppercaseTargetMatchesNothing | Hash-Matcher.py:45-46 | A target with an upper-case letter yields no records, whatever the tree holds. |
| Driver.Summary | Hash-Matcher.py:107-115 | "No matches found" appears iff there are no matches, and the totals line iff there are some. The found lines are exactly the records, in order, and only when there are matches. The "no files were checked" hint appears iff nothing was checked. |
| Driver.Run | Hash-Matcher.py:70-120 | Each outcome happens exactly in its own case. A missing directory, or else a missing target, stops the run with exit status 1. A target that cannot be resolved stops it before any scan, with status 0. Otherwise the run completes, with status 0, and the outcome holds the resolved target, the scan of the enumerated paths under the normalised filter, and its summary. |
| Scenarios.LiteralFindsEmptyFile | Hash-Matcher.py:41-103 | With a target holding the fingerprint of the empty content, a flat scan of an empty and a non-empty file records exactly the empty file. |
| Scenarios.ShortTargetIsHashed | Hash-Matcher.py:41-103 | A 10-character target whose text decodes is hashed, and a byte-identical file is then recorded as a match. |
| Scenarios.RecursiveScanFiltersByExtension | Hash-Matcher.py:21-28 | A recursive scan of `a.txt` and `sub/b.log`, filtered by `.txt`, yields `a.txt` only. |
| Scenarios.EmptyScanSummary | Hash-Matcher.py:107-115 | An empty scan reports both that nothing matched and that nothing was checked. |

## Left out

- MD5 itself (`hashlib.md5`) is an arbitrary function parameter. No property of the real algorithm is used, beyond the fact that it returns 32 lower-case hexadecimal characters.
- The file system is a given tree.
  - Symbolic links, the listing order the operating system chooses, and files changing during the scan are not modelled.
  - A directory `os.walk` cannot list is not modelled, because it is skipped silently.
  - An unlistable root in flat mode is not modelled either: there it raises out of `main`.
- FileTree.Open: a path is resolved to the first entry of each listing with that name. Names within one directory are assumed distinct.
- Opening a FIFO can block forever. The model has no blocking, so such a file is a `Special` entry whose source may succeed or fail like any other.
- Text-mode decoding of the target file depends on the locale. It is reduced to "the text is available or reading it raises".
- `strip()` and `lower()` are modelled on ASCII. Unicode whitespace and Unicode case mapping are not modelled.
- `argparse` is not modelled. `Args` holds the two options that change what is scanned, and `--verbose` only adds output.
- Printed output is not modelled: the verbose line, the running match count, the per-file error message, and the wording and formatting of the messages. `Summary` gives which summary messages appear and the records they list, in order.
- The closing of file handles by `with` is not modelled. The model opens one file at a time and keeps no handle.
- Digest.HashFile: the piece sequence `fed` is a ghost output. It records what is passed to `update` and is not part of the returned value.
