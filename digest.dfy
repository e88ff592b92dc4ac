/**
 * The digest computer of Hash-Matcher.py (`hashFile`): a byte source is read in
 * pieces of at most `ChunkSize` bytes and every piece is folded, in order, into a
 * running MD5 state until a read comes back empty. MD5 itself is not modelled: it
 * is the parameter `md5`, an arbitrary function from byte strings to fingerprints,
 * so every property below holds whatever that function is.
 */
module Digest {
  import opened Wrappers

  newtype byte = b: int | 0 <= b < 0x100

  /** Membership in `'0123456789abcdef'`. */
  predicate IsHexDigit(c: char) {
    '0' <= c <= '9' || 'a' <= c <= 'f'
  }

  /** What `hexdigest()` returns: 32 lower-case hexadecimal characters. */
  predicate IsHexDigest(s: string) {
    |s| == 32 && forall i :: 0 <= i < |s| ==> IsHexDigit(s[i])
  }

  type Fingerprint = s: string | IsHexDigest(s) witness "00000000000000000000000000000000"

  /** MD5 of a whole byte string, rendered by `hexdigest()`. */
  type DigestFunction = seq<byte> -> Fingerprint

  /** `chunkSize`: 1 MiB. */
  const ChunkSize: nat := 1024 * 1024

  datatype IOError = ReadFailed

  /**
   * What opening a path for binary reading gives: the bytes a reader delivers, and
   * whether, once they are delivered, the next read raises instead of reporting the
   * end of the file. An open that fails is `Source([], true)`.
   */
  datatype Source = Source(bytes: seq<byte>, fault: bool)

  /** The outcome `hashFile` has on a source: the exception, or MD5 of all its bytes. */
  function FileDigest(source: Source, md5: DigestFunction): Result<Fingerprint, IOError> {
    if source.fault then Err(ReadFailed) else Ok(md5(source.bytes))
  }

  function Min(a: nat, b: nat): nat {
    if a < b then a else b
  }

  /** The pieces successive `read(n)` calls return on `s`, up to the first empty read. */
  function Chunks(s: seq<byte>, n: nat): seq<seq<byte>>
    requires n > 0
    decreases |s|
  {
    if s == [] then [] else [s[..Min(n, |s|)]] + Chunks(s[Min(n, |s|)..], n)
  }

  function Concat(cs: seq<seq<byte>>): seq<byte> {
    if cs == [] then [] else cs[0] + Concat(cs[1..])
  }

  /** Joined in order, the pieces are the whole content. */
  lemma {:induction false} ChunksJoin(s: seq<byte>, n: nat)
    requires n > 0
    ensures Concat(Chunks(s, n)) == s
    decreases |s|
  {
    if s != [] {
      var k := Min(n, |s|);
      ChunksJoin(s[k..], n);
      assert Chunks(s, n)[1..] == Chunks(s[k..], n);
      assert s == s[..k] + s[k..];
    }
  }

  /** Every piece is non-empty and at most `n` long, and only the last may be shorter than `n`. */
  lemma {:induction false} ChunksBounded(s: seq<byte>, n: nat)
    requires n > 0
    ensures forall i :: 0 <= i < |Chunks(s, n)| ==> 0 < |Chunks(s, n)[i]| <= n
    ensures forall i :: 0 <= i < |Chunks(s, n)| - 1 ==> |Chunks(s, n)[i]| == n
    decreases |s|
  {
    if s != [] {
      var k := Min(n, |s|);
      ChunksBounded(s[k..], n);
      assert forall i :: 1 <= i < |Chunks(s, n)| ==> Chunks(s, n)[i] == Chunks(s[k..], n)[i - 1];
    }
  }

  /** A read that returns the piece `s[i..j]` keeps `fed` a prefix of the pieces, with the rest still to come. */
  lemma ChunksAdvance(s: seq<byte>, i: nat, j: nat, n: nat, fed: seq<seq<byte>>)
    requires n > 0 && i < |s| && j == i + Min(n, |s| - i)
    requires fed + Chunks(s[i..], n) == Chunks(s, n)
    ensures s[..j] == s[..i] + s[i..j]
    ensures (fed + [s[i..j]]) + Chunks(s[j..], n) == Chunks(s, n)
  {
    assert s[i..][Min(n, |s| - i)..] == s[j..];
    assert s[i..][..Min(n, |s| - i)] == s[i..j];
    assert Chunks(s[i..], n) == [s[i..j]] + Chunks(s[j..], n);
    assert (fed + [s[i..j]]) + Chunks(s[j..], n) == fed + ([s[i..j]] + Chunks(s[j..], n));
  }

  /** A file opened in binary mode, read from front to back. */
  class Reader {
    const source: Source
    var pos: nat

    ghost predicate Valid()
      reads this
    {
      pos <= |source.bytes|
    }

    constructor Open(source: Source)
      ensures this.source == source && pos == 0 && Valid()
    {
      this.source := source;
      pos := 0;
    }

    /**
     * `file.read(n)`: the next `min(n, remaining)` bytes; once everything is read,
     * `b""`, or the exception when the source is faulty.
     */
    method Read(n: nat) returns (r: Result<seq<byte>, IOError>)
      requires Valid() && n > 0
      modifies this
      ensures Valid()
      ensures r.Err? <==> old(pos) == |source.bytes| && source.fault
      ensures pos == if r.Ok? then old(pos) + Min(n, |source.bytes| - old(pos)) else old(pos)
      ensures r.Ok? ==> r.value == source.bytes[old(pos)..pos]
    {
      if pos == |source.bytes| && source.fault {
        return Err(ReadFailed);
      }
      var k := Min(n, |source.bytes| - pos);
      r := Ok(source.bytes[pos..pos + k]);
      pos := pos + k;
    }
  }

  /** The running `hashlib.md5()` object, abstracted to the bytes folded into it so far. */
  class RunningDigest {
    const md5: DigestFunction
    var consumed: seq<byte>

    constructor (md5: DigestFunction)
      ensures this.md5 == md5 && consumed == []
    {
      this.md5 := md5;
      consumed := [];
    }

    /** `update(data)` */
    method Update(data: seq<byte>)
      modifies this
      ensures consumed == old(consumed) + data
    {
      consumed := consumed + data;
    }

    /** `hexdigest()` */
    function HexDigest(): Fingerprint
      reads this
    {
      md5(consumed)
    }
  }

  /**
   * `hashFile`: reads the source in `ChunkSize` pieces into a fresh running digest.
   * `fed` is the sequence of pieces handed to `update`, in order.
   */
  method HashFile(source: Source, md5: DigestFunction) returns (r: Result<Fingerprint, IOError>, ghost fed: seq<seq<byte>>)
    ensures r == FileDigest(source, md5)
    ensures fed == Chunks(source.bytes, ChunkSize)
  {
    var digest := new RunningDigest(md5);
    var file := new Reader.Open(source);
    fed := [];
    while true
      invariant file.Valid() && file.source == source && digest.md5 == md5
      invariant digest.consumed == source.bytes[..file.pos]
      invariant fed + Chunks(source.bytes[file.pos..], ChunkSize) == Chunks(source.bytes, ChunkSize)
      decreases |source.bytes| - file.pos
    {
      ghost var before := file.pos;
      var data := file.Read(ChunkSize);
      if data.Err? {
        assert source.bytes[file.pos..] == [];
        return Err(ReadFailed), fed;
      }
      if data.value == [] {
        break;
      }
      ChunksAdvance(source.bytes, before, file.pos, ChunkSize, fed);
      digest.Update(data.value);
      fed := fed + [data.value];
    }
    assert source.bytes[..file.pos] == source.bytes;
    r := Ok(digest.HexDigest());
  }
}
