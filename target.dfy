/**
 * Target resolution in Hash-Matcher.py (`getTargetHash`): the target file's text,
 * stripped, is taken verbatim as the fingerprint when it is 32 characters that are
 * hexadecimal once lower-cased; otherwise the target file's bytes are hashed. Any
 * failure on the way becomes the one error that `main` reports before returning.
 */
module Target {
  import opened Wrappers
  import opened Text
  import opened Digest

  /**
   * The target file as the two opens of `getTargetHash` see it: its content read as
   * text (`None` when reading or decoding it raises) and its bytes for `hashFile`.
   */
  datatype TargetFile = TargetFile(text: Option<string>, source: Source)

  /** The `ValueError` raised at the end of `getTargetHash`. */
  datatype TargetError = TargetReadError

  /** `len(hash) == 32 and all(c in '0123456789abcdef' for c in hash.lower())` */
  predicate IsLiteral(t: string) {
    |t| == 32 && forall i :: 0 <= i < |Lower(t)| ==> IsHexDigit(Lower(t)[i])
  }

  /** The value `getTargetHash` returns or the error it raises. */
  function TargetHash(target: TargetFile, md5: DigestFunction): Result<string, TargetError> {
    match target.text
    case None => Err(TargetReadError)
    case Some(text) =>
      var t := Strip(text);
      if IsLiteral(t) then Ok(t)
      else match FileDigest(target.source, md5)
        case Ok(h) => Ok(h)
        case Err(_) => Err(TargetReadError)
  }

  /** `getTargetHash(targetFile)` */
  method GetTargetHash(target: TargetFile, md5: DigestFunction) returns (r: Result<string, TargetError>)
    ensures r == TargetHash(target, md5)
  {
    if target.text.None? {
      return Err(TargetReadError);
    }
    var hash := Strip(target.text.value);
    if IsLiteral(hash) {
      return Ok(hash);
    }
    var digest, _ := HashFile(target.source, md5);
    if digest.Err? {
      return Err(TargetReadError);
    }
    r := Ok(digest.value);
  }

  /** A literal is returned as it stands after stripping, not lower-cased, and the bytes and the hash function play no part. */
  lemma LiteralNeverHashed(text: string, s1: Source, s2: Source, md5: DigestFunction, other: DigestFunction)
    requires IsLiteral(Strip(text))
    ensures TargetHash(TargetFile(Some(text), s1), md5) == TargetHash(TargetFile(Some(text), s2), other) == Ok(Strip(text))
  {
  }

  /** Text that is not a literal makes the target hash that of the target file's bytes, or the error when they cannot be read. */
  lemma NonLiteralIsHashed(text: string, source: Source, md5: DigestFunction)
    requires !IsLiteral(Strip(text))
    ensures TargetHash(TargetFile(Some(text), source), md5) ==
            if source.fault then Err(TargetReadError) else Ok(md5(source.bytes))
  {
  }

  /**
   * A target whose text does not decode is never hashed: the text-mode read raises
   * first, and the error is the result even when its bytes could be hashed.
   */
  lemma UndecodableTargetNotHashed(bytes: seq<byte>, md5: DigestFunction)
    ensures FileDigest(Source(bytes, false), md5).Ok?
    ensures TargetHash(TargetFile(None, Source(bytes, false)), md5) == Err(TargetReadError)
  {
  }

  /** A literal is exactly a string that is a fingerprint once lower-cased. */
  lemma LiteralIffLoweredDigest(t: string)
    ensures IsLiteral(t) <==> IsHexDigest(Lower(t))
  {
  }

  lemma {:induction false} LowerKeepsDigest(f: Fingerprint)
    ensures Lower(f) == f
  {
    forall i | 0 <= i < |f| ensures Lower(f)[i] == f[i] {
      assert IsHexDigit(f[i]);
    }
  }

  /**
   * Round trip: a fingerprint written into the target file, with any whitespace
   * around it, is read back as that fingerprint without hashing.
   */
  lemma {:induction false} FingerprintRoundTrip(f: Fingerprint, pre: string, post: string, source: Source, md5: DigestFunction)
    requires AllSpace(pre) && AllSpace(post)
    ensures TargetHash(TargetFile(Some(pre + f + post), source), md5) == Ok(f)
  {
    assert !IsSpace(f[0]) && !IsSpace(f[31]) by {
      assert IsHexDigit(f[0]) && IsHexDigit(f[31]);
    }
    StripPadded(pre, f, post);
    LowerKeepsDigest(f);
  }

  /**
   * A literal with an upper-case letter is never equal to a computed hash, which is
   * lower-case, so the exact comparison in `main` can never match it.
   */
  lemma {:induction false} UppercaseLiteralNeverMatches(t: string, md5: DigestFunction, b: seq<byte>)
    requires Lower(t) != t
    ensures md5(b) != t
  {
    LowerKeepsDigest(md5(b));
  }
}
