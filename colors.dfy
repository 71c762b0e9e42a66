/**
 * Display colours derived from names. The MD5 digest itself is not modelled:
 * it is a parameter of type `Md5`, any function from text to 32 lower-case
 * hexadecimal characters, so every property below holds whatever the digest
 * function is.
 */
module Colors {

  /** The characters `hexdigest()` produces. */
  predicate IsHexDigit(c: char) { '0' <= c <= '9' || 'a' <= c <= 'f' }

  /** A 128-bit digest rendered as 32 lower-case hexadecimal characters. */
  type HexDigest = s: string | |s| == 32 && forall i :: 0 <= i < |s| ==> IsHexDigit(s[i])
    witness "00000000000000000000000000000000"

  /** MD5 of a string's UTF-8 encoding, in hexadecimal. */
  type Md5 = string -> HexDigest

  /** `#` followed by six hexadecimal digits. */
  predicate IsHexColor(c: string) {
    |c| == 7 && c[0] == '#' && forall i :: 1 <= i < 7 ==> IsHexDigit(c[i])
  }

  /** The seed used when a task's assignee has no collaborator row. */
  const UnknownAssignee: string := "Unknown Assignee"

  /** The colour for a name: `#` and the first six digits of its digest. */
  function GenerateHexColor(md5: Md5, name: string): (c: string)
    ensures IsHexColor(c)
    ensures c[1..] == md5(name)[..6]
  {
    "#" + md5(name)[..6]
  }

  /** Two names share a colour exactly when their digests share the first six
      digits; in particular equal names always share a colour. */
  lemma SameColorIffSameDigestPrefix(md5: Md5, a: string, b: string)
    ensures GenerateHexColor(md5, a) == GenerateHexColor(md5, b) <==> md5(a)[..6] == md5(b)[..6]
  {
    var ca, cb := GenerateHexColor(md5, a), GenerateHexColor(md5, b);
    if ca == cb {
      assert ca[1..] == cb[1..];
    }
  }
}
