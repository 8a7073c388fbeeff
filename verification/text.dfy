/** Validity of the byte payloads the three kinds stand for: UTF-8 text for `str`
    (the syntax of section 4 of RFC 3629) and NUL-terminated bytes for `CStr`. */
module Text {
  import opened Units

  /** A continuation byte, `%x80-BF`. */
  predicate IsTail(b: bv8) {
    0x80 <= b <= 0xBF
  }

  /** The length of the well-formed UTF-8 sequence at the start of `s`, or 0 when `s` is
      empty or does not start with one. Overlong forms, surrogates and values above
      U+10FFFF are excluded by the second-byte ranges. */
  function LeadLength(s: seq<bv8>): (n: nat)
    ensures n <= |s| && n <= 4
    ensures n > 0 ==> |s| > 0
  {
    if |s| == 0 then 0
    else
      var b := s[0];
      if b <= 0x7F then 1
      else if 0xC2 <= b <= 0xDF then
        if |s| >= 2 && IsTail(s[1]) then 2 else 0
      else if 0xE0 <= b <= 0xEF then
        var lo: bv8 := if b == 0xE0 then 0xA0 else 0x80;
        var hi: bv8 := if b == 0xED then 0x9F else 0xBF;
        if |s| >= 3 && lo <= s[1] <= hi && IsTail(s[2]) then 3 else 0
      else if 0xF0 <= b <= 0xF4 then
        var lo: bv8 := if b == 0xF0 then 0x90 else 0x80;
        var hi: bv8 := if b == 0xF4 then 0x8F else 0xBF;
        if |s| >= 4 && lo <= s[1] <= hi && IsTail(s[2]) && IsTail(s[3]) then 4 else 0
      else 0
  }

  /** `s` is a concatenation of well-formed UTF-8 sequences: the invariant of Rust's `str`. */
  predicate ValidUtf8(s: seq<bv8>)
    decreases |s|
  {
    |s| == 0 || (LeadLength(s) > 0 && ValidUtf8(s[LeadLength(s)..]))
  }

  /** The bytes of a string literal's value. */
  type Utf8Bytes = s: seq<bv8> | ValidUtf8(s) witness []

  /** No byte of `s` is NUL. */
  predicate NulFree(s: seq<bv8>) {
    forall i :: 0 <= i < |s| ==> s[i] != 0
  }

  /** The bytes of a C string literal's value, without the terminator. */
  type NulFreeBytes = s: seq<bv8> | NulFree(s) witness []

  /** `s` ends in NUL and holds no other NUL: what `CStr::from_bytes_with_nul_unchecked`
      demands. */
  predicate IsCStrWithNul(s: seq<bv8>) {
    |s| > 0 && s[|s| - 1] == 0 && NulFree(s[..|s| - 1])
  }

  /** A C string's bytes including the terminator. */
  type CStrBytes = s: seq<bv8> | IsCStrWithNul(s) witness [0]

  /** Appending the terminator to NUL-free bytes gives a valid C string, and that is the
      only way to get one. */
  lemma WithNul(s: seq<bv8>)
    ensures IsCStrWithNul(s + [0]) <==> NulFree(s)
  {
    assert (s + [0])[..|s|] == s;
  }

  /** A C string with its terminator is exactly some NUL-free bytes followed by NUL. */
  lemma CStrSplits(bytes: seq<bv8>)
    ensures IsCStrWithNul(bytes) <==> exists s :: NulFree(s) && bytes == s + [0]
  {
    if IsCStrWithNul(bytes) {
      assert bytes == bytes[..|bytes| - 1] + [0];
    }
    if s :| NulFree(s) && bytes == s + [0] {
      WithNul(s);
    }
  }

  /** Every 7-bit (ASCII) byte string is valid UTF-8. */
  lemma {:induction false} AsciiIsUtf8(s: seq<bv8>)
    requires forall i :: 0 <= i < |s| ==> s[i] <= 0x7F
    ensures ValidUtf8(s)
    decreases |s|
  {
    if |s| > 0 {
      assert LeadLength(s) == 1;
      AsciiIsUtf8(s[1..]);
    }
  }

  /** What `Data::from_raw` demands of the bytes for each type: UTF-8 for `str`, nothing for
      `[u8]`, and for `CStr` some NUL-free bytes followed by the terminator. */
  predicate ValidFor(k: Kind, bytes: seq<bv8>)
    ensures k == ByteSlice ==> ValidFor(k, bytes)
    ensures k == CStr ==> (ValidFor(k, bytes) <==> exists s :: NulFree(s) && bytes == s + [0])
  {
    match k
    case Str => ValidUtf8(bytes)
    case ByteSlice => true
    case CStr => CStrSplits(bytes); IsCStrWithNul(bytes)
  }
}
