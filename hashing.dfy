/** The content fingerprint of hashing.js: the SHA-256 digest of a file's
    bytes written as "0x" followed by two lower-case hexadecimal digits per
    byte. The digest itself (FIPS 180-4, section 6.2) is not computed here:
    it is a parameter, any function from bytes to 32 bytes. */
module Hashing {
  import opened Wrappers
  import opened Js
  import opened Files

  /** A SHA-256 digest: 32 bytes. */
  type Digest = d: seq<byte> | |d| == 32 witness seq(32, _ => 0)

  predicate IsHexChar(c: char) {
    '0' <= c <= '9' || 'a' <= c <= 'f'
  }

  /** The lower-case hexadecimal digit of n. */
  function HexDigit(n: nat): (c: char)
    requires n < 16
    ensures IsHexChar(c)
  {
    if n < 10 then ('0' as int + n) as char else ('a' as int + n - 10) as char
  }

  /** The value of a lower-case hexadecimal digit. */
  function HexValue(c: char): (r: Option<nat>)
    ensures r.Some? <==> IsHexChar(c)
    ensures r.Some? ==> r.value < 16 && HexDigit(r.value) == c
  {
    if '0' <= c <= '9' then Some(c as int - '0' as int)
    else if 'a' <= c <= 'f' then Some(c as int - 'a' as int + 10)
    else None
  }

  /** `n.toString(16)` for a non-negative integer: its base-16 digits, most
      significant first, without leading zeros. */
  function ToHexString(n: nat): (r: string)
    ensures 1 <= |r|
    ensures forall k :: 0 <= k < |r| ==> IsHexChar(r[k])
    decreases n
  {
    if n < 16 then [HexDigit(n)] else ToHexString(n / 16) + [HexDigit(n % 16)]
  }

  /** `s.padStart(width, fill)` for a one-character fill. */
  function PadStart(s: string, width: nat, fill: char): string {
    if |s| >= width then s else seq(width - |s|, _ => fill) + s
  }

  /** `b.toString(16).padStart(2, '0')`: exactly two digits, the high
      nibble first, zero-padded. */
  function ByteToHex(b: byte): (r: string)
    ensures r == [HexDigit(b as nat / 16), HexDigit(b as nat % 16)]
  {
    var n := b as nat;
    assert n >= 16 ==> ToHexString(n) == [HexDigit(n / 16)] + [HexDigit(n % 16)];
    PadStart(ToHexString(n), 2, '0')
  }

  /** `bytes.map(b => ByteToHex(b)).join('')`. */
  function EncodeHex(bytes: seq<byte>): (r: string)
    ensures |r| == 2 * |bytes|
    ensures forall k :: 0 <= k < |r| ==> IsHexChar(r[k])
  {
    if bytes == [] then "" else ByteToHex(bytes[0]) + EncodeHex(bytes[1..])
  }

  /** Reading pairs of lower-case hexadecimal digits back into bytes;
      None for an odd length or a character that is not such a digit. */
  function DecodeHex(s: string): Option<seq<byte>>
    decreases |s|
  {
    if |s| == 0 then Some([])
    else if |s| == 1 then None
    else match (HexValue(s[0]), HexValue(s[1]), DecodeHex(s[2..]))
      case (Some(hi), Some(lo), Some(rest)) => Some([(hi * 16 + lo) as byte] + rest)
      case _ => None
  }

  /** Byte order is preserved: decoding the encoding gives the bytes back. */
  lemma {:induction false} DecodeEncode(bytes: seq<byte>)
    ensures DecodeHex(EncodeHex(bytes)) == Some(bytes)
  {
    if bytes != [] {
      var b := bytes[0] as nat;
      var e := EncodeHex(bytes);
      assert e == ByteToHex(bytes[0]) + EncodeHex(bytes[1..]);
      assert e[2..] == EncodeHex(bytes[1..]);
      DecodeEncode(bytes[1..]);
      assert HexValue(e[0]) == Some(b / 16);
      assert HexValue(e[1]) == Some(b % 16);
      assert ((b / 16 * 16 + b % 16) as byte) == bytes[0];
      assert [bytes[0]] + bytes[1..] == bytes;
    }
  }

  /** Distinct byte strings have distinct encodings. */
  lemma EncodeInjective(a: seq<byte>, b: seq<byte>)
    requires EncodeHex(a) == EncodeHex(b)
    ensures a == b
  {
    DecodeEncode(a);
    DecodeEncode(b);
  }

  /** The fingerprint of a digest: "0x" and its hexadecimal encoding. */
  function Fingerprint(d: Digest): string {
    "0x" + EncodeHex(d)
  }

  /** A fingerprint is "0x" and then 64 lower-case hexadecimal digits that
      decode back to the digest. */
  lemma FingerprintFormat(d: Digest)
    ensures var r := Fingerprint(d);
      |r| == 66 && r[..2] == "0x" && (forall k :: 2 <= k < 66 ==> IsHexChar(r[k]))
      && DecodeHex(r[2..]) == Some(d)
  {
    var r := Fingerprint(d);
    assert r[2..] == EncodeHex(d);
    DecodeEncode(d);
  }

  /** Different digests never share a fingerprint. */
  lemma FingerprintInjective(d1: Digest, d2: Digest)
    requires d1 != d2
    ensures Fingerprint(d1) != Fingerprint(d2)
  {
    FingerprintFormat(d1);
    FingerprintFormat(d2);
  }

  /** `calculateSHA256(file)`: resolves with the fingerprint of the digest
      of the file's bytes, or rejects with the reader's error event. */
  function CalculateSHA256(file: File, sha256: seq<byte> -> Digest): (r: Result<string, Thrown>)
    ensures file.content.ReadFailed? <==> r.Failure?
    ensures r.Failure? ==> r.error == file.content.event
    ensures r.Success? ==> r.value == Fingerprint(sha256(file.content.bytes))
  {
    match file.content
    case Loaded(bytes) => Success(Fingerprint(sha256(bytes)))
    case ReadFailed(event) => Failure(event)
  }

  /** A file that can be read hashes to a 66-character "0x"-prefixed
      string that decodes back to the digest of its bytes. */
  lemma CalculateSHA256Format(file: File, sha256: seq<byte> -> Digest)
    requires file.content.Loaded?
    ensures var r := CalculateSHA256(file, sha256);
      r.Success? && |r.value| == 66 && r.value[..2] == "0x"
      && DecodeHex(r.value[2..]) == Some(sha256(file.content.bytes))
  {
    FingerprintFormat(sha256(file.content.bytes));
  }

  /** The fingerprint depends only on the file's bytes: name, size and type
      do not enter it. */
  lemma SameBytesSameFingerprint(f1: File, f2: File, sha256: seq<byte> -> Digest)
    requires f1.content == f2.content
    ensures CalculateSHA256(f1, sha256) == CalculateSHA256(f2, sha256)
  {
  }
}
