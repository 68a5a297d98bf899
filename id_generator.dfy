/** ElasticsearchIdGenerator: the deterministic document id of a file path
    (the lowercase hex SHA-256 of its absolute path) and the random UUID
    fallback. SHA-256 itself and the random source are parameters. */
module IdGenerator {
  import opened Wrappers
  import opened Paths
  import opened Utf8

  /** A SHA-256 digest (FIPS 180-4): 32 bytes. */
  type Digest = d: seq<int8> | |d| == 32 witness seq(32, i => 0 as int8)

  /** The hash function MessageDigest.getInstance("SHA-256") provides. */
  type Sha256 = seq<int8> -> Digest

  /** The 16 random bytes UUID.randomUUID draws. */
  type RandomBytes = r: seq<int8> | |r| == 16 witness seq(16, i => 0 as int8)

  predicate IsHexChar(c: char) {
    '0' <= c <= '9' || 'a' <= c <= 'f'
  }

  function HexDigit(n: int): (c: char)
    requires 0 <= n < 16
    ensures IsHexChar(c)
  {
    if n < 10 then ('0' as int + n) as char else ('a' as int + n - 10) as char
  }

  function DigitValue(c: char): (n: int)
    requires IsHexChar(c)
    ensures 0 <= n < 16
  {
    if '0' <= c <= '9' then c as int - '0' as int else c as int - 'a' as int + 10
  }

  /** Integer.toHexString of a non-negative int: lowercase, no leading zeros. */
  function ToHexString(n: nat): (r: string)
    ensures |r| >= 1
  {
    if n < 16 then [HexDigit(n)] else ToHexString(n / 16) + [HexDigit(n % 16)]
  }

  /** The two-character rendering of one digest byte. */
  function ByteHex(b: int8): string {
    [HexDigit(Unsigned(b) / 16), HexDigit(Unsigned(b) % 16)]
  }

  /** The hex rendering of a byte sequence, two characters per byte. */
  function HexEncode(d: seq<int8>): string {
    if d == [] then [] else HexEncode(d[..|d| - 1]) + ByteHex(d[|d| - 1])
  }

  /** toHexString of an unsigned byte, zero-padded when it is one character
      long, is exactly the two-character rendering. */
  lemma PaddedByteHex(b: int8)
    ensures var h := ToHexString(Unsigned(b));
            (if |h| == 1 then "0" + h else h) == ByteHex(b)
  {
    var u := Unsigned(b);
    if u >= 16 {
      assert ToHexString(u / 16) == [HexDigit(u / 16)];
    }
  }

  /** Each byte becomes exactly two lowercase hex characters, so a rendering
      is twice as long as its digest and uses only [0-9a-f]. */
  lemma {:induction false} HexEncodeShape(d: seq<int8>)
    ensures |HexEncode(d)| == 2 * |d|
    ensures forall i :: 0 <= i < |HexEncode(d)| ==> IsHexChar(HexEncode(d)[i])
    ensures forall k :: 0 <= k < |d| ==>
              HexEncode(d)[2 * k] == HexDigit(Unsigned(d[k]) / 16) && HexEncode(d)[2 * k + 1] == HexDigit(Unsigned(d[k]) % 16)
  {
    if d != [] {
      var init := d[..|d| - 1];
      HexEncodeShape(init);
      var r := HexEncode(d);
      assert r == HexEncode(init) + ByteHex(d[|d| - 1]);
      forall k | 0 <= k < |d|
        ensures r[2 * k] == HexDigit(Unsigned(d[k]) / 16) && r[2 * k + 1] == HexDigit(Unsigned(d[k]) % 16)
      {
        if k < |init| {
          assert d[k] == init[k];
        }
      }
    }
  }

  /** Reads a rendering back: two hex characters per byte. */
  function HexDecode(s: string): (d: seq<int8>)
    requires forall i :: 0 <= i < |s| ==> IsHexChar(s[i])
    ensures |d| == |s| / 2
  {
    seq(|s| / 2, k requires 0 <= k < |s| / 2 => Signed(16 * DigitValue(s[2 * k]) + DigitValue(s[2 * k + 1])))
  }

  /** The two digits of one byte read back give that byte. */
  lemma ByteRoundTrip(b: int8)
    ensures Signed(16 * DigitValue(HexDigit(Unsigned(b) / 16)) + DigitValue(HexDigit(Unsigned(b) % 16))) == b
  {
    var u := Unsigned(b);
    assert DigitValue(HexDigit(u / 16)) == u / 16;
    assert DigitValue(HexDigit(u % 16)) == u % 16;
    SignedUnsigned(b);
  }

  /** Decoding a rendering gives back the digest. */
  lemma HexRoundTrip(d: seq<int8>)
    ensures forall i :: 0 <= i < |HexEncode(d)| ==> IsHexChar(HexEncode(d)[i])
    ensures HexDecode(HexEncode(d)) == d
  {
    HexEncodeShape(d);
    var s := HexEncode(d);
    var back := HexDecode(s);
    assert |back| == |d|;
    forall k | 0 <= k < |d| ensures back[k] == d[k] {
      var u := Unsigned(d[k]);
      assert s[2 * k] == HexDigit(u / 16) && s[2 * k + 1] == HexDigit(u % 16);
      assert back[k] == Signed(16 * DigitValue(s[2 * k]) + DigitValue(s[2 * k + 1]));
      ByteRoundTrip(d[k]);
    }
  }

  /** The hex rendering is injective: distinct digests give distinct ids. */
  lemma HexEncodeInjective(d1: seq<int8>, d2: seq<int8>)
    requires HexEncode(d1) == HexEncode(d2)
    ensures d1 == d2
  {
    HexRoundTrip(d1);
    HexRoundTrip(d2);
  }

  /** The StringBuilder loop of generateIdFromFilePath: every byte is rendered
      with toHexString and padded with a '0' when that gives one character. */
  method HexString(hash: seq<int8>) returns (hex: string)
    ensures hex == HexEncode(hash)
  {
    hex := [];
    for i := 0 to |hash|
      invariant hex == HexEncode(hash[..i])
    {
      var h := ToHexString(Unsigned(hash[i]));
      if |h| == 1 {
        hex := hex + ['0'];
      }
      hex := hex + h;
      PaddedByteHex(hash[i]);
      assert hash[..i + 1][..i] == hash[..i];
    }
    assert hash[..|hash|] == hash;
  }

  /** UUID.randomUUID: the version nibble becomes 4 and the variant bits 10. */
  function VersionFour(r: RandomBytes): (v: RandomBytes)
    ensures Unsigned(v[6]) / 16 == 4
    ensures 8 <= Unsigned(v[8]) / 16 < 12
    ensures forall i :: 0 <= i < 16 && i != 6 && i != 8 ==> v[i] == r[i]
  {
    r[6 := Signed(Unsigned(r[6]) % 16 + 0x40)][8 := Signed(Unsigned(r[8]) % 64 + 0x80)]
  }

  /** generateGenericId: UUID.toString, the bytes in hex grouped 8-4-4-4-12. */
  function GenerateGenericId(random: RandomBytes): string {
    var v := VersionFour(random);
    HexEncode(v[..4]) + "-" + HexEncode(v[4..6]) + "-" + HexEncode(v[6..8]) + "-"
      + HexEncode(v[8..10]) + "-" + HexEncode(v[10..])
  }

  /** A generic id has the UUID layout: 36 characters, dashes at 8, 13, 18 and
      23, version digit '4', a variant digit in 8..b, hex everywhere else. */
  lemma GenericIdShape(random: RandomBytes)
    ensures var id := GenerateGenericId(random);
            && |id| == 36
            && id[8] == '-' && id[13] == '-' && id[18] == '-' && id[23] == '-'
            && id[14] == '4'
            && id[19] in "89ab"
            && forall i :: 0 <= i < 36 && i != 8 && i != 13 && i != 18 && i != 23 ==> IsHexChar(id[i])
  {
    var v := VersionFour(random);
    var a, b, c, d, e := v[..4], v[4..6], v[6..8], v[8..10], v[10..];
    HexEncodeShape(a);
    HexEncodeShape(b);
    HexEncodeShape(c);
    HexEncodeShape(d);
    HexEncodeShape(e);
    var id := GenerateGenericId(random);
    assert id[14] == HexEncode(c)[0] == HexDigit(Unsigned(c[0]) / 16);
    assert id[19] == HexEncode(d)[0] == HexDigit(Unsigned(d[0]) / 16);
  }

  /** The id generateIdFromFilePath returns: the hex SHA-256 of the UTF-8 bytes
      of the absolute path string; the generic id when the path is null or no
      SHA-256 implementation is available. */
  function IdFromFilePath(filePath: Option<Path>, workingDir: seq<string>, sha256: Option<Sha256>,
                          random: RandomBytes): string
  {
    if filePath.None? || sha256.None? then GenerateGenericId(random)
    else HexEncode(sha256.value(Encode(ToString(ToAbsolute(filePath.value, workingDir)))))
  }

  /** generateIdFromFilePath. */
  method GenerateIdFromFilePath(filePath: Option<Path>, workingDir: seq<string>, sha256: Option<Sha256>,
                                random: RandomBytes) returns (id: string)
    ensures id == IdFromFilePath(filePath, workingDir, sha256, random)
  {
    if filePath.None? {
      return GenerateGenericId(random);
    }
    var pathToHash := ToString(ToAbsolute(filePath.value, workingDir));
    if sha256.None? {
      return GenerateGenericId(random);
    }
    var hash := sha256.value(Encode(pathToHash));
    id := HexString(hash);
  }

  /** A path-derived id is 64 lowercase hex characters, and it depends on the
      path only through its absolute form. */
  lemma DerivedIdShape(p: Path, workingDir: seq<string>, h: Sha256, random: RandomBytes)
    ensures var id := IdFromFilePath(Some(p), workingDir, Some(h), random);
            && |id| == 64
            && (forall i :: 0 <= i < 64 ==> IsHexChar(id[i]))
            && id == IdFromFilePath(Some(ToAbsolute(p, workingDir)), workingDir, Some(h), random)
  {
    HexEncodeShape(h(Encode(ToString(ToAbsolute(p, workingDir)))));
  }

  /** A fallback id can never equal a path-derived one: one is 36 characters
      with dashes, the other 64 hex characters. */
  lemma FallbackNeverCollides(p: Path, workingDir: seq<string>, h: Sha256, r1: RandomBytes, r2: RandomBytes)
    ensures IdFromFilePath(None, workingDir, Some(h), r1) != IdFromFilePath(Some(p), workingDir, Some(h), r2)
    ensures IdFromFilePath(Some(p), workingDir, None, r1) != IdFromFilePath(Some(p), workingDir, Some(h), r2)
  {
    GenericIdShape(r1);
    DerivedIdShape(p, workingDir, h, r2);
  }

  /** Two paths get the same id only if they have the same absolute path or
      SHA-256 maps two different inputs to one digest. */
  lemma SameIdMeansSamePathOrCollision(p: Path, q: Path, workingDir: seq<string>, h: Sha256, random: RandomBytes)
    requires ValidPath(p) && ValidPath(q)
    requires forall i :: 0 <= i < |workingDir| ==> ValidName(workingDir[i])
    requires IdFromFilePath(Some(p), workingDir, Some(h), random) == IdFromFilePath(Some(q), workingDir, Some(h), random)
    ensures || ToAbsolute(p, workingDir) == ToAbsolute(q, workingDir)
            || (var x, y := Encode(ToString(ToAbsolute(p, workingDir))), Encode(ToString(ToAbsolute(q, workingDir)));
                x != y && h(x) == h(y))
  {
    var ap, aq := ToAbsolute(p, workingDir), ToAbsolute(q, workingDir);
    var x, y := Encode(ToString(ap)), Encode(ToString(aq));
    HexEncodeInjective(h(x), h(y));
    if x == y {
      EncodeInjective(ToString(ap), ToString(aq));
      assert ValidPath(ap) && ValidPath(aq);
      ToStringInjective(ap, aq);
    }
  }
}
