/**
 * Authentication (`src/server/auth/index.ts`): the user id derived from an
 * Ethereum address, the CSRF nonce `authorize` hands to Sign-In with
 * Ethereum, the provider list shown on the sign-in page, and the `session`
 * and `jwt` callbacks together with the custom JWT `encode`.
 *
 * SHA-256 is a parameter (any function from strings to 32-byte digests); the
 * model covers only what the source does with the digest. SIWE message
 * parsing and signature checking, cookie access, `decodeURI` and the
 * database adapter are parameters or left out.
 */
module Auth {
  import opened Wrappers
  import opened Ascii

  // =====================================================================
  // JavaScript `&` and `|` on small non-negative integers
  // =====================================================================

  /** `a & b`, bit by bit from the least significant bit. */
  function BitAnd(a: nat, b: nat): nat
  {
    if a == 0 || b == 0 then 0
    else 2 * BitAnd(a / 2, b / 2) + (if a % 2 == 1 && b % 2 == 1 then 1 else 0)
  }

  /** `a | b`, bit by bit from the least significant bit. */
  function BitOr(a: nat, b: nat): nat
  {
    if a == 0 then b
    else if b == 0 then a
    else 2 * BitOr(a / 2, b / 2) + (if a % 2 == 1 || b % 2 == 1 then 1 else 0)
  }

  function Pow2(k: nat): (p: nat)
    ensures p >= 1
  {
    if k == 0 then 1 else 2 * Pow2(k - 1)
  }

  lemma ModUnique(x: int, d: int, q: int, r: int)
    requires d > 0 && 0 <= r < d && x == q * d + r
    ensures x / d == q && x % d == r
  {
    var q0, r0 := x / d, x % d;
    var t := q0 - q;
    assert t * d == r - r0 by {
      assert q0 * d + r0 == q * d + r;
      assert q0 * d - q * d == t * d;
    }
  }

  lemma DivModHalf(x: nat, p: nat)
    requires p >= 1
    ensures x % (2 * p) == 2 * ((x / 2) % p) + x % 2
  {
    var q := (x / 2) / p;
    var r := (x / 2) % p;
    assert x / 2 == q * p + r;
    assert x == q * (2 * p) + (2 * r + x % 2);
    ModUnique(x, 2 * p, q, 2 * r + x % 2);
  }

  /** One step of `&` against an odd mask: the low bit of `x` survives. */
  lemma BitAndOddMask(x: nat, m: nat)
    requires x > 0 && m % 2 == 1
    ensures BitAnd(x, m) == 2 * BitAnd(x / 2, m / 2) + x % 2
  {
  }

  /** Masking with `2^k - 1` keeps the low `k` bits. */
  lemma {:induction false} BitAndLowMask(x: nat, k: nat)
    ensures BitAnd(x, Pow2(k) - 1) == x % Pow2(k)
  {
    if k == 0 {
      assert Pow2(k) == 1;
      assert BitAnd(x, 0) == 0;
    } else if x == 0 {
      ModUnique(0, Pow2(k), 0, 0);
    } else {
      var p := Pow2(k - 1);
      var m := Pow2(k) - 1;
      assert m == 2 * (p - 1) + 1;
      BitAndOddMask(x, m);
      BitAndLowMask(x / 2, k - 1);
      var low := BitAnd(x / 2, p - 1);
      assert BitAnd(x, m) == 2 * low + x % 2;
      assert low == (x / 2) % p;
      DivModHalf(x, p);
      assert x % Pow2(k) == x % (2 * p);
      assert BitAnd(x, Pow2(k) - 1) == x % Pow2(k);
    }
  }

  /** Or-ing bits above a value below `2^k` is addition. */
  lemma {:induction false} BitOrHighBits(y: nat, c: nat, k: nat)
    requires y < Pow2(k)
    ensures BitOr(y, c * Pow2(k)) == y + c * Pow2(k)
  {
    if k > 0 && y > 0 && c > 0 {
      var h := c * Pow2(k);
      assert h == 2 * (c * Pow2(k - 1));
      assert h / 2 == c * Pow2(k - 1) && h % 2 == 0;
      BitOrHighBits(y / 2, c, k - 1);
    }
  }

  /** `(x & 0x0fff) | 0x4000` for a 16-bit `x`: the top nibble becomes 4. */
  lemma VersionMask(x: nat)
    ensures BitOr(BitAnd(x, 0x0fff), 0x4000) == 0x4000 + x % 0x1000
  {
    assert Pow2(12) == 0x1000 by {
      assert Pow2(4) == 16;
      assert Pow2(8) == 256;
    }
    BitAndLowMask(x, 12);
    BitOrHighBits(x % 0x1000, 4, 12);
  }

  /** `(y & 0x3f) | 0x80` for a byte `y`: the top two bits become `10`. */
  lemma VariantMask(y: nat)
    ensures BitOr(BitAnd(y, 0x3f), 0x80) == 0x80 + y % 0x40
  {
    assert Pow2(6) == 0x40 by {
      assert Pow2(3) == 8;
    }
    BitAndLowMask(y, 6);
    BitOrHighBits(y % 0x40, 2, 6);
  }

  // =====================================================================
  // Ethereum address -> user id
  // =====================================================================

  /** A SHA-256 digest: 32 bytes. */
  type Sha256Digest = d: seq<Byte> | |d| == 32 witness seq(32, (i: int) => 0 as Byte)

  lemma NatToHexFour(v: nat)
    requires 0x1000 <= v < 0x1_0000
    ensures NatToHex(v) == [HexDigit(v / 0x1000), HexDigit(v / 0x100 % 16), HexDigit(v / 16 % 16), HexDigit(v % 16)]
  {
    assert v / 16 / 16 == v / 0x100;
    assert v / 0x100 / 16 == v / 0x1000;
    assert NatToHex(v / 0x1000) == [HexDigit(v / 0x1000)];
    assert NatToHex(v / 0x100) == NatToHex(v / 0x1000) + [HexDigit(v / 0x100 % 16)];
    assert NatToHex(v / 16) == NatToHex(v / 0x100) + [HexDigit(v / 16 % 16)];
    assert NatToHex(v) == NatToHex(v / 16) + [HexDigit(v % 16)];
  }

  lemma NatToHexTwo(w: nat)
    requires 16 <= w < 0x100
    ensures NatToHex(w) == [HexDigit(w / 16), HexDigit(w % 16)]
  {
  }

  /** The five groups `ethereumAddressToUUID` cuts from the digest's hex, before joining. */
  function UuidGroups(digest: Sha256Digest): (groups: seq<string>)
    ensures |groups| == 5
  {
    var hex := BytesHex(digest);
    [ hex[0..8],
      hex[8..12],
      NatToHex(BitOr(BitAnd(ParseHex(hex[12..16]), 0x0fff), 0x4000)),
      NatToHex(BitOr(BitAnd(ParseHex(hex[16..18]), 0x3f), 0x80)) + hex[18..20],
      hex[20..32] ]
  }

  /** The UUID-shaped id built from a digest: the groups joined with `-`. */
  function UuidFromDigest(digest: Sha256Digest): string
  {
    Join(UuidGroups(digest), '-')
  }

  /** `ethereumAddressToUUID`: hash the lower-cased address, then shape the digest. */
  function EthereumAddressToUuid(address: string, sha256: string -> Sha256Digest): string
  {
    UuidFromDigest(sha256(Lower(address)))
  }

  // --- the reference: a version-4 UUID as section 4.4 of RFC 4122 builds it ---

  /**
   * Section 4.4 of RFC 4122 on 16 octets: the four high bits of octet 6
   * (time_hi_and_version, section 4.1.3) become the version 0100, the two
   * high bits of octet 8 (clock_seq_hi_and_reserved, section 4.1.1) become
   * the variant 10.
   */
  function Rfc4122V4Octets(b: seq<Byte>): (r: seq<Byte>)
    requires |b| == 16
    ensures |r| == 16
    ensures r[6] / 16 == 4 && r[8] / 64 == 2
    ensures r[6] % 16 == b[6] % 16 && r[8] % 64 == b[8] % 64
    ensures forall i :: 0 <= i < 16 && i != 6 && i != 8 ==> r[i] == b[i]
  {
    b[6 := 0x40 + b[6] % 16][8 := 0x80 + b[8] % 64]
  }

  /** The string representation of section 3 of RFC 4122: 8-4-4-4-12 hex digits. */
  function FormatUuid(b: seq<Byte>): string
    requires |b| == 16
  {
    BytesHex(b[0..4]) + "-" + BytesHex(b[4..6]) + "-" + BytesHex(b[6..8]) + "-"
    + BytesHex(b[8..10]) + "-" + BytesHex(b[10..16])
  }

  lemma JoinFive(a: string, b: string, c: string, d: string, e: string, sep: char)
    ensures Join([a, b, c, d, e], sep) == a + [sep] + b + [sep] + c + [sep] + d + [sep] + e
  {
    var s := [sep];
    assert [d, e][1..] == [e];
    assert Join([e], sep) == e;
    var j2 := Join([d, e], sep);
    assert j2 == d + s + e;
    assert [c, d, e][1..] == [d, e];
    var j3 := Join([c, d, e], sep);
    assert j3 == c + s + j2;
    assert [b, c, d, e][1..] == [c, d, e];
    var j4 := Join([b, c, d, e], sep);
    assert j4 == b + s + j3;
    assert [a, b, c, d, e][1..] == [b, c, d, e];
    assert Join([a, b, c, d, e], sep) == a + s + j4;
    Flatten5(a, b, c, d, e, s);
  }

  lemma BytesHexPair(x: Byte, y: Byte)
    ensures BytesHex([x, y]) == ByteHex(x) + ByteHex(y)
  {
    assert [x, y][1..] == [y];
    assert [y][1..] == [];
  }

  /** The digits `n.toString(16)` gives after forcing the version nibble. */
  lemma VersionDigits(a: nat, b: nat)
    requires a < 16 && b < 256
    ensures NatToHex(0x4000 + a * 256 + b) == [HexDigit(4), HexDigit(a), HexDigit(b / 16), HexDigit(b % 16)]
  {
    var v := 0x4000 + a * 256 + b;
    ModUnique(v, 0x1000, 4, a * 256 + b);
    ModUnique(v, 0x100, 64 + a, b);
    ModUnique(64 + a, 16, 4, a);
    ModUnique(b, 16, b / 16, b % 16);
    ModUnique(v, 16, (64 + a) * 16 + b / 16, b % 16);
    ModUnique((64 + a) * 16 + b / 16, 16, 64 + a, b / 16);
    NatToHexFour(v);
  }

  lemma HexOfTwoOctets(digest: Sha256Digest, k: nat)
    requires k + 2 <= 32
    ensures BytesHex(digest)[2 * k..2 * k + 4] == ByteHex(digest[k]) + ByteHex(digest[k + 1])
  {
    BytesHexSlice(digest, k, k + 2);
    assert digest[k..k + 2] == [digest[k], digest[k + 1]];
    BytesHexPair(digest[k], digest[k + 1]);
  }

  /** The version field computed from two octets: the high nibble becomes 4. */
  lemma MaskedVersion(hi: Byte, lo: Byte)
    ensures BitOr(BitAnd(ParseHex(ByteHex(hi) + ByteHex(lo)), 0x0fff), 0x4000) == 0x4000 + (hi % 16) * 256 + lo
  {
    var x := ParseHex(ByteHex(hi) + ByteHex(lo));
    ParseTwoBytesHex(hi, lo);
    VersionMask(x);
    assert x == (hi / 16) * 0x1000 + ((hi % 16) * 256 + lo);
    ModUnique(x, 0x1000, hi / 16, (hi % 16) * 256 + lo);
  }

  lemma VersionField(digest: Sha256Digest)
    ensures UuidGroups(digest)[2] == NatToHex(BitOr(BitAnd(ParseHex(ByteHex(digest[6]) + ByteHex(digest[7])), 0x0fff), 0x4000))
  {
    HexOfTwoOctets(digest, 6);
  }

  /** The third group: the version nibble forced onto the 16-bit value of octets 6 and 7. */
  lemma VersionGroupValue(digest: Sha256Digest)
    ensures UuidGroups(digest)[2] == NatToHex(0x4000 + ((digest[6] as nat) % 16) * 256 + digest[7])
  {
    VersionField(digest);
    MaskedVersion(digest[6], digest[7]);
  }

  lemma V4OctetsPair(b: seq<Byte>, k: nat)
    requires |b| == 16 && k + 2 <= 16
    ensures var r := Rfc4122V4Octets(b);
            BytesHex(r[k..k + 2]) == ByteHex(r[k]) + ByteHex(r[k + 1])
  {
    var r := Rfc4122V4Octets(b);
    assert r[k..k + 2] == [r[k], r[k + 1]];
    BytesHexPair(r[k], r[k + 1]);
  }

  /** The third group is octets 6 and 7 of the version-4 octets. */
  lemma VersionGroup(digest: Sha256Digest)
    ensures UuidGroups(digest)[2] == BytesHex(Rfc4122V4Octets(digest[..16])[6..8])
  {
    var a: nat := (digest[6] as nat) % 16;
    VersionGroupValue(digest);
    VersionDigits(a, digest[7]);
    V4OctetsPair(digest[..16], 6);
  }

  /** The fourth group is octets 8 and 9 of the version-4 octets. */
  lemma VariantGroup(digest: Sha256Digest)
    ensures UuidGroups(digest)[3] == BytesHex(Rfc4122V4Octets(digest[..16])[8..10])
  {
    var hex := BytesHex(digest);
    var d8, d9 := digest[8], digest[9];
    BytesHexSlice(digest, 8, 9);
    BytesHexSlice(digest, 9, 10);
    assert digest[8..9] == [d8] && digest[9..10] == [d9];
    assert BytesHex([d8]) == ByteHex(d8);
    assert BytesHex([d9]) == ByteHex(d9);
    ParseByteHex(d8);
    VariantMask(d8);
    NatToHexTwo(0x80 + d8 % 64);
    var r := Rfc4122V4Octets(digest[..16]);
    assert r[8..10] == [0x80 + d8 % 64, d9];
    BytesHexPair(0x80 + d8 % 64, d9);
  }

  /**
   * The string slicing of `ethereumAddressToUUID` is exactly the version-4
   * UUID that RFC 4122 builds from the first 16 octets of the digest.
   */
  lemma UuidMatchesRfc4122(digest: Sha256Digest)
    ensures UuidFromDigest(digest) == FormatUuid(Rfc4122V4Octets(digest[..16]))
  {
    var g := UuidGroups(digest);
    var r := Rfc4122V4Octets(digest[..16]);
    BytesHexSlice(digest, 0, 4);
    BytesHexSlice(digest, 4, 6);
    BytesHexSlice(digest, 10, 16);
    assert r[0..4] == digest[0..4] && r[4..6] == digest[4..6] && r[10..16] == digest[10..16];
    VersionGroup(digest);
    VariantGroup(digest);
    JoinFive(g[0], g[1], g[2], g[3], g[4], '-');
    assert g == [g[0], g[1], g[2], g[3], g[4]];
  }

  /** Where the groups of an RFC 4122 string sit. */
  lemma FormatUuidLayout(b: seq<Byte>)
    requires |b| == 16
    ensures var u := FormatUuid(b);
            && |u| == 36
            && u[0..8] == BytesHex(b[0..4]) && u[9..13] == BytesHex(b[4..6]) && u[14..18] == BytesHex(b[6..8])
            && u[19..23] == BytesHex(b[8..10]) && u[24..36] == BytesHex(b[10..16])
            && u == Join([u[0..8], u[9..13], u[14..18], u[19..23], u[24..36]], '-')
  {
    var g0, g1, g2, g3, g4 := BytesHex(b[0..4]), BytesHex(b[4..6]), BytesHex(b[6..8]), BytesHex(b[8..10]), BytesHex(b[10..16]);
    var u := FormatUuid(b);
    assert u == g0 + "-" + g1 + "-" + g2 + "-" + g3 + "-" + g4;
    JoinFive(g0, g1, g2, g3, g4, '-');
  }

  /** The five groups of an RFC 4122 string are what splitting at `-` gives back. */
  lemma FormatUuidSplit(b: seq<Byte>)
    requires |b| == 16
    ensures var u := FormatUuid(b);
            Split(u, '-') == [u[0..8], u[9..13], u[14..18], u[19..23], u[24..36]]
  {
    var u := FormatUuid(b);
    FormatUuidLayout(b);
    var groups := [u[0..8], u[9..13], u[14..18], u[19..23], u[24..36]];
    assert forall k :: 0 <= k < 5 ==> AllLowerHex(groups[k]);
    assert forall k :: 0 <= k < 5 ==> '-' !in groups[k];
    SplitJoin(groups, '-');
  }

  /** The id is five `-`-separated groups of 8, 4, 4, 4 and 12 lower-case hex digits. */
  lemma UuidGroupsShape(digest: Sha256Digest)
    ensures var u := UuidFromDigest(digest);
            && |u| == 36
            && Split(u, '-') == [u[0..8], u[9..13], u[14..18], u[19..23], u[24..36]]
            && AllLowerHex(u[0..8]) && AllLowerHex(u[9..13]) && AllLowerHex(u[14..18])
            && AllLowerHex(u[19..23]) && AllLowerHex(u[24..36])
  {
    var r := Rfc4122V4Octets(digest[..16]);
    UuidMatchesRfc4122(digest);
    FormatUuidLayout(r);
    FormatUuidSplit(r);
  }

  /** The first digits of the third and fourth groups of an RFC 4122 string. */
  lemma FormatUuidLeadDigits(b: seq<Byte>)
    requires |b| == 16
    ensures var u := FormatUuid(b);
            |u| == 36 && u[14] == HexDigit(b[6] / 16) && u[19] == HexDigit(b[8] / 16)
  {
    var u := FormatUuid(b);
    FormatUuidLayout(b);
    assert b[6..8] == [b[6], b[7]] && b[8..10] == [b[8], b[9]];
    BytesHexPair(b[6], b[7]);
    BytesHexPair(b[8], b[9]);
    assert u[14] == u[14..18][0];
    assert u[19] == u[19..23][0];
  }

  /**
   * The third group starts with the version digit `4` and the fourth with a
   * variant digit `8`, `9`, `a` or `b`.
   */
  lemma UuidVersionAndVariant(digest: Sha256Digest)
    ensures var u := UuidFromDigest(digest);
            |u| == 36 && u[14] == '4' && u[19] in {'8', '9', 'a', 'b'}
  {
    var r := Rfc4122V4Octets(digest[..16]);
    UuidMatchesRfc4122(digest);
    FormatUuidLeadDigits(r);
    var v := r[8] / 16;
    assert 8 <= v < 12;
    assert HexDigit(v) in {'8', '9', 'a', 'b'};
  }

  /** Where five joined groups of lengths 8, 4, 4, 4 and 12 sit. */
  lemma JoinFiveLayout(a: string, b: string, c: string, d: string, e: string)
    requires |a| == 8 && |b| == 4 && |c| == 4 && |d| == 4 && |e| == 12
    ensures var u := Join([a, b, c, d, e], '-');
            && |u| == 36
            && u[0..8] == a && u[9..13] == b && u[14..18] == c && u[19..23] == d && u[24..36] == e
  {
    JoinFive(a, b, c, d, e, '-');
  }

  /** After the version digit, the third group copies hex digits 13 to 15 of the digest. */
  lemma VersionGroupTail(digest: Sha256Digest)
    ensures |UuidGroups(digest)[2]| == 4
    ensures UuidGroups(digest)[2][1..] == BytesHex(digest)[13..16]
  {
    var hex := BytesHex(digest);
    var a: nat := (digest[6] as nat) % 16;
    VersionGroupValue(digest);
    VersionDigits(a, digest[7]);
    BytesHexAt(digest, 6);
    BytesHexAt(digest, 7);
  }

  /** The fourth group is two computed digits followed by hex digits 18 and 19 of the digest. */
  lemma VariantGroupTail(digest: Sha256Digest)
    ensures |UuidGroups(digest)[3]| == 4
    ensures UuidGroups(digest)[3][2..] == BytesHex(digest)[18..20]
  {
    var d8 := digest[8];
    BytesHexSlice(digest, 8, 9);
    assert digest[8..9] == [d8];
    assert BytesHex([d8]) == ByteHex(d8);
    ParseByteHex(d8);
    VariantMask(d8);
    NatToHexTwo(0x80 + d8 % 64);
  }

  /**
   * Every other digit is copied from the digest's hex: groups 1, 2 and 5 are
   * its ranges [0,8), [8,12) and [20,32), and the digits after the version
   * and variant digits are its ranges [13,16) and [18,20).
   */
  lemma UuidCopiesDigestHex(digest: Sha256Digest)
    ensures var u := UuidFromDigest(digest);
            var hex := BytesHex(digest);
            && |u| == 36
            && u[0..8] == hex[0..8] && u[9..13] == hex[8..12] && u[24..36] == hex[20..32]
            && u[15..18] == hex[13..16] && u[21..23] == hex[18..20]
  {
    var g := UuidGroups(digest);
    var u := UuidFromDigest(digest);
    VersionGroupTail(digest);
    VariantGroupTail(digest);
    JoinFiveLayout(g[0], g[1], g[2], g[3], g[4]);
    assert g == [g[0], g[1], g[2], g[3], g[4]];
    assert u[15..18] == u[14..18][1..];
    assert u[21..23] == u[19..23][2..];
  }

  /** Addresses that differ only in letter case get the same id. */
  lemma UuidIgnoresAddressCase(a: string, b: string, sha256: string -> Sha256Digest)
    requires SameIgnoringCase(a, b)
    ensures EthereumAddressToUuid(a, sha256) == EthereumAddressToUuid(b, sha256)
  {
    SameIgnoringCaseLower(a, b);
  }

  // =====================================================================
  // The CSRF nonce handed to Sign-In with Ethereum
  // =====================================================================

  /**
   * The nonce `authorize` reads from the `authjs.csrf-token` cookie (already
   * passed through `decodeURI`): the text before the first `|`. An absent
   * or empty cookie, or an empty first piece, gives no nonce.
   */
  function CsrfNonce(cookie: Option<string>): (r: Option<string>)
    ensures r.Some? <==> cookie.Some? && |cookie.value| > 0 && cookie.value[0] != '|'
    ensures r.Some? ==> && 1 <= |r.value| <= |cookie.value| && '|' !in r.value
                        && r.value == cookie.value[..|r.value|]
                        && (|r.value| < |cookie.value| ==> cookie.value[|r.value|] == '|')
  {
    match cookie
    case None => None
    case Some(raw) =>
      if raw == "" then None
      else
        var parts := Split(raw, '|');
        SplitFirst(raw, '|');
        if |parts| < 1 then None
        else if parts[0] == "" then None
        else Some(parts[0])
  }

  /** Auth.js writes the cookie as `token|hash`; the nonce is the token. */
  lemma CsrfNonceOfCookie(token: string, hash: string)
    requires |token| >= 1 && '|' !in token
    ensures CsrfNonce(Some(token + "|" + hash)) == Some(token)
  {
    SplitPrefix(token, hash, '|');
  }

  // =====================================================================
  // authorize
  // =====================================================================

  /** A row of the users table as `getUser` returns it. */
  datatype AuthUser = AuthUser(id: string, name: string, ethereumAddress: string)

  /** The users table, keyed by user id. */
  type Users = map<string, AuthUser>

  /** Every row sits under its own id, as the primary key guarantees. */
  predicate KeyedById(users: Users) {
    forall id :: id in users ==> users[id].id == id
  }

  /**
   * The Ethereum credentials provider's `authorize`. `siweAddress` stands
   * for parsing the signed message and `siwe.verify` against the nonce: it
   * gives the message's address when the signature checks out for that
   * nonce and nothing otherwise (a failed check or a thrown error). The
   * user id is derived from the address; an unknown id is created with the
   * address as both name and Ethereum address, then read back. Returns the
   * user (or nothing) and the users table afterwards.
   */
  function Authorize(csrfCookie: Option<string>, siweAddress: string -> Option<string>,
                     sha256: string -> Sha256Digest, users: Users): (r: (Option<AuthUser>, Users))
    requires KeyedById(users)
    ensures KeyedById(r.1)
    ensures CsrfNonce(csrfCookie).None? ==> r == (None, users)
    ensures r.0.None? ==> r.1 == users
    ensures r.0.Some? ==> && CsrfNonce(csrfCookie).Some?
                          && siweAddress(CsrfNonce(csrfCookie).value).Some?
                          && r.0.value.id == EthereumAddressToUuid(siweAddress(CsrfNonce(csrfCookie).value).value, sha256)
                          && r.0.value.id in r.1 && r.1[r.0.value.id] == r.0.value
                          && r.1.Keys == users.Keys + {r.0.value.id}
                          && (forall id :: id in users ==> r.1[id] == users[id])
  {
    match CsrfNonce(csrfCookie)
    case None => (None, users)
    case Some(nonce) =>
      match siweAddress(nonce)
      case None => (None, users)
      case Some(address) =>
        var id := EthereumAddressToUuid(address, sha256);
        var users' := if id in users then users else users[id := AuthUser(id, address, address)];
        if id in users' then (Some(users'[id]), users') else (None, users')
  }

  /** A first sign-in creates the user from the address. */
  lemma AuthorizeCreates(csrfCookie: Option<string>, siweAddress: string -> Option<string>,
                         sha256: string -> Sha256Digest, users: Users, address: string)
    requires CsrfNonce(csrfCookie).Some? && siweAddress(CsrfNonce(csrfCookie).value) == Some(address)
    requires KeyedById(users) && EthereumAddressToUuid(address, sha256) !in users
    ensures var id := EthereumAddressToUuid(address, sha256);
            Authorize(csrfCookie, siweAddress, sha256, users) == (Some(AuthUser(id, address, address)), users[id := AuthUser(id, address, address)])
  {
  }

  /** A returning user is read back unchanged and the table is left alone. */
  lemma AuthorizeExisting(csrfCookie: Option<string>, siweAddress: string -> Option<string>,
                          sha256: string -> Sha256Digest, users: Users, address: string)
    requires CsrfNonce(csrfCookie).Some? && siweAddress(CsrfNonce(csrfCookie).value) == Some(address)
    requires KeyedById(users) && EthereumAddressToUuid(address, sha256) in users
    ensures Authorize(csrfCookie, siweAddress, sha256, users) == (Some(users[EthereumAddressToUuid(address, sha256)]), users)
  {
  }

  /**
   * Signing in again with the same address in another letter case finds
   * the user the first sign-in created, named after the first spelling.
   */
  lemma AuthorizeIgnoresAddressCase(cookie1: Option<string>, cookie2: Option<string>,
                                    siwe1: string -> Option<string>, siwe2: string -> Option<string>,
                                    sha256: string -> Sha256Digest, users: Users, a: string, b: string)
    requires CsrfNonce(cookie1).Some? && siwe1(CsrfNonce(cookie1).value) == Some(a)
    requires CsrfNonce(cookie2).Some? && siwe2(CsrfNonce(cookie2).value) == Some(b)
    requires KeyedById(users) && SameIgnoringCase(a, b)
    ensures var first := Authorize(cookie1, siwe1, sha256, users);
            var second := Authorize(cookie2, siwe2, sha256, first.1);
            second == (first.0, first.1)
  {
    UuidIgnoresAddressCase(a, b, sha256);
  }

  // =====================================================================
  // Providers and authProviderMap
  // =====================================================================

  /** The `id` and `name` of a provider. */
  datatype ProviderInfo = ProviderInfo(id: string, name: string)

  /** A provider is either a configuration object or a function returning one. */
  datatype Provider = ProviderObject(info: ProviderInfo) | ProviderFactory(make: () -> ProviderInfo)

  /** The optional OAuth settings read from the environment. */
  datatype AuthEnv = AuthEnv(googleId: Option<string>, googleSecret: Option<string>,
                             discordId: Option<string>, discordSecret: Option<string>)

  /** JavaScript truthiness of an optional string. */
  predicate Truthy(v: Option<string>) { v.Some? && v.value != "" }

  predicate GoogleConfigured(env: AuthEnv) { Truthy(env.googleId) && Truthy(env.googleSecret) }

  predicate DiscordConfigured(env: AuthEnv) { Truthy(env.discordId) && Truthy(env.discordSecret) }

  const Google := ProviderObject(ProviderInfo("google", "Google"))
  const Discord := ProviderObject(ProviderInfo("discord", "Discord"))
  const Ethereum := ProviderObject(ProviderInfo("credentials", "Ethereum"))

  /** `authProviders`: Google and Discord when both their settings are set, then the Ethereum credentials provider. */
  function ConfiguredProviders(env: AuthEnv): (r: seq<Provider>)
    ensures |r| >= 1 && r[|r| - 1] == Ethereum
    ensures Google in r <==> GoogleConfigured(env)
    ensures Discord in r <==> DiscordConfigured(env)
    ensures |r| == 1 + (if GoogleConfigured(env) then 1 else 0) + (if DiscordConfigured(env) then 1 else 0)
  {
    (if GoogleConfigured(env) then [Google] else [])
    + (if DiscordConfigured(env) then [Discord] else [])
    + [Ethereum]
  }

  function Describe(p: Provider): ProviderInfo
  {
    match p
    case ProviderObject(info) => info
    case ProviderFactory(make) => make()
  }

  /** `authProviderMap`: each provider's `id` and `name`, without the credentials provider. */
  function AuthProviderMap(providers: seq<Provider>): (r: seq<ProviderInfo>)
    ensures |r| <= |providers|
    ensures forall k :: 0 <= k < |r| ==> r[k].id != "credentials"
  {
    if |providers| == 0 then []
    else
      var info := Describe(providers[0]);
      (if info.id != "credentials" then [info] else []) + AuthProviderMap(providers[1..])
  }

  /** An entry is listed exactly when some provider describes itself so and is not the credentials provider. */
  lemma {:induction false} AuthProviderMapMembers(providers: seq<Provider>, x: ProviderInfo)
    ensures x in AuthProviderMap(providers) <==>
            x.id != "credentials" && exists i :: 0 <= i < |providers| && Describe(providers[i]) == x
  {
    if |providers| > 0 {
      AuthProviderMapMembers(providers[1..], x);
      if x.id != "credentials" && Describe(providers[0]) != x {
        if exists i :: 0 <= i < |providers| && Describe(providers[i]) == x {
          var i :| 0 <= i < |providers| && Describe(providers[i]) == x;
          assert providers[1..][i - 1] == providers[i];
        }
      }
      if x in AuthProviderMap(providers[1..]) {
        var i :| 0 <= i < |providers[1..]| && Describe(providers[1..][i]) == x;
        assert providers[i + 1] == providers[1..][i];
      }
    }
  }

  lemma {:induction false} AuthProviderMapAppend(a: seq<Provider>, b: seq<Provider>)
    ensures AuthProviderMap(a + b) == AuthProviderMap(a) + AuthProviderMap(b)
  {
    if |a| == 0 {
      AppendEmpty(a, b);
    } else {
      var head := if Describe(a[0]).id != "credentials" then [Describe(a[0])] else [];
      TailOfAppend(a, b);
      calc {
        AuthProviderMap(a + b);
        head + AuthProviderMap(a[1..] + b);
        { AuthProviderMapAppend(a[1..], b); }
        head + (AuthProviderMap(a[1..]) + AuthProviderMap(b));
        { AppendAssoc(head, AuthProviderMap(a[1..]), AuthProviderMap(b)); }
        (head + AuthProviderMap(a[1..])) + AuthProviderMap(b);
      }
    }
  }

  /** The sign-in page lists Google and then Discord, each only when configured. */
  lemma ConfiguredProviderMap(env: AuthEnv)
    ensures AuthProviderMap(ConfiguredProviders(env)) ==
            (if GoogleConfigured(env) then [ProviderInfo("google", "Google")] else [])
            + (if DiscordConfigured(env) then [ProviderInfo("discord", "Discord")] else [])
  {
    var g: seq<Provider> := if GoogleConfigured(env) then [Google] else [];
    var d: seq<Provider> := if DiscordConfigured(env) then [Discord] else [];
    AuthProviderMapAppend(g + d, [Ethereum]);
    AuthProviderMapAppend(g, d);
  }

  // =====================================================================
  // Callbacks and the custom JWT encode
  // =====================================================================

  datatype SessionUser = SessionUser(id: Option<string>, name: Option<string>, email: Option<string>, image: Option<string>)

  datatype Session = Session(user: SessionUser, expires: string)

  /** The `session` callback: the session with `user.id` set to the database user's id. */
  function SessionCallback(session: Session, userId: string): (r: Session)
    ensures r.user.id == Some(userId)
    ensures r == session <==> session.user.id == Some(userId)
    ensures r.(user := r.user.(id := session.user.id)) == session
  {
    session.(user := session.user.(id := Some(userId)))
  }

  /** Running the callback twice with the same user is the same as once; a later user wins. */
  lemma SessionCallbackOverwrites(session: Session, first: string, second: string)
    ensures SessionCallback(SessionCallback(session, first), second) == SessionCallback(session, second)
  {
  }

  /** A JSON Web Token's claims as the model tracks them: the subject, the credentials flag, the rest. */
  datatype Token = Token(sub: Option<string>, credentials: bool, claims: map<string, string>)

  /** The `jwt` callback: sign-ins through the credentials provider mark the token. */
  function JwtCallback(token: Token, accountProvider: Option<string>): (r: Token)
    ensures r.credentials <==> token.credentials || accountProvider == Some("credentials")
    ensures r.sub == token.sub && r.claims == token.claims
  {
    if accountProvider == Some("credentials") then token.(credentials := true) else token
  }

  /** Thirty days in milliseconds: `30 * 24 * 60 * 60 * 1000`. */
  const SessionLifetimeMs: int := 30 * 24 * 60 * 60 * 1000

  /** The session row `encode` asks the adapter to create. */
  datatype SessionRow = SessionRow(sessionToken: string, userId: string, expires: int)

  datatype EncodeError = NoUserId | FailedToCreateSession

  /** What `encode` produces: the token string and the session row it created, if any. */
  datatype Encoded = Encoded(token: string, created: Option<SessionRow>)

  /**
   * The custom `jwt.encode`. A token marked by the credentials provider is
   * replaced by a fresh database session: `freshToken` is `randomUUID()`,
   * `now` is `Date.now()`, and `createSession` says whether the adapter
   * returned a session. Any other token goes to the default encoder.
   */
  function Encode(token: Option<Token>, now: int, freshToken: string,
                  createSession: SessionRow -> bool, defaultEncode: Option<Token> -> string): (r: Result<Encoded, EncodeError>)
    ensures (token.None? || !token.value.credentials) ==> r == Ok(Encoded(defaultEncode(token), None))
    ensures r == Err(NoUserId) <==> token.Some? && token.value.credentials && !Truthy(token.value.sub)
    ensures token.Some? && token.value.credentials && Truthy(token.value.sub) ==>
              var row := SessionRow(freshToken, token.value.sub.value, now + SessionLifetimeMs);
              r == if createSession(row) then Ok(Encoded(freshToken, Some(row))) else Err(FailedToCreateSession)
    ensures r.Ok? && r.value.created.Some? ==>
              && token.Some? && token.value.credentials
              && r.value.created == Some(SessionRow(freshToken, token.value.sub.value, now + SessionLifetimeMs))
              && r.value.token == freshToken
              && createSession(r.value.created.value)
  {
    match token
    case Some(t) =>
      if t.credentials then
        if !Truthy(t.sub) then Err(NoUserId)
        else
          var row := SessionRow(freshToken, t.sub.value, now + SessionLifetimeMs);
          if !createSession(row) then Err(FailedToCreateSession)
          else Ok(Encoded(freshToken, Some(row)))
      else Ok(Encoded(defaultEncode(token), None))
    case None => Ok(Encoded(defaultEncode(token), None))
  }

  /**
   * After an Ethereum sign-in the `jwt` callback's token is always turned
   * into a database session that expires thirty days later (or fails);
   * after any other sign-in of an unmarked token the default encoder runs.
   */
  lemma EthereumSignInUsesDatabaseSession(token: Token, provider: string, now: int, freshToken: string,
                                          createSession: SessionRow -> bool, defaultEncode: Option<Token> -> string)
    requires Truthy(token.sub)
    ensures var r := Encode(Some(JwtCallback(token, Some(provider))), now, freshToken, createSession, defaultEncode);
            var row := SessionRow(freshToken, token.sub.value, now + SessionLifetimeMs);
            && (provider == "credentials" ==>
                 r == (if createSession(row) then Ok(Encoded(freshToken, Some(row))) else Err(FailedToCreateSession)))
            && (provider != "credentials" && !token.credentials ==>
                 r == Ok(Encoded(defaultEncode(Some(token)), None)))
  {
  }
}
