/**
 * ASCII string helpers shared by the model: JavaScript's `toLowerCase`,
 * `String.prototype.split` / `Array.prototype.join` with a one-character
 * separator, `Number.prototype.toString` for integers in base 10 and 16,
 * and `Buffer.toString("hex")`.
 *
 * Strings are `seq<char>`; case mapping is restricted to ASCII.
 */
module Ascii {

  // ---------------------------------------------------------------------
  // Sequences
  // ---------------------------------------------------------------------

  lemma SplitThree<T>(s: seq<T>, i: nat, j: nat)
    requires i <= j <= |s|
    ensures s == s[..i] + s[i..j] + s[j..]
  {
  }

  lemma TailOfAppend<T>(a: seq<T>, b: seq<T>)
    requires |a| > 0
    ensures (a + b)[0] == a[0] && (a + b)[1..] == a[1..] + b
  {
  }

  lemma AppendEmpty<T>(a: seq<T>, b: seq<T>)
    requires |a| == 0
    ensures a + b == b
  {
  }

  lemma AppendAssoc<T>(p: seq<T>, q: seq<T>, r: seq<T>)
    ensures p + q + r == p + (q + r)
  {
  }

  lemma Flatten5<T>(a: seq<T>, b: seq<T>, c: seq<T>, d: seq<T>, e: seq<T>, s: seq<T>)
    ensures a + s + (b + s + (c + s + (d + s + e))) == a + s + b + s + c + s + d + s + e
  {
  }

  lemma MiddleOfThree<T>(p: seq<T>, q: seq<T>, r: seq<T>)
    ensures (p + q + r)[|p|..|p| + |q|] == q
  {
  }

  // ---------------------------------------------------------------------
  // Character classes
  // ---------------------------------------------------------------------

  predicate IsUpper(c: char) { 'A' <= c <= 'Z' }

  predicate IsLowerLetter(c: char) { 'a' <= c <= 'z' }

  predicate IsDigit(c: char) { '0' <= c <= '9' }

  /** The ASCII members of JavaScript's `\s` class (also what `trim` strips). */
  predicate IsWhitespace(c: char) {
    c == ' ' || c == '\t' || c == '\n' || c == '\r' || c == '\U{B}' || c == '\U{C}'
  }

  predicate IsLowerHexDigit(c: char) { IsDigit(c) || 'a' <= c <= 'f' }

  predicate AllLowerHex(s: string) {
    forall i :: 0 <= i < |s| ==> IsLowerHexDigit(s[i])
  }

  // ---------------------------------------------------------------------
  // Lower-casing
  // ---------------------------------------------------------------------

  function ToLowerChar(c: char): (r: char)
    ensures IsUpper(c) ==> IsLowerLetter(r) && r as int == c as int + 32
    ensures !IsUpper(c) ==> r == c
  {
    if IsUpper(c) then (c as int + 32) as char else c
  }

  /** `toLowerCase` on an ASCII string. */
  function Lower(s: string): (r: string)
    ensures |r| == |s|
    ensures forall i :: 0 <= i < |s| ==> r[i] == ToLowerChar(s[i])
  {
    if |s| == 0 then [] else [ToLowerChar(s[0])] + Lower(s[1..])
  }

  /** Two strings that differ at most in the case of ASCII letters. */
  predicate SameIgnoringCase(a: string, b: string) {
    |a| == |b| &&
    forall i :: 0 <= i < |a| ==> a[i] == b[i] || (IsUpper(a[i]) && b[i] as int == a[i] as int + 32)
                                               || (IsUpper(b[i]) && a[i] as int == b[i] as int + 32)
  }

  lemma SameIgnoringCaseLower(a: string, b: string)
    requires SameIgnoringCase(a, b)
    ensures Lower(a) == Lower(b)
  {
    var la, lb := Lower(a), Lower(b);
    forall i | 0 <= i < |a|
      ensures la[i] == lb[i]
    {
    }
  }

  // ---------------------------------------------------------------------
  // split / join on a single-character separator
  // ---------------------------------------------------------------------

  /** `s.split(sep)`: the pieces between separators, empty pieces included. */
  function Split(s: string, sep: char): (r: seq<string>)
    ensures |r| >= 1
    ensures forall k :: 0 <= k < |r| ==> sep !in r[k]
  {
    if |s| == 0 then [""]
    else if s[0] == sep then [""] + Split(s[1..], sep)
    else
      var rest := Split(s[1..], sep);
      [[s[0]] + rest[0]] + rest[1..]
  }

  /** `parts.join(sep)`. */
  function Join(parts: seq<string>, sep: char): string
  {
    if |parts| == 0 then ""
    else if |parts| == 1 then parts[0]
    else parts[0] + [sep] + Join(parts[1..], sep)
  }

  /** The text before the first `sep` (all of `s` when there is none). */
  function PrefixBefore(s: string, sep: char): (r: string)
    ensures |r| <= |s| && r == s[..|r|]
    ensures sep !in r
    ensures |r| < |s| ==> s[|r|] == sep
  {
    if |s| == 0 || s[0] == sep then "" else [s[0]] + PrefixBefore(s[1..], sep)
  }

  /** Joining the pieces of a split gives back the original string. */
  lemma {:induction false} JoinSplit(s: string, sep: char)
    ensures Join(Split(s, sep), sep) == s
  {
    if |s| == 0 {
    } else if s[0] == sep {
      JoinSplit(s[1..], sep);
      assert Split(s, sep) == [""] + Split(s[1..], sep);
    } else {
      var rest := Split(s[1..], sep);
      JoinSplit(s[1..], sep);
      var r := Split(s, sep);
      assert r == [[s[0]] + rest[0]] + rest[1..];
      if |rest| == 1 {
        assert Join(r, sep) == [s[0]] + rest[0];
      } else {
        assert r[1..] == rest[1..];
        assert Join(rest, sep) == rest[0] + [sep] + Join(rest[1..], sep);
        assert Join(r, sep) == [s[0]] + rest[0] + [sep] + Join(rest[1..], sep);
      }
    }
  }

  /** Splitting a join gives back the pieces when no piece holds the separator. */
  lemma {:induction false} SplitJoin(parts: seq<string>, sep: char)
    requires |parts| >= 1
    requires forall k :: 0 <= k < |parts| ==> sep !in parts[k]
    ensures Split(Join(parts, sep), sep) == parts
  {
    if |parts| == 1 {
      SplitNoSep(parts[0], sep);
    } else {
      SplitJoin(parts[1..], sep);
      SplitPrefix(parts[0], Join(parts[1..], sep), sep);
      assert [parts[0]] + parts[1..] == parts;
    }
  }

  lemma {:induction false} SplitNoSep(s: string, sep: char)
    requires sep !in s
    ensures Split(s, sep) == [s]
  {
    if |s| > 0 {
      SplitNoSep(s[1..], sep);
      assert [s[0]] + s[1..] == s;
    }
  }

  /** Split of `head + sep + tail` where `head` holds no separator. */
  lemma {:induction false} SplitPrefix(head: string, tail: string, sep: char)
    requires sep !in head
    ensures Split(head + [sep] + tail, sep) == [head] + Split(tail, sep)
  {
    if |head| == 0 {
      assert head + [sep] + tail == [sep] + tail;
      assert ([sep] + tail)[1..] == tail;
    } else {
      var s := head + [sep] + tail;
      assert s[0] == head[0] && s[1..] == head[1..] + [sep] + tail;
      SplitPrefix(head[1..], tail, sep);
      assert [head[0]] + head[1..] == head;
    }
  }

  /** The first piece of a split is the text before the first separator. */
  lemma {:induction false} SplitFirst(s: string, sep: char)
    ensures Split(s, sep)[0] == PrefixBefore(s, sep)
  {
    if |s| > 0 && s[0] != sep {
      SplitFirst(s[1..], sep);
    }
  }

  // ---------------------------------------------------------------------
  // Integer rendering
  // ---------------------------------------------------------------------

  function DecimalDigit(d: nat): char
    requires d < 10
  {
    ('0' as int + d) as char
  }

  /** `n.toString()` for a natural number: no leading zeros. */
  function NatToDecimal(n: nat): (r: string)
    ensures |r| >= 1
    ensures forall i :: 0 <= i < |r| ==> IsDigit(r[i])
  {
    if n < 10 then [DecimalDigit(n)] else NatToDecimal(n / 10) + [DecimalDigit(n % 10)]
  }

  /** `n.toString()` for an integer-valued JavaScript number. */
  function IntToDecimal(n: int): (r: string)
    ensures |r| >= 1
    ensures forall i :: 0 <= i < |r| ==> IsDigit(r[i]) || r[i] == '-'
  {
    if n < 0 then "-" + NatToDecimal(-n) else NatToDecimal(n)
  }

  predicate AllDigits(s: string) {
    forall i :: 0 <= i < |s| ==> IsDigit(s[i])
  }

  /** `parseInt(s, 10)` on a string of decimal digits. */
  function DecimalValue(s: string): nat
    requires AllDigits(s)
  {
    if |s| == 0 then 0 else DecimalValue(s[..|s| - 1]) * 10 + (s[|s| - 1] as int - '0' as int)
  }

  /** `parseInt(s, 10)` on what `IntToDecimal` produces: an optional `-` and digits. */
  function ParseDecimal(s: string): int
    requires |s| >= 1 && (s[0] == '-' ==> AllDigits(s[1..])) && (s[0] != '-' ==> AllDigits(s))
  {
    if s[0] == '-' then 0 - (DecimalValue(s[1..]) as int) else DecimalValue(s)
  }

  /** Reading back a rendered natural number gives the number. */
  lemma {:induction false} DecimalRoundTrip(n: nat)
    ensures DecimalValue(NatToDecimal(n)) == n
  {
    var r := NatToDecimal(n);
    if n < 10 {
      assert r[..0] == [];
    } else {
      DecimalRoundTrip(n / 10);
      assert r[..|r| - 1] == NatToDecimal(n / 10);
    }
  }

  /** Reading back a rendered integer gives the integer. */
  lemma ParseDecimalRoundTrip(n: int)
    ensures var s := IntToDecimal(n);
            && |s| >= 1 && (s[0] == '-' ==> AllDigits(s[1..])) && (s[0] != '-' ==> AllDigits(s))
            && ParseDecimal(s) == n
  {
    var s := IntToDecimal(n);
    if n < 0 {
      assert s[1..] == NatToDecimal(-n);
      DecimalRoundTrip(-n);
    } else {
      DecimalRoundTrip(n);
    }
  }

  function HexDigit(d: nat): (c: char)
    requires d < 16
    ensures IsLowerHexDigit(c)
  {
    if d < 10 then ('0' as int + d) as char else ('a' as int + d - 10) as char
  }

  /** `parseInt(c, 16)` for one lower-case hex digit. */
  function HexValue(c: char): (d: nat)
    requires IsLowerHexDigit(c)
    ensures d < 16
  {
    if IsDigit(c) then c as int - '0' as int else c as int - 'a' as int + 10
  }

  lemma HexValueDigit(d: nat)
    requires d < 16
    ensures HexValue(HexDigit(d)) == d
  {
  }

  /** `n.toString(16)`: lower-case, no leading zeros. */
  function NatToHex(n: nat): (r: string)
    ensures |r| >= 1 && AllLowerHex(r)
  {
    if n < 16 then [HexDigit(n)] else NatToHex(n / 16) + [HexDigit(n % 16)]
  }

  /** `parseInt(s, 16)` on a string of lower-case hex digits. */
  function ParseHex(s: string): nat
    requires AllLowerHex(s)
  {
    if |s| == 0 then 0 else ParseHex(s[..|s| - 1]) * 16 + HexValue(s[|s| - 1])
  }

  type Byte = b: nat | b < 256

  /** A byte rendered as two lower-case hex digits, high nibble first. */
  function ByteHex(b: Byte): (r: string)
    ensures |r| == 2 && AllLowerHex(r)
  {
    [HexDigit(b / 16), HexDigit(b % 16)]
  }

  /** `Buffer.toString("hex")`. */
  function BytesHex(bs: seq<Byte>): (r: string)
    ensures |r| == 2 * |bs| && AllLowerHex(r)
  {
    if |bs| == 0 then "" else ByteHex(bs[0]) + BytesHex(bs[1..])
  }

  lemma {:induction false} BytesHexAppend(a: seq<Byte>, b: seq<Byte>)
    ensures BytesHex(a + b) == BytesHex(a) + BytesHex(b)
  {
    if |a| == 0 {
      AppendEmpty(a, b);
    } else {
      var h := ByteHex(a[0]);
      TailOfAppend(a, b);
      calc {
        BytesHex(a + b);
        h + BytesHex(a[1..] + b);
        { BytesHexAppend(a[1..], b); }
        h + (BytesHex(a[1..]) + BytesHex(b));
        { AppendAssoc(h, BytesHex(a[1..]), BytesHex(b)); }
        (h + BytesHex(a[1..])) + BytesHex(b);
        BytesHex(a) + BytesHex(b);
      }
    }
  }

  /** The hex of a byte range is the matching range of the hex. */
  lemma BytesHexSlice(bs: seq<Byte>, i: nat, j: nat)
    requires i <= j <= |bs|
    ensures BytesHex(bs)[2 * i..2 * j] == BytesHex(bs[i..j])
  {
    var x, y, z := bs[..i], bs[i..j], bs[j..];
    SplitThree(bs, i, j);
    BytesHexAppend(x + y, z);
    BytesHexAppend(x, y);
    var hx, hy, hz := BytesHex(x), BytesHex(y), BytesHex(z);
    assert BytesHex(bs) == hx + hy + hz;
    MiddleOfThree(hx, hy, hz);
  }

  /** Byte `i` is written as hex digits `2i` and `2i + 1`. */
  lemma {:induction false} BytesHexAt(bs: seq<Byte>, i: nat)
    requires i < |bs|
    ensures BytesHex(bs)[2 * i] == HexDigit(bs[i] / 16) && BytesHex(bs)[2 * i + 1] == HexDigit(bs[i] % 16)
  {
    var h := ByteHex(bs[0]);
    var rest := BytesHex(bs[1..]);
    assert BytesHex(bs) == h + rest;
    if i > 0 {
      BytesHexAt(bs[1..], i - 1);
      assert bs[1..][i - 1] == bs[i];
      assert (h + rest)[2 * i] == rest[2 * (i - 1)];
      assert (h + rest)[2 * i + 1] == rest[2 * (i - 1) + 1];
    }
  }

  /** `parseInt` of the hex of one byte. */
  lemma ParseByteHex(b: Byte)
    ensures ParseHex(ByteHex(b)) == b
  {
    var h := ByteHex(b);
    assert h[..|h| - 1] == [HexDigit(b / 16)];
    assert [HexDigit(b / 16)][..0] == [];
    HexValueDigit(b / 16);
    HexValueDigit(b % 16);
    assert ParseHex([HexDigit(b / 16)]) == b / 16;
    assert ParseHex(h) == (b / 16) * 16 + b % 16;
  }

  /** `parseInt` of the hex of two bytes: the big-endian 16-bit value. */
  lemma ParseTwoBytesHex(hi: Byte, lo: Byte)
    ensures ParseHex(ByteHex(hi) + ByteHex(lo)) == hi * 256 + lo
  {
    var h := ByteHex(hi) + ByteHex(lo);
    assert h[..3][..2] == ByteHex(hi);
    assert h[..3] == ByteHex(hi) + [HexDigit(lo / 16)];
    assert h[..3][2] == HexDigit(lo / 16);
    ParseByteHex(hi);
    HexValueDigit(lo / 16);
    HexValueDigit(lo % 16);
    assert ParseHex(h[..3]) == hi * 16 + lo / 16;
    assert ParseHex(h) == (hi * 16 + lo / 16) * 16 + lo % 16;
  }
}
