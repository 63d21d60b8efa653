/**
 * The ROM header fingerprint: the JAMCRC of the first `header_size` bytes of
 * the file, written as eight upper-case hexadecimal digits.
 *
 * JAMCRC is the bitwise complement of CRC-32, the cyclic redundancy check of
 * ISO/IEC 3309 and ITU-T V.42 whose sample code is section 8 of RFC 1952:
 * reflected polynomial 0xEDB88320, register preset to 0xFFFFFFFF, final
 * value XORed with 0xFFFFFFFF.
 */
module HeaderCrc32 {
  import opened Wrappers

  type Byte = bv8

  const Polynomial: bv32 := 0xEDB8_8320

  /** The default number of header bytes read. */
  const HeaderSize := 512

  const Two32 := 0x1_0000_0000

  // ---------------------------------------------------------------------------
  // CRC-32
  // ---------------------------------------------------------------------------

  /** One shift of the reflected register: the low bit decides whether the polynomial is added. */
  function BitStep(c: bv32): bv32 {
    if c & 1 == 1 then (c >> 1) ^ Polynomial else c >> 1
  }

  /** Feeds one byte into the register: eight shifts, low bit first. */
  function ByteStep(c: bv32, b: Byte): bv32 {
    var x := c ^ (b as bv32);
    BitStep(BitStep(BitStep(BitStep(BitStep(BitStep(BitStep(BitStep(x))))))))
  }

  /** Feeds `data` into the register, first byte first. */
  function Update(c: bv32, data: seq<Byte>): bv32
    decreases |data|
  {
    if data == [] then c else Update(ByteStep(c, data[0]), data[1..])
  }

  /** CRC-32 of `data` (the value of `binascii.crc32`, already within 32 bits). */
  function Crc32(data: seq<Byte>): (r: bv32)
    ensures data == [] ==> r == 0
  {
    Update(0xFFFF_FFFF, data) ^ 0xFFFF_FFFF
  }

  /** Feeding two pieces one after the other is feeding their concatenation: CRC-32 can be computed in chunks. */
  lemma {:induction false} UpdateAppend(c: bv32, a: seq<Byte>, b: seq<Byte>)
    ensures Update(c, a + b) == Update(Update(c, a), b)
    decreases |a|
  {
    if a == [] {
      assert a + b == b;
    } else {
      assert (a + b)[1..] == a[1..] + b;
      UpdateAppend(ByteStep(c, a[0]), a[1..], b);
    }
  }

  /** The standard check value: CRC-32 of the ASCII digits "123456789" is 0xCBF43926. */
  lemma Crc32CheckValue()
    ensures Crc32([0x31, 0x32, 0x33, 0x34, 0x35, 0x36, 0x37, 0x38, 0x39]) == 0xCBF4_3926
  {
    var data: seq<Byte> := [0x31, 0x32, 0x33, 0x34, 0x35, 0x36, 0x37, 0x38, 0x39];
    assert ByteStep(0xFFFF_FFFF, 0x31) == 0x7C23_1048;
    assert ByteStep(0x7C23_1048, 0x32) == 0xB0AC_BB32;
    assert ByteStep(0xB0AC_BB32, 0x33) == 0x77B7_9C2D;
    assert ByteStep(0x77B7_9C2D, 0x34) == 0x641C_1F5C;
    assert ByteStep(0x641C_1F5C, 0x35) == 0x340A_C5E3;
    assert ByteStep(0x340A_C5E3, 0x36) == 0xF68D_2C9E;
    assert ByteStep(0xF68D_2C9E, 0x37) == 0xAFFC_9660;
    assert ByteStep(0xAFFC_9660, 0x38) == 0x651F_2550;
    assert ByteStep(0x651F_2550, 0x39) == 0x340B_C6D9;
    assert Update(0xFFFF_FFFF, data) == Update(0x7C23_1048, data[1..]);
    assert Update(0x7C23_1048, data[1..]) == Update(0xB0AC_BB32, data[2..]);
    assert Update(0xB0AC_BB32, data[2..]) == Update(0x77B7_9C2D, data[3..]);
    assert Update(0x77B7_9C2D, data[3..]) == Update(0x641C_1F5C, data[4..]);
    assert Update(0x641C_1F5C, data[4..]) == Update(0x340A_C5E3, data[5..]);
    assert Update(0x340A_C5E3, data[5..]) == Update(0xF68D_2C9E, data[6..]);
    assert Update(0xF68D_2C9E, data[6..]) == Update(0xAFFC_9660, data[7..]);
    assert Update(0xAFFC_9660, data[7..]) == Update(0x651F_2550, data[8..]);
    assert Update(0x651F_2550, data[8..]) == Update(0x340B_C6D9, data[9..]);
  }

  // ---------------------------------------------------------------------------
  // JAMCRC on Python integers
  // ---------------------------------------------------------------------------

  /** `(~x) & 0xFFFFFFFF` on Python integers, where `~x` is `-x - 1`. */
  function Complement32(x: int): (r: int)
    ensures 0 <= r < Two32
    ensures 0 <= x < Two32 ==> r == Two32 - 1 - x
  {
    (-x - 1) % Two32
  }

  /** Complementing a 32-bit value twice gives it back. */
  lemma Complement32Involutive(x: int)
    requires 0 <= x < Two32
    ensures Complement32(Complement32(x)) == x
  {
  }

  // ---------------------------------------------------------------------------
  // Formatting with "08X"
  // ---------------------------------------------------------------------------

  const HexDigits := "0123456789ABCDEF"

  predicate IsUpperHexDigit(c: char) {
    '0' <= c <= '9' || 'A' <= c <= 'F'
  }

  function DigitChar(d: nat): (c: char)
    requires d < 16
    ensures IsUpperHexDigit(c)
    ensures DigitValue(c) == d
  {
    HexDigits[d]
  }

  /** The value of an upper-case hexadecimal digit. */
  function DigitValue(c: char): (d: nat)
    ensures d < 16
  {
    if '0' <= c <= '9' then c as int - '0' as int
    else if 'A' <= c <= 'F' then c as int - 'A' as int + 10
    else 0
  }

  /** `format(v, "X")`: upper-case hexadecimal without leading zeros ("0" for zero). */
  function Hex(v: nat): (s: string)
    ensures 1 <= |s|
    ensures forall i :: 0 <= i < |s| ==> IsUpperHexDigit(s[i])
    decreases v
  {
    if v < 16 then [DigitChar(v)] else Hex(v / 16) + [DigitChar(v % 16)]
  }

  function Zeros(n: nat): (s: string)
    ensures |s| == n
    ensures forall i :: 0 <= i < n ==> s[i] == '0'
  {
    if n == 0 then [] else Zeros(n - 1) + ['0']
  }

  /**
   * `format(v, "08X")`: the hexadecimal digits of `v`, left-padded with zeros
   * to eight; at least eight upper-case digits that read back as `v`.
   */
  function Format08X(v: nat): (s: string)
    ensures 8 <= |s|
    ensures forall i :: 0 <= i < |s| ==> IsUpperHexDigit(s[i])
    ensures ParseHex(s) == v
  {
    var h := Hex(v);
    ParseHexOfHex(v);
    if |h| >= 8 then h
    else
      ParseHexZeros(8 - |h|, h);
      var f := Zeros(8 - |h|) + h;
      assert forall i :: 8 - |h| <= i < 8 ==> f[i] == h[i - (8 - |h|)];
      f
  }

  /** Reads a string of hexadecimal digits as a number, most significant digit first. */
  function ParseHex(s: string): nat {
    if s == [] then 0 else ParseHex(s[..|s| - 1]) * 16 + DigitValue(s[|s| - 1])
  }

  function Pow16(k: nat): (p: nat)
    ensures p >= 1
  {
    if k == 0 then 1 else 16 * Pow16(k - 1)
  }

  /** A value below 16^k has at most k hexadecimal digits. */
  lemma {:induction false} HexLength(v: nat, k: nat)
    requires 1 <= k && v < Pow16(k)
    ensures |Hex(v)| <= k
    decreases v
  {
    if v >= 16 {
      assert k >= 1;
      assert v / 16 < Pow16(k - 1);
      HexLength(v / 16, k - 1);
    }
  }

  /** Reading the digits of `v` back gives `v`. */
  lemma {:induction false} ParseHexOfHex(v: nat)
    ensures ParseHex(Hex(v)) == v
    decreases v
  {
    if v >= 16 {
      ParseHexOfHex(v / 16);
      var h := Hex(v);
      assert h[..|h| - 1] == Hex(v / 16);
      assert ParseHex(h) == v / 16 * 16 + v % 16;
    }
  }

  /** Leading zeros do not change the value read. */
  lemma {:induction false} ParseHexZeros(n: nat, s: string)
    ensures ParseHex(Zeros(n) + s) == ParseHex(s)
    decreases |s|, n
  {
    if s == [] {
      assert Zeros(n) + s == Zeros(n);
      if n > 0 {
        assert Zeros(n)[..n - 1] == Zeros(n - 1);
        ParseHexZeros(n - 1, []);
        assert Zeros(n - 1) + [] == Zeros(n - 1);
      }
    } else {
      var t := Zeros(n) + s;
      assert t[..|t| - 1] == Zeros(n) + s[..|s| - 1];
      ParseHexZeros(n, s[..|s| - 1]);
    }
  }

  /**
   * A 32-bit value formats as exactly eight upper-case hexadecimal digits, and
   * reading them back gives the value.
   */
  lemma Format08XSpec(v: nat)
    requires v < Two32
    ensures |Format08X(v)| == 8
    ensures forall i :: 0 <= i < 8 ==> IsUpperHexDigit(Format08X(v)[i])
    ensures ParseHex(Format08X(v)) == v
  {
    assert Pow16(8) == Two32;
    HexLength(v, 8);
  }

  // ---------------------------------------------------------------------------
  // calculate_jamcrc
  // ---------------------------------------------------------------------------

  /** `f.read(n)` on a file holding `contents`: a negative count reads everything. */
  function ReadPrefix(contents: seq<Byte>, n: int): (header: seq<Byte>)
    ensures n < 0 ==> header == contents
    ensures 0 <= n ==> |header| == if n < |contents| then n else |contents|
    ensures header == contents[..|header|]
  {
    if n < 0 || n >= |contents| then contents else contents[..n]
  }

  /**
   * `calculate_jamcrc` on a file holding `contents`: no value when nothing was
   * read, otherwise eight upper-case hexadecimal digits.
   */
  function CalculateJamcrc(contents: seq<Byte>, headerSize: int): (r: Option<string>)
    ensures r.None? <==> contents == [] || headerSize == 0
    ensures r.Some? ==> |r.value| == 8 && forall i :: 0 <= i < 8 ==> IsUpperHexDigit(r.value[i])
  {
    var header := ReadPrefix(contents, headerSize);
    if header == [] then None
    else
      var crc := Crc32(header) as int;
      var jamcrc := Complement32(crc);
      Format08XSpec(jamcrc);
      Some(Format08X(jamcrc))
  }

  /** The digits read back and complemented give the CRC-32 of the header that was read. */
  lemma JamcrcRoundTrip(contents: seq<Byte>, headerSize: int)
    requires CalculateJamcrc(contents, headerSize).Some?
    ensures Complement32(ParseHex(CalculateJamcrc(contents, headerSize).value))
         == Crc32(ReadPrefix(contents, headerSize)) as int
  {
    var crc := Crc32(ReadPrefix(contents, headerSize)) as int;
    Format08XSpec(Complement32(crc));
    Complement32Involutive(crc);
  }

  /** Bytes after the first `headerSize` have no effect on the result. */
  lemma OnlyHeaderMatters(contents: seq<Byte>, rest: seq<Byte>, headerSize: int)
    requires 0 <= headerSize <= |contents|
    ensures CalculateJamcrc(contents + rest, headerSize) == CalculateJamcrc(contents, headerSize)
  {
    assert ReadPrefix(contents + rest, headerSize) == ReadPrefix(contents, headerSize);
  }

  /** A file holding the ASCII digits "123456789" has the fingerprint "340BC6D9". */
  lemma JamcrcExample()
    ensures CalculateJamcrc([0x31, 0x32, 0x33, 0x34, 0x35, 0x36, 0x37, 0x38, 0x39], HeaderSize) == Some("340BC6D9")
  {
    var data: seq<Byte> := [0x31, 0x32, 0x33, 0x34, 0x35, 0x36, 0x37, 0x38, 0x39];
    Crc32CheckValue();
    assert ReadPrefix(data, HeaderSize) == data;
    assert Complement32(0xCBF4_3926) == 0x340B_C6D9;
    assert Hex(0x3) == "3";
    assert Hex(0x34) == "34";
    assert Hex(0x340) == "340";
    assert Hex(0x340B) == "340B";
    assert Hex(0x340B_C) == "340BC";
    assert Hex(0x340B_C6) == "340BC6";
    assert Hex(0x340B_C6D) == "340BC6D";
    assert Hex(0x340B_C6D9) == "340BC6D9";
  }
}
