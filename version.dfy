/**
 * The firmware-version string of the version block: the first three body
 * octets in decimal separated by dots, a revision suffix chosen by the
 * fourth octet read as a character, a pipe, and the first three octets as
 * six lower-case hexadecimal digits.
 */
module VersionFormat {
  import opened Bytes

  predicate IsDecimalDigit(c: char) {
    '0' <= c <= '9'
  }

  predicate IsLowerHexDigit(c: char) {
    '0' <= c <= '9' || 'a' <= c <= 'f'
  }

  function DecimalDigit(d: nat): (c: char)
    requires d < 10
    ensures IsDecimalDigit(c)
  {
    ('0' as int + d) as char
  }

  /** Python's `str(n)` for a natural number. */
  function DecimalString(n: nat): (r: string)
    ensures |r| >= 1
    ensures forall i :: 0 <= i < |r| ==> IsDecimalDigit(r[i])
    ensures r[0] == '0' ==> r == "0"
  {
    if n < 10 then [DecimalDigit(n)]
    else DecimalString(n / 10) + [DecimalDigit(n % 10)]
  }

  /** The value of a string of decimal digits. */
  function ParseDecimal(s: string): (n: nat)
    requires forall i :: 0 <= i < |s| ==> IsDecimalDigit(s[i])
  {
    if s == [] then 0
    else
      assert IsDecimalDigit(s[|s| - 1]);
      ParseDecimal(s[..|s| - 1]) * 10 + (s[|s| - 1] as int - '0' as int)
  }

  /** Reading back the decimal digits of `n` gives `n`. */
  lemma {:induction false} ParseDecimalString(n: nat)
    ensures ParseDecimal(DecimalString(n)) == n
  {
    var s := DecimalString(n);
    if n >= 10 {
      assert s[..|s| - 1] == DecimalString(n / 10);
      ParseDecimalString(n / 10);
    }
  }

  function HexDigit(d: nat): (c: char)
    requires d < 16
    ensures IsLowerHexDigit(c)
  {
    if d < 10 then ('0' as int + d) as char else ('a' as int + d - 10) as char
  }

  function HexValue(c: char): (v: nat)
    requires IsLowerHexDigit(c)
    ensures v < 16
  {
    if c <= '9' then c as int - '0' as int else c as int - 'a' as int + 10
  }

  /** The two lower-case hex digits of one octet, as `binascii.b2a_hex` writes them. */
  function Hex2(b: uint8): (r: string)
    ensures |r| == 2 && IsLowerHexDigit(r[0]) && IsLowerHexDigit(r[1])
    ensures HexValue(r[0]) * 16 + HexValue(r[1]) == b
  {
    [HexDigit(b / 16), HexDigit(b % 16)]
  }

  /** Python's `int(s, 16)` on two lower-case hex digits. */
  function ParseHex2(s: string): (v: nat)
    requires |s| == 2 && IsLowerHexDigit(s[0]) && IsLowerHexDigit(s[1])
    ensures v < 256
  {
    HexValue(s[0]) * 16 + HexValue(s[1])
  }

  /**
   * The revision suffix for the fourth version octet taken as a character:
   * '1'..'6' give .S .A .B .R .E .N, anything else gives no suffix.
   */
  function Revision(b: uint8): (r: string)
    ensures r != "" <==> '1' as int <= b <= '6' as int
    ensures r != "" ==> |r| == 2 && r[0] == '.' && 'A' <= r[1] <= 'Z'
  {
    match b as char
    case '1' => ".S"
    case '2' => ".A"
    case '3' => ".B"
    case '4' => ".R"
    case '5' => ".E"
    case '6' => ".N"
    case _ => ""
  }

  /** The dotted decimal part with its revision suffix. */
  function DottedVersion(raw: seq<uint8>): (r: string)
    requires |raw| == 4
  {
    DecimalString(raw[0]) + "." + DecimalString(raw[1]) + "." + DecimalString(raw[2]) + Revision(raw[3])
  }

  /** The six hex digits of the first three octets. */
  function HexPrefix(raw: seq<uint8>): (r: string)
    requires |raw| >= 3
    ensures |r| == 6
  {
    Hex2(raw[0]) + Hex2(raw[1]) + Hex2(raw[2])
  }

  /** The value stored under the version channel's name. */
  function FormatVersion(raw: seq<uint8>): (r: string)
    requires |raw| == 4
  {
    DottedVersion(raw) + "|" + HexPrefix(raw)
  }

  /**
   * The string ends in a pipe and six hex digits from which the first three
   * octets can be read back.
   */
  lemma VersionTail(raw: seq<uint8>)
    requires |raw| == 4
    ensures var s := FormatVersion(raw);
      && |s| >= 12
      && s[|s| - 7] == '|'
      && s[|s| - 6..] == HexPrefix(raw)
      && ParseHex2(s[|s| - 6..|s| - 4]) == raw[0]
      && ParseHex2(s[|s| - 4..|s| - 2]) == raw[1]
      && ParseHex2(s[|s| - 2..]) == raw[2]
  {
    var s := FormatVersion(raw);
    var d := DottedVersion(raw);
    assert |d| >= 5;
    assert s[|s| - 6..] == HexPrefix(raw);
    assert s[|s| - 6..|s| - 4] == Hex2(raw[0]);
    assert s[|s| - 4..|s| - 2] == Hex2(raw[1]);
    assert s[|s| - 2..] == Hex2(raw[2]);
  }

  /**
   * Two version blocks with the same string agree on the first three octets
   * and on the revision suffix.
   */
  lemma VersionDeterminesOctets(a: seq<uint8>, b: seq<uint8>)
    requires |a| == 4 && |b| == 4
    requires FormatVersion(a) == FormatVersion(b)
    ensures a[..3] == b[..3]
    ensures Revision(a[3]) == Revision(b[3])
  {
    VersionTail(a);
    VersionTail(b);
    assert a[0] == b[0] && a[1] == b[1] && a[2] == b[2];
    var p := DecimalString(a[0]) + "." + DecimalString(a[1]) + "." + DecimalString(a[2]);
    var t := "|" + HexPrefix(a);
    assert DottedVersion(a) == p + Revision(a[3]);
    assert DottedVersion(b) == p + Revision(b[3]);
    assert FormatVersion(a) == (p + Revision(a[3])) + t;
    assert FormatVersion(b) == (p + Revision(b[3])) + t;
    CancelAffixes(p, Revision(a[3]), Revision(b[3]), t);
  }

  lemma CancelAffixes(p: string, x: string, y: string, t: string)
    requires (p + x) + t == (p + y) + t
    ensures x == y
  {
    assert |x| == |y|;
    assert x == ((p + x) + t)[|p|..|p| + |x|];
  }

  /** Octets 01 02 03 31 give "1.2.3.S|010203". */
  lemma VersionExample()
    ensures FormatVersion([1, 2, 3, 0x31]) == "1.2.3.S|010203"
  {
  }
}
