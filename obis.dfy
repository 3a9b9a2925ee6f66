/**
 * OBIS block headers. Every block starts with a 16-bit big-endian
 * measurement id and a type octet; the type (and, for type 0, the id)
 * decides how the block is read and how far the cursor moves past it.
 */
module Obis {
  import opened Bytes
  import Tables

  datatype Kind = Actual | Counter | Version | Unknown

  /**
   * The measurement id and kind named by a block header: type 4 is an
   * actual value, type 8 a counter, type 0 on the version channel the
   * version, and every other combination unknown. Only the first three
   * octets are read.
   */
  function DecodeObisHeader(obis: seq<uint8>): (r: (nat, Kind))
    requires |obis| >= 3
    ensures r.0 == BigEndian(obis[..2]) && r.0 < 65536
    ensures r.1 == Actual <==> obis[2] == 4
    ensures r.1 == Counter <==> obis[2] == 8
    ensures r.1 == Version <==> obis[2] == 0 && r.0 == Tables.VersionChannel
    ensures r.1 == Unknown <==> (obis[2] != 0 && obis[2] != 4 && obis[2] != 8) || (obis[2] == 0 && r.0 != Tables.VersionChannel)
  {
    var measurement := BigEndian(obis[..2]);
    var kind :=
      match obis[2]
      case 4 => Actual
      case 8 => Counter
      case 0 => if measurement == Tables.VersionChannel then Version else Unknown
      case _ => Unknown;
    (measurement, kind)
  }

  /**
   * How far the cursor moves past a block of this kind: the 4-octet header
   * plus a 4-octet body, or an 8-octet body for a counter. Unknown blocks
   * are skipped as if they had a 4-octet body.
   */
  function Advance(kind: Kind): (n: nat)
    ensures n >= 8
    ensures n == 12 <==> kind == Counter
    ensures kind != Counter ==> n == 8
  {
    if kind == Counter then 12 else 8
  }
}
