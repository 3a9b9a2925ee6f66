/**
 * `decode_speedwire`: checks the header of one Speedwire datagram, walks
 * its OBIS blocks from offset 28 until the declared length is reached,
 * scales every known measurement by the divisor of its unit, and finally
 * gives the phase currents their sign.
 */
module Decoder {
  import opened Wrappers
  import opened Bytes
  import opened Tables
  import opened Obis
  import opened Records
  import opened VersionFormat
  import Currents

  /**
   * Why a datagram cannot be decoded: a known channel whose unit has no
   * divisor (KeyError), a block header with fewer than three octets left
   * (IndexError on the type octet), or a version body cut short, whose
   * missing hex digits `int(..., 16)` cannot parse (ValueError).
   */
  datatype DecodeError =
    | MissingUnit(unit: string)
    | ShortHeader(pos: nat)
    | ShortVersion(length: nat)

  /** The declared length of a keep-alive datagram, which carries no measurements. */
  const KeepAliveLength: nat := 54

  /** Offset of the first OBIS block, just after the timestamp. */
  const FirstBlock: nat := 28

  /** The datagram starts with the three octets "SMA". */
  predicate HasMagic(d: seq<uint8>) {
    |d| >= 3 && d[0] == 'S' as int && d[1] == 'M' as int && d[2] == 'A' as int
  }

  /** The declared datagram length: the length field at octets 12..13 (as far as present) plus 16. */
  function DataLen(d: seq<uint8>): (r: nat) {
    BigEndian(Slice(d, 12, 14)) + 16
  }

  /** The header of the block at `pos`, read from the slice `d[pos:pos+4]`, which must hold the type octet. */
  function HeaderAt(d: seq<uint8>, pos: nat): (r: (nat, Kind))
    requires pos + 3 <= |d|
  {
    DecodeObisHeader(Slice(d, pos, pos + 4))
  }

  /** One OBIS block as read from the buffer, or the header the buffer ends in the middle of. */
  datatype Block =
    | ActualBlock(id: nat, value: int)
    | CounterBlock(id: nat, total: nat)
    | VersionBlock(id: nat, octets: seq<uint8>)
    | UnknownBlock(id: nat, code: uint8)
    | TruncatedHeader(at: nat)

  /** The block whose header starts at `pos`; its body is read from slices that may be cut short. */
  function ReadBlock(d: seq<uint8>, pos: nat): (r: Block)
    requires pos + 3 <= |d|
  {
    var (id, kind) := HeaderAt(d, pos);
    match kind
    case Actual => ActualBlock(id, SignedBigEndian(Slice(d, pos + 4, pos + 8)))
    case Counter => CounterBlock(id, BigEndian(Slice(d, pos + 4, pos + 12)))
    case Version => VersionBlock(id, Slice(d, pos + 4, pos + 8))
    case Unknown => UnknownBlock(id, d[pos + 2])
  }

  /**
   * The blocks the loop visits from `pos` until the cursor reaches
   * `datalen`, ending in a TruncatedHeader when the buffer runs out first.
   */
  function Parse(d: seq<uint8>, pos: nat, datalen: nat): (r: seq<Block>)
    decreases datalen - pos
  {
    if pos >= datalen then []
    else if |d| < pos + 3 then [TruncatedHeader(pos)]
    else [ReadBlock(d, pos)] + Parse(d, pos + Advance(HeaderAt(d, pos).1), datalen)
  }

  /** `raw / sma_units[unit]`, as an exact quotient. */
  function Scaled(raw: int, unit: string): (r: real)
    requires unit in Units
  {
    DivisorsPositive();
    raw as real / Units[unit] as real
  }

  /** A known channel whose unit for this kind of block is empty, so its divisor lookup fails. */
  predicate LacksUnit(b: Block) {
    || (b.ActualBlock? && b.id in Channels && Channels[b.id].actualUnit == "")
    || (b.CounterBlock? && b.id in Channels && Channels[b.id].totalUnit == "")
  }

  /** Reading this block raises: a missing unit, a cut header, or a cut version body. */
  predicate Raises(b: Block) {
    || LacksUnit(b)
    || b.TruncatedHeader?
    || (b.VersionBlock? && b.id in Channels && |b.octets| < 4)
  }

  /**
   * The entries one block sets: `name` and `name + "unit"` for an actual
   * value, `name + "counter"` and `name + "counterunit"` for a counter, the
   * version string under the version channel's name; nothing for an unknown
   * id or an unknown block. Fails exactly when the block raises, with the
   * KeyError exactly for a channel without a unit.
   */
  function Writes(b: Block): (r: Result<Record, DecodeError>)
    ensures r.Failure? <==> Raises(b)
    ensures r.Failure? ==> (r.error.MissingUnit? <==> LacksUnit(b))
    ensures r.Failure? ==> (r.error.ShortHeader? <==> b.TruncatedHeader?)
    ensures !b.TruncatedHeader? && (b.UnknownBlock? || b.id !in Channels) ==> r == Success(map[])
  {
    UnitsCoverChannels();
    match b
    case ActualBlock(id, raw) =>
      if id !in Channels then Success(map[])
      else
        var ch := Channels[id];
        if ch.actualUnit !in Units then Failure(MissingUnit(ch.actualUnit))
        else Success(map[ch.name := Real(Scaled(raw, ch.actualUnit)), ch.name + "unit" := Str(ch.actualUnit)])
    case CounterBlock(id, raw) =>
      if id !in Channels then Success(map[])
      else
        var ch := Channels[id];
        if ch.totalUnit !in Units then Failure(MissingUnit(ch.totalUnit))
        else Success(map[ch.name + "counter" := Real(Scaled(raw, ch.totalUnit)), ch.name + "counterunit" := Str(ch.totalUnit)])
    case VersionBlock(id, octets) =>
      if id !in Channels then Success(map[])
      else if |octets| < 4 then Failure(ShortVersion(|octets|))
      else Success(map[Channels[id].name := Str(FormatVersion(octets[..4]))])
    case UnknownBlock(_, _) => Success(map[])
    case TruncatedHeader(pos) => Failure(ShortHeader(pos))
  }

  /** The record after the blocks have been applied in order to `acc`; the first failing block aborts. */
  function Interpret(blocks: seq<Block>, acc: Record): (r: Result<Record, DecodeError>)
    decreases |blocks|
  {
    if blocks == [] then Success(acc)
    else match Writes(blocks[0])
      case Failure(e) => Failure(e)
      case Success(w) => Interpret(blocks[1..], acc + w)
  }

  lemma InterpretStep(b: Block, rest: seq<Block>, acc: Record)
    requires Writes(b).Success?
    ensures Interpret([b] + rest, acc) == Interpret(rest, acc + Writes(b).value)
  {
    assert ([b] + rest)[1..] == rest;
  }

  /** The loop's invariant is kept by one block that writes its entries. */
  lemma WalkStep(d: seq<uint8>, pos: nat, datalen: nat, acc: Record, next: nat, after: Record)
    requires pos < datalen && pos + 3 <= |d|
    requires Writes(ReadBlock(d, pos)).Success?
    requires next == pos + Advance(HeaderAt(d, pos).1)
    requires after == acc + Writes(ReadBlock(d, pos)).value
    ensures Interpret(Parse(d, pos, datalen), acc) == Interpret(Parse(d, next, datalen), after)
  {
    InterpretStep(ReadBlock(d, pos), Parse(d, next, datalen), acc);
  }

  /** A cut header, or a block that raises, ends the walk with its error. */
  lemma WalkStopsAt(d: seq<uint8>, pos: nat, datalen: nat, acc: Record, e: DecodeError)
    requires pos < datalen
    requires if |d| < pos + 3 then e == ShortHeader(pos) else Writes(ReadBlock(d, pos)) == Failure(e)
    ensures Interpret(Parse(d, pos, datalen), acc) == Failure(e)
  {
    if |d| < pos + 3 {
      InterpretStepFails(TruncatedHeader(pos), [], acc);
      assert [TruncatedHeader(pos)] + [] == [TruncatedHeader(pos)];
    } else {
      InterpretStepFails(ReadBlock(d, pos), Parse(d, pos + Advance(HeaderAt(d, pos).1), datalen), acc);
    }
  }

  lemma InterpretSingle(b: Block, acc: Record)
    requires Writes(b).Success?
    ensures Interpret([b], acc) == Success(acc + Writes(b).value)
  {
    InterpretStep(b, [], acc);
  }

  lemma InterpretStepFails(b: Block, rest: seq<Block>, acc: Record)
    requires Writes(b).Failure?
    ensures Interpret([b] + rest, acc) == Failure(Writes(b).error)
  {
  }

  lemma PutTwice(m: Record, k1: string, v1: Value, k2: string, v2: Value)
    requires k1 != k2
    ensures m[k1 := v1][k2 := v2] == m + map[k1 := v1, k2 := v2]
  {
  }

  /** The serial number and timestamp the record is seeded with, each read from a slice that may be cut short. */
  function Header(d: seq<uint8>): (r: Record) {
    map["serial" := Int(BigEndian(Slice(d, 20, 24))), "timestamp" := Int(BigEndian(Slice(d, 24, 28)))]
  }

  /** The key of the record no block writes. */
  predicate NeverWritten(blocks: seq<Block>, k: string) {
    forall i :: 0 <= i < |blocks| && Writes(blocks[i]).Success? ==> k !in Writes(blocks[i]).value
  }

  /** A key no block writes keeps its presence and value from the seed. */
  lemma {:induction false} InterpretUntouched(blocks: seq<Block>, acc: Record, k: string)
    requires NeverWritten(blocks, k)
    requires Interpret(blocks, acc).Success?
    ensures var r := Interpret(blocks, acc).value;
      (k in r <==> k in acc) && (k in acc ==> r[k] == acc[k])
  {
    if blocks != [] {
      var w := Writes(blocks[0]).value;
      assert k !in w;
      assert NeverWritten(blocks[1..], k) by {
        forall i | 0 <= i < |blocks[1..]| && Writes(blocks[1..][i]).Success?
          ensures k !in Writes(blocks[1..][i]).value
        {
          assert blocks[1..][i] == blocks[i + 1];
        }
      }
      InterpretUntouched(blocks[1..], acc + w, k);
    }
  }

  /**
   * A key holds the value written by the last block that writes it: later
   * blocks overwrite earlier ones.
   */
  lemma {:induction false} InterpretLastWrite(blocks: seq<Block>, acc: Record, i: nat, k: string)
    requires i < |blocks|
    requires Writes(blocks[i]).Success? && k in Writes(blocks[i]).value
    requires NeverWritten(blocks[i + 1..], k)
    requires Interpret(blocks, acc).Success?
    ensures k in Interpret(blocks, acc).value
    ensures Interpret(blocks, acc).value[k] == Writes(blocks[i]).value[k]
  {
    var w := Writes(blocks[0]).value;
    if i == 0 {
      InterpretUntouched(blocks[1..], acc + w, k);
    } else {
      assert blocks[1..][i - 1] == blocks[i];
      assert blocks[1..][i - 1 + 1..] == blocks[i + 1..];
      InterpretLastWrite(blocks[1..], acc + w, i - 1, k);
    }
  }

  /** The walk fails exactly when some block raises. */
  lemma {:induction false} InterpretFailsIff(blocks: seq<Block>, acc: Record)
    ensures Interpret(blocks, acc).Failure? <==> exists i :: 0 <= i < |blocks| && Raises(blocks[i])
  {
    if blocks != [] {
      if !Raises(blocks[0]) {
        InterpretFailsIff(blocks[1..], acc + Writes(blocks[0]).value);
        if exists i :: 0 <= i < |blocks| && Raises(blocks[i]) {
          var i :| 0 <= i < |blocks| && Raises(blocks[i]);
          assert blocks[1..][i - 1] == blocks[i];
        }
        forall i | 0 <= i < |blocks[1..]| && Raises(blocks[1..][i])
          ensures exists j :: 0 <= j < |blocks| && Raises(blocks[j])
        {
          assert blocks[1..][i] == blocks[i + 1];
        }
      }
    }
  }

  /** The error reported is the one raised by the first block that raises; the blocks after it are never looked at. */
  lemma {:induction false} InterpretFirstError(blocks: seq<Block>, acc: Record, i: nat)
    requires i < |blocks| && Raises(blocks[i])
    requires forall j :: 0 <= j < i ==> !Raises(blocks[j])
    ensures Interpret(blocks, acc) == Failure(Writes(blocks[i]).error)
  {
    if i > 0 {
      assert !Raises(blocks[0]);
      forall j | 0 <= j < i - 1 ensures !Raises(blocks[1..][j]) {
        assert blocks[1..][j] == blocks[j + 1];
      }
      assert blocks[1..][i - 1] == blocks[i];
      InterpretFirstError(blocks[1..], acc + Writes(blocks[0]).value, i - 1);
    }
  }

  /** No block writes the serial or timestamp key. */
  lemma HeaderKeysNeverWritten(blocks: seq<Block>)
    ensures NeverWritten(blocks, "serial") && NeverWritten(blocks, "timestamp")
  {
    forall i | 0 <= i < |blocks| && Writes(blocks[i]).Success?
      ensures "serial" !in Writes(blocks[i]).value && "timestamp" !in Writes(blocks[i]).value
    {
      ChannelKeysAvoidHeader();
      var b := blocks[i];
      if b.ActualBlock? || b.CounterBlock? || b.VersionBlock? {
        if b.id in Channels {
          var n := Channels[b.id].name;
          assert n + "" == n;
        }
      }
    }
  }

  /** Every name in the channel table is at least two letters long, starts neither with "t" nor with "se". */
  lemma ChannelNamePrefixes()
    ensures forall id :: id in Channels ==>
      var n := Channels[id].name;
      |n| >= 2 && n[0] != 't' && !(n[0] == 's' && n[1] == 'e')
  {
  }

  /** Every key the channel table can produce differs from "serial" and "timestamp". */
  lemma ChannelKeysAvoidHeader()
    ensures forall id, suffix: string :: id in Channels ==>
      Channels[id].name + suffix != "serial" && Channels[id].name + suffix != "timestamp"
  {
    ChannelNamePrefixes();
    forall id, suffix: string | id in Channels
      ensures Channels[id].name + suffix != "serial" && Channels[id].name + suffix != "timestamp"
    {
      var n := Channels[id].name;
      assert (n + suffix)[0] == n[0] && (n + suffix)[1] == n[1];
    }
  }

  /**
   * `decode_speedwire` as a function of the buffer: an empty record without
   * the magic or for a keep-alive, otherwise the blocks applied to the
   * header fields and then the current-sign pass, or the error of the
   * first block that raises.
   */
  function Decode(d: seq<uint8>): (r: Result<Record, DecodeError>) {
    if !HasMagic(d) then Success(map[])
    else if DataLen(d) == KeepAliveLength then Success(map[])
    else
      match Interpret(Parse(d, FirstBlock, DataLen(d)), Header(d))
      case Failure(e) => Failure(e)
      case Success(m) => Success(Currents.SignedCurrents(m))
  }

  /**
   * What a caller sees: an empty record for a buffer without the magic and
   * for a keep-alive; for a data datagram the serial and timestamp read
   * big-endian from octets 20..23 and 24..27, or a failure exactly when a
   * visited block raises. A record is therefore empty or holds both header
   * fields.
   */
  lemma DecodeOutcome(d: seq<uint8>)
    ensures !HasMagic(d) ==> Decode(d) == Success(map[])
    ensures HasMagic(d) && DataLen(d) == KeepAliveLength ==> Decode(d) == Success(map[])
    ensures Decode(d).Failure? <==>
      HasMagic(d) && DataLen(d) != KeepAliveLength &&
      exists i :: 0 <= i < |Parse(d, FirstBlock, DataLen(d))| && Raises(Parse(d, FirstBlock, DataLen(d))[i])
    ensures Decode(d).Success? && HasMagic(d) && DataLen(d) != KeepAliveLength ==>
      && "serial" in Decode(d).value && Decode(d).value["serial"] == Int(BigEndian(Slice(d, 20, 24)))
      && "timestamp" in Decode(d).value && Decode(d).value["timestamp"] == Int(BigEndian(Slice(d, 24, 28)))
    ensures Decode(d).Success? ==> Decode(d).value == map[] || ("serial" in Decode(d).value && "timestamp" in Decode(d).value)
  {
    if HasMagic(d) && DataLen(d) != KeepAliveLength {
      var blocks := Parse(d, FirstBlock, DataLen(d));
      InterpretFailsIff(blocks, Header(d));
      var walked := Interpret(blocks, Header(d));
      if walked.Success? {
        HeaderKeysNeverWritten(blocks);
        InterpretUntouched(blocks, Header(d), "serial");
        InterpretUntouched(blocks, Header(d), "timestamp");
        Currents.SignedCurrentsFrame(walked.value, 3);
      }
    }
  }

  /**
   * Stores what one block writes into `emparts`: the branch of the loop
   * body after the cursor has moved, for a block the header has named.
   */
  method StoreBlock(b: Block, emparts: Measurements) returns (err: Option<DecodeError>)
    requires !b.TruncatedHeader?
    modifies emparts
    ensures err == match Writes(b)
      case Failure(e) => Some(e)
      case Success(_) => None
    ensures err.None? ==> emparts.entries == old(emparts.entries) + Writes(b).value
    ensures err.Some? ==> emparts.entries == old(emparts.entries)
  {
    match b
    case ActualBlock(meas, val) =>
      err := StoreMeasurement(meas, val, emparts);
    case CounterBlock(meas, val) =>
      err := StoreCounter(meas, val, emparts);
    case VersionBlock(meas, raw) =>
      err := StoreVersion(meas, raw, emparts);
    case UnknownBlock(_, _) =>
      err := None;
      assert emparts.entries + Writes(b).value == emparts.entries;
  }

  /** The actual branch: the value divided by its unit's divisor, and the unit. */
  method StoreMeasurement(meas: nat, val: int, emparts: Measurements) returns (err: Option<DecodeError>)
    modifies emparts
    ensures err == match Writes(ActualBlock(meas, val))
      case Failure(e) => Some(e)
      case Success(_) => None
    ensures err.None? ==> emparts.entries == old(emparts.entries) + Writes(ActualBlock(meas, val)).value
    ensures err.Some? ==> emparts.entries == old(emparts.entries)
  {
    var before := emparts.entries;
    err := None;
    if meas in Channels {
      var ch := Channels[meas];
      if ch.actualUnit !in Units {
        return Some(MissingUnit(ch.actualUnit));
      }
      emparts.Put(ch.name, Real(Scaled(val, ch.actualUnit)));
      emparts.Put(ch.name + "unit", Str(ch.actualUnit));
      PutTwice(before, ch.name, Real(Scaled(val, ch.actualUnit)), ch.name + "unit", Str(ch.actualUnit));
    } else {
      assert before + Writes(ActualBlock(meas, val)).value == before;
    }
  }

  /** The counter branch: the total divided by its unit's divisor, and the unit. */
  method StoreCounter(meas: nat, val: nat, emparts: Measurements) returns (err: Option<DecodeError>)
    modifies emparts
    ensures err == match Writes(CounterBlock(meas, val))
      case Failure(e) => Some(e)
      case Success(_) => None
    ensures err.None? ==> emparts.entries == old(emparts.entries) + Writes(CounterBlock(meas, val)).value
    ensures err.Some? ==> emparts.entries == old(emparts.entries)
  {
    var before := emparts.entries;
    err := None;
    if meas in Channels {
      var ch := Channels[meas];
      if ch.totalUnit !in Units {
        return Some(MissingUnit(ch.totalUnit));
      }
      emparts.Put(ch.name + "counter", Real(Scaled(val, ch.totalUnit)));
      emparts.Put(ch.name + "counterunit", Str(ch.totalUnit));
      PutTwice(before, ch.name + "counter", Real(Scaled(val, ch.totalUnit)), ch.name + "counterunit", Str(ch.totalUnit));
    } else {
      assert before + Writes(CounterBlock(meas, val)).value == before;
    }
  }

  /** The version branch: the formatted firmware version under the channel's name. */
  method StoreVersion(meas: nat, raw: seq<uint8>, emparts: Measurements) returns (err: Option<DecodeError>)
    modifies emparts
    ensures err == match Writes(VersionBlock(meas, raw))
      case Failure(e) => Some(e)
      case Success(_) => None
    ensures err.None? ==> emparts.entries == old(emparts.entries) + Writes(VersionBlock(meas, raw)).value
    ensures err.Some? ==> emparts.entries == old(emparts.entries)
  {
    err := None;
    if meas in Channels {
      if |raw| < 4 {
        // int("", 16) on the missing hex digits raises ValueError
        return Some(ShortVersion(|raw|));
      }
      emparts.Put(Channels[meas].name, Str(FormatVersion(raw[..4])));
    } else {
      assert emparts.entries + Writes(VersionBlock(meas, raw)).value == emparts.entries;
    }
  }

  /**
   * One iteration of the block loop: reads the header at `pos`, reads the
   * body the header's kind calls for, advances the cursor past the block,
   * and stores the block's entries, or reports the error the block raises.
   */
  method DecodeBlock(datagram: seq<uint8>, pos: nat, datalen: nat, emparts: Measurements)
    returns (next: nat, err: Option<DecodeError>)
    requires pos < datalen
    modifies emparts
    ensures |datagram| < pos + 3 ==> err == Some(ShortHeader(pos))
    ensures pos + 3 <= |datagram| ==>
      && next == pos + Advance(HeaderAt(datagram, pos).1)
      && err == match Writes(ReadBlock(datagram, pos))
           case Failure(e) => Some(e)
           case Success(_) => None
    ensures err.None? ==> pos + 3 <= |datagram| && emparts.entries == old(emparts.entries) + Writes(ReadBlock(datagram, pos)).value
    ensures err.Some? ==> emparts.entries == old(emparts.entries)
  {
    var obis := Slice(datagram, pos, pos + 4);
    if |obis| < 3 {
      // obis[2] raises IndexError
      return pos, Some(ShortHeader(pos));
    }
    var (meas, dtype) := DecodeObisHeader(obis);
    var block;
    if dtype == Actual {
      block := ActualBlock(meas, SignedBigEndian(Slice(datagram, pos + 4, pos + 8)));
      next := pos + 8;
    } else if dtype == Counter {
      block := CounterBlock(meas, BigEndian(Slice(datagram, pos + 4, pos + 12)));
      next := pos + 12;
    } else if dtype == Version {
      block := VersionBlock(meas, Slice(datagram, pos + 4, pos + 8));
      next := pos + 8;
    } else {
      block := UnknownBlock(meas, obis[2]);
      next := pos + 8;  // skip unknown block
    }
    assert block == ReadBlock(datagram, pos);
    err := StoreBlock(block, emparts);
  }

  /**
   * The decoder as the source runs it: a cursor loop that fills a fresh
   * record in place, then the in-place current-sign pass.
   */
  method DecodeSpeedwire(datagram: seq<uint8>) returns (r: Result<Record, DecodeError>)
    ensures r == Decode(datagram)
  {
    var emparts := new Measurements();
    if !HasMagic(datagram) {
      return Success(emparts.entries);
    }
    var datalen := BigEndian(Slice(datagram, 12, 14)) + 16;
    if datalen == KeepAliveLength {
      return Success(emparts.entries);
    }
    emparts.Put("serial", Int(BigEndian(Slice(datagram, 20, 24))));
    emparts.Put("timestamp", Int(BigEndian(Slice(datagram, 24, 28))));
    assert emparts.entries == Header(datagram);

    var pos := FirstBlock;
    while pos < datalen
      invariant Interpret(Parse(datagram, pos, datalen), emparts.entries)
             == Interpret(Parse(datagram, FirstBlock, datalen), Header(datagram))
      decreases datalen - pos
    {
      ghost var before := emparts.entries;
      var next, err := DecodeBlock(datagram, pos, datalen, emparts);
      if err.Some? {
        WalkStopsAt(datagram, pos, datalen, before, err.value);
        return Failure(err.value);
      }
      WalkStep(datagram, pos, datalen, before, next, emparts.entries);
      pos := next;
    }
    assert Parse(datagram, pos, datalen) == [];
    ghost var walked := emparts.entries;
    assert Interpret(Parse(datagram, FirstBlock, datalen), Header(datagram)) == Success(walked);

    Currents.DeriveSignedCurrents(emparts);
    assert emparts.entries == Currents.SignedCurrents(walked);
    return Success(emparts.entries);
  }
}
