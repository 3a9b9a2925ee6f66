/**
 * Writing datagrams: the inverse of block reading, used to state what the
 * decoder does with a datagram built from known blocks. The 28-octet
 * header carries the magic, the length field (datagram length minus 16),
 * the serial and the timestamp; every other header octet is zero here.
 */
module Framing {
  import opened Wrappers
  import opened Bytes
  import opened Tables
  import opened Obis
  import opened Records
  import opened Decoder
  import Currents
  import VersionFormat

  /**
   * A block the encoder can write: the id fits 16 bits, the value fits its
   * width, a version block sits on the version channel, and the type octet
   * of an unknown block names no known kind.
   */
  predicate WellFormed(b: Block) {
    match b
    case ActualBlock(id, v) => id < 65536 && -0x8000_0000 <= v < 0x8000_0000
    case CounterBlock(id, t) => id < 65536 && t < 0x1_0000_0000_0000_0000
    case VersionBlock(id, octets) => id == VersionChannel && |octets| == 4
    case UnknownBlock(id, code) => id < 65536 && code != 4 && code != 8 && (code == 0 ==> id != VersionChannel)
    case TruncatedHeader(_) => false
  }

  predicate AllWellFormed(bs: seq<Block>) {
    forall i :: 0 <= i < |bs| ==> WellFormed(bs[i])
  }

  function KindOf(b: Block): Kind
    requires !b.TruncatedHeader?
  {
    match b
    case ActualBlock(_, _) => Actual
    case CounterBlock(_, _) => Counter
    case VersionBlock(_, _) => Version
    case UnknownBlock(_, _) => Unknown
  }

  lemma WidthFacts()
    ensures Pow256(2) == 0x1_0000
    ensures Pow256(4) == 0x1_0000_0000
    ensures Pow256(8) == 0x1_0000_0000_0000_0000
  {
    assert Pow256(1) == 256;
    assert Pow256(2) == 0x1_0000;
    assert Pow256(3) == 0x100_0000;
    assert Pow256(4) == 0x1_0000_0000;
    assert Pow256(5) == 0x100_0000_0000;
    assert Pow256(6) == 0x1_0000_0000_0000;
    assert Pow256(7) == 0x100_0000_0000_0000;
  }

  /** The octets of one block: id, type octet, a zero octet, then the body. */
  function EncodeBlock(b: Block): (r: seq<uint8>)
    requires WellFormed(b)
    ensures |r| == Advance(KindOf(b))
  {
    WidthFacts();
    match b
    case ActualBlock(id, v) => EncodeBigEndian(id, 2) + [4, 0] + EncodeSigned(v, 4)
    case CounterBlock(id, t) => EncodeBigEndian(id, 2) + [8, 0] + EncodeBigEndian(t, 8)
    case VersionBlock(id, octets) => EncodeBigEndian(id, 2) + [0, 0] + octets
    case UnknownBlock(id, code) => EncodeBigEndian(id, 2) + [code, 0, 0, 0, 0, 0]
  }

  function EncodeBlocks(bs: seq<Block>): (r: seq<uint8>)
    requires AllWellFormed(bs)
    ensures |r| % 4 == 0 && |r| <= 12 * |bs|
  {
    if bs == [] then [] else EncodeBlock(bs[0]) + EncodeBlocks(bs[1..])
  }

  /** The header of a written block names its id and kind. */
  lemma ReadEncodedHeaderOf(d: seq<uint8>, pos: nat, b: Block)
    requires WellFormed(b)
    requires pos + |EncodeBlock(b)| <= |d| && d[pos..pos + |EncodeBlock(b)|] == EncodeBlock(b)
    ensures pos + 3 <= |d| && HeaderAt(d, pos) == (b.id, KindOf(b))
  {
    WidthFacts();
    var e := EncodeBlock(b);
    var obis := Slice(d, pos, pos + 4);
    assert obis == e[..4];
    assert obis[..2] == e[..2] == EncodeBigEndian(b.id, 2);
    DecodeEncode(b.id, 2);
  }

  /** Reading a block back where it was written gives the block. */
  lemma ReadEncodedBlock(d: seq<uint8>, pos: nat, b: Block)
    requires WellFormed(b)
    requires pos + |EncodeBlock(b)| <= |d| && d[pos..pos + |EncodeBlock(b)|] == EncodeBlock(b)
    ensures pos + 3 <= |d| && HeaderAt(d, pos) == (b.id, KindOf(b))
    ensures ReadBlock(d, pos) == b
  {
    ReadEncodedHeaderOf(d, pos, b);
    WidthFacts();
    var e := EncodeBlock(b);
    match b
    case ActualBlock(id, v) =>
      assert Slice(d, pos + 4, pos + 8) == e[4..8] == EncodeSigned(v, 4);
      SignedDecodeEncode(v, 4);
    case CounterBlock(id, t) =>
      assert Slice(d, pos + 4, pos + 12) == e[4..12] == EncodeBigEndian(t, 8);
      DecodeEncode(t, 8);
    case VersionBlock(id, octets) =>
      assert Slice(d, pos + 4, pos + 8) == e[4..8] == octets;
    case UnknownBlock(id, code) =>
      assert d[pos + 2] == e[2] == code;
  }

  /** The blocks written after offset `pos` are exactly the blocks the loop reads from there. */
  lemma {:induction false} ParseEncoded(d: seq<uint8>, pos: nat, bs: seq<Block>)
    requires AllWellFormed(bs)
    requires pos <= |d| && d[pos..] == EncodeBlocks(bs)
    ensures Parse(d, pos, |d|) == bs
    decreases |bs|
  {
    if bs != [] {
      var next := ReadFirstEncoded(d, pos, bs);
      ParseEncoded(d, next, bs[1..]);
      ParseStep(d, pos, |d|, next, bs[1..]);
    } else {
      assert |d[pos..]| == 0;
    }
  }

  /** The first written block is read back, and the cursor lands where the rest were written. */
  lemma ReadFirstEncoded(d: seq<uint8>, pos: nat, bs: seq<Block>) returns (next: nat)
    requires AllWellFormed(bs) && bs != []
    requires pos <= |d| && d[pos..] == EncodeBlocks(bs)
    ensures pos < |d| && pos + 3 <= |d| && ReadBlock(d, pos) == bs[0]
    ensures next == pos + Advance(HeaderAt(d, pos).1) && next <= |d|
    ensures AllWellFormed(bs[1..]) && d[next..] == EncodeBlocks(bs[1..])
  {
    var e := EncodeBlock(bs[0]);
    SplitSuffix(d, pos, e, EncodeBlocks(bs[1..]));
    ReadEncodedBlock(d, pos, bs[0]);
    next := pos + |e|;
    assert AllWellFormed(bs[1..]) by {
      forall i | 0 <= i < |bs[1..]| ensures WellFormed(bs[1..][i]) {
        assert bs[1..][i] == bs[i + 1];
      }
    }
  }

  lemma SplitSuffix(d: seq<uint8>, pos: nat, a: seq<uint8>, b: seq<uint8>)
    requires pos <= |d| && d[pos..] == a + b
    ensures pos + |a| <= |d| && d[pos..pos + |a|] == a && d[pos + |a|..] == b
  {
    assert d[pos..pos + |a|] == d[pos..][..|a|];
    assert d[pos + |a|..] == d[pos..][|a|..];
  }

  /** One block read and the cursor moved past it. */
  lemma ParseStep(d: seq<uint8>, pos: nat, datalen: nat, next: nat, rest: seq<Block>)
    requires pos < datalen && pos + 3 <= |d|
    requires next == pos + Advance(HeaderAt(d, pos).1)
    requires Parse(d, next, datalen) == rest
    ensures Parse(d, pos, datalen) == [ReadBlock(d, pos)] + rest
  {
  }

  /** The 28 header octets of a data datagram whose blocks take `bodyLength` octets. */
  function EncodeHeader(serial: nat, timestamp: nat, bodyLength: nat): (h: seq<uint8>)
    requires serial < 0x1_0000_0000 && timestamp < 0x1_0000_0000 && 12 + bodyLength < 0x1_0000
    ensures |h| == FirstBlock
  {
    [83, 77, 65] + seq(9, _ => 0) + EncodeBigEndian(12 + bodyLength, 2) + seq(6, _ => 0)
      + EncodeBigEndian(serial, 4) + EncodeBigEndian(timestamp, 4)
  }

  /** A data datagram carrying the given header fields and blocks. */
  function EncodeDatagram(serial: nat, timestamp: nat, bs: seq<Block>): (d: seq<uint8>)
    requires serial < 0x1_0000_0000 && timestamp < 0x1_0000_0000
    requires AllWellFormed(bs) && 12 + |EncodeBlocks(bs)| < 0x1_0000
    ensures |d| == FirstBlock + |EncodeBlocks(bs)|
  {
    EncodeHeader(serial, timestamp, |EncodeBlocks(bs)|) + EncodeBlocks(bs)
  }

  /** Where the written header puts the magic, the length field, the serial and the timestamp. */
  lemma HeaderOctets(serial: nat, timestamp: nat, bodyLength: nat)
    requires serial < 0x1_0000_0000 && timestamp < 0x1_0000_0000 && 12 + bodyLength < 0x1_0000
    ensures var h := EncodeHeader(serial, timestamp, bodyLength);
      && h[..3] == [83, 77, 65]
      && h[12..14] == EncodeBigEndian(12 + bodyLength, 2)
      && h[20..24] == EncodeBigEndian(serial, 4)
      && h[24..28] == EncodeBigEndian(timestamp, 4)
  {
  }

  /**
   * The header fields the decoder reads back from a written header, followed
   * by `body`, which may be shorter than the declared `bodyLength`.
   */
  lemma ReadEncodedHeader(serial: nat, timestamp: nat, bodyLength: nat, body: seq<uint8>)
    requires serial < 0x1_0000_0000 && timestamp < 0x1_0000_0000 && 12 + bodyLength < 0x1_0000
    requires bodyLength % 4 == 0
    ensures var d := EncodeHeader(serial, timestamp, bodyLength) + body;
      && HasMagic(d)
      && DataLen(d) == FirstBlock + bodyLength && DataLen(d) != KeepAliveLength
      && Header(d) == map["serial" := Int(serial), "timestamp" := Int(timestamp)]
      && d[FirstBlock..] == body
  {
    WidthFacts();
    HeaderOctets(serial, timestamp, bodyLength);
    var h := EncodeHeader(serial, timestamp, bodyLength);
    var d := h + body;
    assert d[..3] == h[..3];
    assert Slice(d, 12, 14) == h[12..14];
    DecodeEncode(12 + bodyLength, 2);
    assert Slice(d, 20, 24) == h[20..24];
    assert Slice(d, 24, 28) == h[24..28];
    DecodeEncode(serial, 4);
    DecodeEncode(timestamp, 4);
  }

  /**
   * Decoding a written datagram applies exactly its blocks, in order, to
   * its serial and timestamp, then signs the currents: nothing is lost,
   * reordered or invented by the walk.
   */
  lemma DecodeEncoded(serial: nat, timestamp: nat, bs: seq<Block>)
    requires serial < 0x1_0000_0000 && timestamp < 0x1_0000_0000
    requires AllWellFormed(bs) && 12 + |EncodeBlocks(bs)| < 0x1_0000
    ensures var d := EncodeDatagram(serial, timestamp, bs);
      && Decode(d) == match Interpret(bs, map["serial" := Int(serial), "timestamp" := Int(timestamp)])
           case Failure(e) => Failure(e)
           case Success(m) => Success(Currents.SignedCurrents(m))
  {
    var d := EncodeDatagram(serial, timestamp, bs);
    ReadEncodedHeader(serial, timestamp, |EncodeBlocks(bs)|, EncodeBlocks(bs));
    ParseEncoded(d, FirstBlock, bs);
  }

  /** Serial and timestamp as seeded by the decoder. */
  function Seed(serial: nat, timestamp: nat): Record {
    map["serial" := Int(serial), "timestamp" := Int(timestamp)]
  }

  /**
   * An unknown block before an actual block does not stop the walk: the
   * actual value arrives divided by its unit's divisor, next to its unit.
   */
  lemma UnknownBlockSkipped(serial: nat, timestamp: nat, unknownId: nat, code: uint8, id: nat, v: int)
    requires serial < 0x1_0000_0000 && timestamp < 0x1_0000_0000
    requires WellFormed(UnknownBlock(unknownId, code)) && WellFormed(ActualBlock(id, v))
    requires id in Channels && Channels[id].actualUnit in Units
    ensures var d := EncodeDatagram(serial, timestamp, [UnknownBlock(unknownId, code), ActualBlock(id, v)]);
      var ch := Channels[id];
      && Decode(d).Success?
      && ch.name in Decode(d).value && Decode(d).value[ch.name] == Real(Scaled(v, ch.actualUnit))
      && ch.name + "unit" in Decode(d).value && Decode(d).value[ch.name + "unit"] == Str(ch.actualUnit)
  {
    var bs := [UnknownBlock(unknownId, code), ActualBlock(id, v)];
    DecodeEncoded(serial, timestamp, bs);
    var ch := Channels[id];
    var value, unit := Real(Scaled(v, ch.actualUnit)), Str(ch.actualUnit);
    var seed := Seed(serial, timestamp);
    assert Writes(bs[0]).value == map[];
    InterpretStep(bs[0], [bs[1]], seed);
    assert seed + map[] == seed;
    InterpretSingle(bs[1], seed);
    assert Writes(bs[1]).value == map[ch.name := value, ch.name + "unit" := unit];
    var m := seed + map[ch.name := value, ch.name + "unit" := unit];
    assert Interpret(bs, seed) == Success(m);
    EntriesSurviveSigning(serial, timestamp, ch.name, value, unit);
  }

  /**
   * A block on an id the channel table does not know, or of an unknown
   * type, writes nothing: a datagram that starts with one decodes exactly
   * as the datagram without it.
   */
  lemma UnknownIdSkipped(serial: nat, timestamp: nat, b: Block, bs: seq<Block>)
    requires serial < 0x1_0000_0000 && timestamp < 0x1_0000_0000
    requires WellFormed(b) && (b.UnknownBlock? || b.id !in Channels)
    requires AllWellFormed([b] + bs) && 12 + |EncodeBlocks([b] + bs)| < 0x1_0000
    ensures AllWellFormed(bs) && 12 + |EncodeBlocks(bs)| < 0x1_0000
    ensures Decode(EncodeDatagram(serial, timestamp, [b] + bs)) == Decode(EncodeDatagram(serial, timestamp, bs))
  {
    DropFirst(b, bs);
    DecodeEncoded(serial, timestamp, [b] + bs);
    DecodeEncoded(serial, timestamp, bs);
    SilentFirst(b, bs, Seed(serial, timestamp));
  }

  /** Dropping the first block keeps the rest well formed and makes the written blocks no longer. */
  lemma DropFirst(b: Block, bs: seq<Block>)
    requires AllWellFormed([b] + bs)
    ensures AllWellFormed(bs) && |EncodeBlocks(bs)| <= |EncodeBlocks([b] + bs)|
  {
    assert ([b] + bs)[1..] == bs;
    forall i | 0 <= i < |bs| ensures WellFormed(bs[i]) {
      assert bs[i] == ([b] + bs)[i + 1];
    }
  }

  /** A first block that writes nothing leaves the walk's outcome as it is without it. */
  lemma SilentFirst(b: Block, bs: seq<Block>, acc: Record)
    requires !b.TruncatedHeader? && (b.UnknownBlock? || b.id !in Channels)
    ensures Interpret([b] + bs, acc) == Interpret(bs, acc)
  {
    InterpretStep(b, bs, acc);
    assert acc + Writes(b).value == acc;
  }

  /** The current-sign pass keeps a value and its unit next to the seed, even when the value is a phase current. */
  lemma EntriesSurviveSigning(serial: nat, timestamp: nat, name: string, value: Value, unit: Value)
    ensures var m := Seed(serial, timestamp) + map[name := value, name + "unit" := unit];
      var r := Currents.SignedCurrents(m);
      name in r && r[name] == value && name + "unit" in r && r[name + "unit"] == unit
  {
    var m := Seed(serial, timestamp) + map[name := value, name + "unit" := unit];
    Currents.SignedCurrentsFrame(m, 3);
    assert !Currents.IsCurrentKey(name + "unit") by {
      assert |name + "unit"| >= 4;
    }
    if Currents.IsCurrentKey(name) {
      var p := if name == Currents.CurrentKey(1) then 1 else if name == Currents.CurrentKey(2) then 2 else 3;
      CurrentSurvivesSigning(serial, timestamp, p, value, unit);
    }
  }

  /** A phase current decoded without any power reading of its phase keeps its value. */
  lemma CurrentSurvivesSigning(serial: nat, timestamp: nat, p: nat, value: Value, unit: Value)
    requires 1 <= p <= 3
    ensures var name := Currents.CurrentKey(p);
      var m := Seed(serial, timestamp) + map[name := value, name + "unit" := unit];
      name in Currents.SignedCurrents(m) && Currents.SignedCurrents(m)[name] == value
  {
    var name := Currents.CurrentKey(p);
    var m := Seed(serial, timestamp) + map[name := value, name + "unit" := unit];
    assert m.Keys == {"serial", "timestamp", name, name + "unit"};
    var consume, supply := Currents.ConsumeKey(p), Currents.SupplyKey(p);
    assert |name| == 2 && |name + "unit"| == 6;
    assert |consume| == 9 && consume[0] == 'p' && |supply| == 8;
    assert consume != "timestamp" by {
      assert "timestamp"[0] == 't';
    }
    assert consume !in m && supply !in m;
    Currents.CurrentWithoutPower(m, p);
  }

  /** A record holding only the seed and keys longer than two characters has no current to sign. */
  lemma NoCurrentKeys(m: Record)
    requires forall k :: k in m ==> |k| > 2
    ensures Currents.SignedCurrents(m) == m
  {
    forall p | 1 <= p <= 3 ensures Currents.CurrentKey(p) !in m {
      assert |Currents.CurrentKey(p)| == 2;
    }
    Currents.SignedCurrentsWithoutCurrents(m);
  }

  /** Keys longer than two characters written next to the seed carry no current to sign. */
  lemma SeedUnsigned(serial: nat, timestamp: nat, w: Record)
    requires forall k :: k in w ==> |k| > 2
    ensures Currents.SignedCurrents(Seed(serial, timestamp) + w) == Seed(serial, timestamp) + w
  {
    NoCurrentKeys(Seed(serial, timestamp) + w);
  }

  /** A counter block arrives divided by its total unit's divisor, next to that unit. */
  lemma CounterBlockDecoded(serial: nat, timestamp: nat, id: nat, t: nat)
    requires serial < 0x1_0000_0000 && timestamp < 0x1_0000_0000
    requires WellFormed(CounterBlock(id, t))
    requires id in Channels && Channels[id].totalUnit in Units
    ensures var d := EncodeDatagram(serial, timestamp, [CounterBlock(id, t)]);
      var ch := Channels[id];
      && Decode(d) == Success(Seed(serial, timestamp) + map[ch.name + "counter" := Real(Scaled(t, ch.totalUnit)),
                                                           ch.name + "counterunit" := Str(ch.totalUnit)])
  {
    var bs := [CounterBlock(id, t)];
    DecodeEncoded(serial, timestamp, bs);
    var ch := Channels[id];
    var w := map[ch.name + "counter" := Real(Scaled(t, ch.totalUnit)), ch.name + "counterunit" := Str(ch.totalUnit)];
    assert Writes(bs[0]).value == w;
    InterpretSingle(bs[0], Seed(serial, timestamp));
    SeedUnsigned(serial, timestamp, w);
  }

  /** A version block arrives formatted under "speedwire-version"; 01 02 03 31 reads "1.2.3.S|010203". */
  lemma VersionBlockDecoded(serial: nat, timestamp: nat)
    requires serial < 0x1_0000_0000 && timestamp < 0x1_0000_0000
    ensures var d := EncodeDatagram(serial, timestamp, [VersionBlock(VersionChannel, [1, 2, 3, 0x31])]);
      && Decode(d) == Success(Seed(serial, timestamp) + map["speedwire-version" := Str("1.2.3.S|010203")])
  {
    var bs := [VersionBlock(VersionChannel, [1, 2, 3, 0x31])];
    DecodeEncoded(serial, timestamp, bs);
    var w := map["speedwire-version" := Str("1.2.3.S|010203")];
    VersionExampleWrites();
    InterpretSingle(bs[0], Seed(serial, timestamp));
    SeedUnsigned(serial, timestamp, w);
  }

  lemma VersionExampleWrites()
    ensures Writes(VersionBlock(VersionChannel, [1, 2, 3, 0x31])) == Success(map["speedwire-version" := Str("1.2.3.S|010203")])
  {
    VersionFormat.VersionExample();
  }

  /** A counter block on the phase-1 current channel, which has no total unit, is a KeyError. */
  lemma CounterWithoutUnitFails(serial: nat, timestamp: nat, t: nat)
    requires serial < 0x1_0000_0000 && timestamp < 0x1_0000_0000 && t < 0x1_0000_0000_0000_0000
    ensures var d := EncodeDatagram(serial, timestamp, [CounterBlock(31, t)]);
      Decode(d) == Failure(MissingUnit(""))
  {
    var bs := [CounterBlock(31, t)];
    DecodeEncoded(serial, timestamp, bs);
    assert LacksUnit(bs[0]) by {
      assert Channels[31].totalUnit == "";
    }
    InterpretStepFails(bs[0], [], Seed(serial, timestamp));
    assert [bs[0]] + [] == bs;
  }

  /** A datagram whose declared length ends before the first block decodes to its serial and timestamp alone. */
  lemma NoRoomForBlocks(d: seq<uint8>)
    requires HasMagic(d) && DataLen(d) != KeepAliveLength && DataLen(d) <= FirstBlock
    ensures Decode(d) == Success(Header(d))
  {
    assert Parse(d, FirstBlock, DataLen(d)) == [];
    NoCurrentKeys(Header(d));
  }

  /**
   * Three octets "SMA" and nothing else: the short slices read as 0, so the
   * declared length is 16, no block is visited, and serial and timestamp are 0.
   */
  lemma MagicOnly()
    ensures Decode([83, 77, 65]) == Success(Seed(0, 0))
  {
    var d: seq<uint8> := [83, 77, 65];
    assert Slice(d, 12, 14) == [] && Slice(d, 20, 24) == [] && Slice(d, 24, 28) == [];
    assert DataLen(d) == 16;
    NoRoomForBlocks(d);
  }

  /** A datagram that ends right after its header while its length field promises blocks: IndexError at offset 28. */
  lemma CutAfterHeader(serial: nat, timestamp: nat, bodyLength: nat)
    requires serial < 0x1_0000_0000 && timestamp < 0x1_0000_0000 && 12 + bodyLength < 0x1_0000
    requires bodyLength > 0 && bodyLength % 4 == 0
    ensures Decode(EncodeHeader(serial, timestamp, bodyLength)) == Failure(ShortHeader(FirstBlock))
  {
    var d := EncodeHeader(serial, timestamp, bodyLength);
    ReadEncodedHeader(serial, timestamp, bodyLength, []);
    assert d + [] == d;
    assert Parse(d, FirstBlock, DataLen(d)) == [TruncatedHeader(FirstBlock)];
    InterpretStepFails(TruncatedHeader(FirstBlock), [], Header(d));
    assert [TruncatedHeader(FirstBlock)] + [] == [TruncatedHeader(FirstBlock)];
  }

  /** A datagram declaring one 8-octet block, of which the header and `body` are present. */
  function OneBlockDatagram(serial: nat, timestamp: nat, id: nat, code: uint8, body: seq<uint8>): (d: seq<uint8>)
    requires serial < 0x1_0000_0000 && timestamp < 0x1_0000_0000 && id < 65536 && |body| <= 4
    ensures |d| == FirstBlock + 4 + |body|
  {
    WidthFacts();
    EncodeHeader(serial, timestamp, 8) + EncodeBigEndian(id, 2) + [code, 0] + body
  }

  /** The decoder reads that datagram's header fields, the block's id and kind, and its body as written. */
  lemma ReadOneBlock(serial: nat, timestamp: nat, id: nat, code: uint8, body: seq<uint8>)
    requires serial < 0x1_0000_0000 && timestamp < 0x1_0000_0000 && id < 65536 && |body| <= 4
    ensures var d := OneBlockDatagram(serial, timestamp, id, code, body);
      && HasMagic(d) && DataLen(d) == 36 && Header(d) == Seed(serial, timestamp)
      && HeaderAt(d, FirstBlock).0 == id && d[FirstBlock + 2] == code
      && Slice(d, FirstBlock + 4, FirstBlock + 8) == body
      && Parse(d, FirstBlock, DataLen(d)) == [ReadBlock(d, FirstBlock)]
  {
    var d := OneBlockDatagram(serial, timestamp, id, code, body);
    WidthFacts();
    var obis := EncodeBigEndian(id, 2) + [code, 0];
    assert d == EncodeHeader(serial, timestamp, 8) + (obis + body);
    ReadEncodedHeader(serial, timestamp, 8, obis + body);
    assert d[FirstBlock..] == obis + body;
    assert Slice(d, FirstBlock, FirstBlock + 4) == obis;
    assert obis[..2] == EncodeBigEndian(id, 2);
    DecodeEncode(id, 2);
    assert d[FirstBlock + 4..] == body by {
      assert d[FirstBlock + 4..] == d[FirstBlock..][4..];
    }
    assert Slice(d, FirstBlock + 4, FirstBlock + 8) == d[FirstBlock + 4..];
    assert Parse(d, FirstBlock, 36) == [ReadBlock(d, FirstBlock)] + Parse(d, FirstBlock + Advance(HeaderAt(d, FirstBlock).1), 36);
  }

  /** A one-block datagram decodes to that block's entries next to the seed, signed, or to the block's error. */
  lemma DecodeOneBlock(d: seq<uint8>, serial: nat, timestamp: nat, b: Block)
    requires HasMagic(d) && DataLen(d) == 36 && Header(d) == Seed(serial, timestamp)
    requires Parse(d, FirstBlock, DataLen(d)) == [b]
    ensures Decode(d) == match Writes(b)
      case Failure(e) => Failure(e)
      case Success(w) => Success(Currents.SignedCurrents(Seed(serial, timestamp) + w))
  {
    if Writes(b).Success? {
      InterpretSingle(b, Header(d));
    } else {
      InterpretStepFails(b, [], Header(d));
      assert [b] + [] == [b];
    }
  }

  /** A version block with fewer than four body octets left: ValueError, naming how many octets there were. */
  lemma CutVersion(serial: nat, timestamp: nat, octets: seq<uint8>)
    requires serial < 0x1_0000_0000 && timestamp < 0x1_0000_0000 && |octets| < 4
    ensures Decode(OneBlockDatagram(serial, timestamp, VersionChannel, 0, octets)) == Failure(ShortVersion(|octets|))
  {
    var d := OneBlockDatagram(serial, timestamp, VersionChannel, 0, octets);
    ReadOneBlock(serial, timestamp, VersionChannel, 0, octets);
    var b := VersionBlock(VersionChannel, octets);
    assert ReadBlock(d, FirstBlock) == b;
    OnlyVersionUnitless();
    DecodeOneBlock(d, serial, timestamp, b);
  }

  /**
   * An actual block with fewer than four body octets left still decodes:
   * its value is read from the octets that are there.
   */
  lemma CutActual(serial: nat, timestamp: nat, id: nat, body: seq<uint8>)
    requires serial < 0x1_0000_0000 && timestamp < 0x1_0000_0000 && id < 65536 && |body| < 4
    requires id in Channels && Channels[id].actualUnit in Units
    ensures var d := OneBlockDatagram(serial, timestamp, id, 4, body);
      var ch := Channels[id];
      && Decode(d).Success?
      && ch.name in Decode(d).value && Decode(d).value[ch.name] == Real(Scaled(SignedBigEndian(body), ch.actualUnit))
  {
    var d := OneBlockDatagram(serial, timestamp, id, 4, body);
    ReadOneBlock(serial, timestamp, id, 4, body);
    var b := ActualBlock(id, SignedBigEndian(body));
    assert ReadBlock(d, FirstBlock) == b;
    var ch := Channels[id];
    var value, unit := Real(Scaled(SignedBigEndian(body), ch.actualUnit)), Str(ch.actualUnit);
    assert Writes(b).value == map[ch.name := value, ch.name + "unit" := unit];
    DecodeOneBlock(d, serial, timestamp, b);
    EntriesSurviveSigning(serial, timestamp, ch.name, value, unit);
  }

  /** An actual block on the version channel, which has no actual unit, is a KeyError. */
  lemma ActualOnVersionChannelFails(serial: nat, timestamp: nat, body: seq<uint8>)
    requires serial < 0x1_0000_0000 && timestamp < 0x1_0000_0000 && |body| <= 4
    ensures Decode(OneBlockDatagram(serial, timestamp, VersionChannel, 4, body)) == Failure(MissingUnit(""))
  {
    var d := OneBlockDatagram(serial, timestamp, VersionChannel, 4, body);
    ReadOneBlock(serial, timestamp, VersionChannel, 4, body);
    var b := ActualBlock(VersionChannel, SignedBigEndian(Slice(d, FirstBlock + 4, FirstBlock + 8)));
    assert ReadBlock(d, FirstBlock) == b;
    assert LacksUnit(b) by {
      assert Channels[VersionChannel].actualUnit == "";
    }
    DecodeOneBlock(d, serial, timestamp, b);
  }
}
