# Speedwire datagram decoder, modelled in Dafny

This project models the decoder of the SMA Home Manager 2.0 "Speedwire"
multicast datagram (`speedwiredecoder.py`), and proves properties of that
model. The decoder turns one datagram into a string-keyed record of
measurements. It works in four steps:

- **Header checks.** The buffer must start with the magic `"SMA"`. The
  declared length is the big-endian 16-bit field at octets 12..13 plus 16,
  and a declared length of 54 marks a keep-alive. The serial number and the
  timestamp are big-endian 32-bit fields at octets 20..23 and 24..27.
- **Block walk.** A cursor starts at octet 28 and visits OBIS blocks until it
  reaches the declared length. Each block header holds a 16-bit measurement
  id and a type octet. Type 4 is an actual value (signed 32-bit), type 8 a
  counter (unsigned 64-bit), and type 0 on channel 36864 the firmware
  version. Any other block is skipped as 8 octets.
- **Tables.** The unit table maps a unit to the divisor that scales a raw
  reading. The channel table maps a measurement id to a name, an actual unit
  and a total unit.
- **Signed currents.** A pass over phases 1..3 negates the current `i<p>`
  when the phase's net power `p<p>consume - p<p>supply` is negative.

Modules (one file each):

| module | file | contents |
|---|---|---|
| `Wrappers` | `wrappers.dfy` | `Option` and `Result` |
| `Bytes` | `bytes.dfy` | octets, Python slicing, big-endian unsigned and two's-complement reads, and encoders that invert them |
| `Tables` | `tables.dfy` | `Units` and `Channels` as constant maps, with consistency lemmas |
| `Obis` | `obis.dfy` | block header classification and cursor advance |
| `VersionFormat` | `version.dfy` | decimal and hex digits, and the version string |
| `Records` | `records.dfy` | the record (`map<string, Value>`) and the class `Measurements`, the dictionary filled in place |
| `Currents` | `currents.dfy` | the current-sign pass, as a function and as the in-place loop |
| `Decoder` | `decoder.dfy` | the decoder, as a function (`Decode`) and as the cursor loop (`DecodeSpeedwire`) |
| `Framing` | `framing.dfy` | a datagram writer, its round trip through the decoder, and worked datagrams |

The two loops of the source are modelled as imperative methods.

- `Decoder.DecodeSpeedwire` runs the `while pos < datalen` loop over a
  `Measurements` object. Its invariant ties the object's entries to
  `Interpret(Parse(...))`. `Parse` is the list of blocks the cursor visits;
  `Interpret` applies their writes in order.
- `Currents.DeriveSignedCurrents` runs the phase loop and rewrites the
  caller's dictionary in place.

Each method's postcondition equals the specification function (`Decode`,
`SignedCurrents`), and the lemmas are stated about those functions.

Python behaviours modelled explicitly:

- **Raised exceptions.** They become `Result.Failure` with a `DecodeError`:
  - `MissingUnit(unit)` for the `KeyError` from `sma_units[""]`
  - `ShortHeader(pos)` for the `IndexError` on `obis[2]` when fewer than three header octets remain
  - `ShortVersion(n)` for the `ValueError` from `int("", 16)` when a version body has only `n < 4` octets
- **Short slices.** Slices past the end of the buffer are cut short, and the
  integers are read from the octets that are present (an empty slice reads
  as 0). `Decode` therefore has no precondition.
- **String times -1.** `sign * i_abs` on a string current keeps it for sign
  1 and gives `""` for sign -1.
- **Caught errors in the sign pass.** A `TypeError` from subtracting a string
  power is caught, and that phase keeps its value.
- **Scaled values.** They are exact rationals (`real`), `raw / divisor`.
- **No absolute value.** The sign pass only multiplies by the sign
  (speedwiredecoder.py:188-189); a negative stored current is never made
  positive.
- **Uncaught errors.** A known channel with an empty unit for the block's
  kind raises `KeyError` (speedwiredecoder.py:142, 150), for example a
  counter block for `i1` or an actual block on channel 36864. Short buffers
  raise as listed above.

## Model

| member | source | states |
|---|---|---|
| Bytes.BigEndian | speedwiredecoder.py:122 | `int.from_bytes(s, "big")` is below 256^len(s) |
| Bytes.SignedBigEndian | speedwiredecoder.py:136-137 | the signed read of a non-empty slice lies in the two's-complement range of its width and is negative exactly when the top bit of the first octet is set; an empty slice reads as 0 |
| Bytes.Slice | speedwiredecoder.py:136 | `s[lo:hi]` equals the in-range slice when the buffer is long enough, is cut at the end of the buffer otherwise, and is empty past the end |
| Bytes.DecodeEncode | speedwiredecoder.py:122 | reading back a big-endian encoding of a number that fits its width gives the number |
| Bytes.EncodeDecode | speedwiredecoder.py:146 | encoding the value read from any octets, at their width, gives the octets back |
| Bytes.SignedDecodeEncode | speedwiredecoder.py:137 | reading back the two's-complement encoding of any value in the signed range gives the value |
| Tables.UnitsCoverChannels | speedwiredecoder.py:24-80 | every non-empty actual or total unit of the channel table has a divisor, and the empty unit has none |
| Tables.DivisorsPositive | speedwiredecoder.py:24-35 | every divisor is 10, 1000 or 3600000 |
| Tables.OnlyVersionUnitless | speedwiredecoder.py:38-80 | channel 36864 is the one channel with neither an actual nor a total unit |
| Obis.DecodeObisHeader | speedwiredecoder.py:86-102 | the id is the big-endian value of the first two octets; the kind is actual iff type 4, counter iff type 8, version iff type 0 on id 36864, unknown in every other case |
| Obis.Advance | speedwiredecoder.py:138-165 | the cursor advances by 12 octets past a counter block and by exactly 8 past an actual, version or unknown block, so it strictly increases |
| VersionFormat.DecimalString | speedwiredecoder.py:158 | `str(n)` is a non-empty string of decimal digits with no leading zero |
| VersionFormat.ParseDecimalString | speedwiredecoder.py:158 | the decimal digits of an octet read back as that octet |
| VersionFormat.Hex2 | speedwiredecoder.py:157 | each octet becomes two lower-case hex digits whose value is the octet |
| VersionFormat.Revision | speedwiredecoder.py:159-162 | the suffix is non-empty exactly when the fourth octet is the character '1'..'6', and then is a dot followed by an upper-case letter |
| VersionFormat.VersionTail | speedwiredecoder.py:157-163 | the version string ends in a pipe and six hex digits that read back as the first three octets |
| VersionFormat.VersionDeterminesOctets | speedwiredecoder.py:157-163 | two version blocks with equal strings have equal first three octets and equal suffixes |
| VersionFormat.VersionExample | speedwiredecoder.py:153-163 | octets 01 02 03 31 give "1.2.3.S\|010203" |
| Records.Measurements.Put | speedwiredecoder.py:142 | `emparts[key] = v` sets that key and changes nothing else |
| Currents.AsNumber | speedwiredecoder.py:187 | a value can be subtracted exactly when it is not a string |
| Currents.Scale | speedwiredecoder.py:189 | multiplying by sign 1 leaves any value as it is, and a number stays a number of the same kind |
| Currents.SignPhase | speedwiredecoder.py:179-189 | one phase's iteration keeps every key and changes no value but that phase's current |
| Currents.SignedCurrentsFrame | speedwiredecoder.py:176-191 | the pass keeps every key and changes no value other than i1, i2 and i3 |
| Currents.LaterPhasesUntouched | speedwiredecoder.py:179-189 | the powers every phase reads are never changed by earlier iterations, and later phases' currents are untouched |
| Currents.SignedCurrentOfPhase | speedwiredecoder.py:179-189 | each current ends up as the original current times the sign of the original net power (absent powers count as 0.0), unchanged when the subtraction raises, and absent exactly when it was absent |
| Currents.SignedCurrentsWithoutCurrents | speedwiredecoder.py:183-185 | a record without i1, i2 and i3 passes through unchanged |
| Currents.CurrentWithoutPower | speedwiredecoder.py:181-188 | a phase without either power reading keeps its current, since the net power 0.0 is not negative |
| Currents.SignedCurrentsTwice | speedwiredecoder.py:176-191 | on numeric currents the pass applied twice gives back the original record |
| Currents.SignedCurrentsNotIdempotent | speedwiredecoder.py:176-191 | an exporting phase shows a different current after a second pass |
| Currents.SignedCurrentExamples | speedwiredecoder.py:187-189 | consume 500 / supply 0 keeps 2.3, consume 0 / supply 500 gives -2.3, both 0 keeps 2.3 |
| Currents.DeriveSignedCurrents | speedwiredecoder.py:176-191 | the in-place loop over phases leaves the dictionary equal to `SignedCurrents` of its old contents |
| Decoder.Writes | speedwiredecoder.py:135-163 | a block fails exactly when it raises; the failure is the KeyError exactly for a known channel without a unit for the block's kind, and the IndexError exactly for a cut header; an unknown block, or a block on an id the channel table does not know, writes nothing |
| Decoder.InterpretUntouched | speedwiredecoder.py:132-165 | a key that no block writes keeps its presence and value from before the walk |
| Decoder.InterpretLastWrite | speedwiredecoder.py:140-163 | a key holds the value of the last block that writes it |
| Decoder.InterpretFailsIff | speedwiredecoder.py:132-165 | the walk fails exactly when some visited block raises |
| Decoder.InterpretFirstError | speedwiredecoder.py:132-165 | the error reported is that of the first block that raises |
| Decoder.HeaderKeysNeverWritten | speedwiredecoder.py:127-163 | no block writes "serial" or "timestamp" |
| Decoder.ChannelKeysAvoidHeader | speedwiredecoder.py:38-80 | no channel name followed by any suffix equals "serial" or "timestamp" |
| Decoder.DecodeOutcome | speedwiredecoder.py:119-128 | no magic or a keep-alive gives the empty record; otherwise decoding fails exactly when a visited block raises, and a record holds serial and timestamp read big-endian from octets 20..23 and 24..27; every record is empty or holds both |
| Decoder.StoreMeasurement | speedwiredecoder.py:140-143 | an actual value on a known channel stores value/divisor under the name and the unit under name+"unit", raises KeyError for an empty unit, and stores nothing for an unknown id; on an error the dictionary is left unchanged |
| Decoder.StoreCounter | speedwiredecoder.py:148-151 | a counter on a known channel stores total/divisor under name+"counter" and the unit under name+"counterunit", raises KeyError for an empty unit, and stores nothing for an unknown id; on an error the dictionary is left unchanged |
| Decoder.StoreVersion | speedwiredecoder.py:156-163 | a version block stores the formatted version under the channel's name, or raises ValueError for a body shorter than four octets; on an error the dictionary is left unchanged |
| Decoder.StoreBlock | speedwiredecoder.py:135-165 | the dictionary gains exactly the entries `Writes` gives the block, or the block's error is reported and the dictionary is left unchanged |
| Decoder.DecodeBlock | speedwiredecoder.py:133-165 | one loop iteration moves the cursor past the block by its kind, reports IndexError for a cut header, and otherwise stores the block's entries or reports its error, leaving the dictionary unchanged on an error |
| Decoder.DecodeSpeedwire | speedwiredecoder.py:108-170 | the cursor loop followed by the in-place sign pass returns exactly `Decode` of the buffer |
| Framing.ReadEncodedBlock | speedwiredecoder.py:133-165 | a block written at an offset is read back there as the same block |
| Framing.ParseEncoded | speedwiredecoder.py:131-165 | the walk over written blocks visits exactly those blocks, in order |
| Framing.ReadEncodedHeader | speedwiredecoder.py:119-128 | a written header passes the magic check, is not a keep-alive, and reads back its length, serial and timestamp |
| Framing.DecodeEncoded | speedwiredecoder.py:108-170 | decoding a written datagram applies its blocks in order to its serial and timestamp and then signs the currents, or fails with the first error |
| Framing.UnknownIdSkipped | speedwiredecoder.py:140-165 | for every written datagram, a leading block on an id outside the channel table, or of an unknown type, changes nothing: the decode equals that of the datagram without it |
| Framing.SilentFirst | speedwiredecoder.py:140-165 | a first block that is unknown or on an unknown id leaves the walk's result as the walk over the remaining blocks |
| Framing.UnknownBlockSkipped | speedwiredecoder.py:135-165 | an unknown block before an actual block does not stop the walk; the actual value arrives scaled, next to its unit |
| Framing.CounterBlockDecoded | speedwiredecoder.py:145-151 | a counter block decodes to the seed plus its scaled total and its unit under name+"counterunit" |
| Framing.VersionBlockDecoded | speedwiredecoder.py:153-163 | a version block 01 02 03 31 decodes to "speedwire-version" = "1.2.3.S\|010203" |
| Framing.CounterWithoutUnitFails | speedwiredecoder.py:148-150 | a counter block on channel 31 (i1, no total unit) fails with the KeyError for "" |
| Framing.ActualOnVersionChannelFails | speedwiredecoder.py:140-142 | an actual block on channel 36864 fails with the KeyError for "" |
| Framing.NoRoomForBlocks | speedwiredecoder.py:131-132 | a declared length that ends before octet 28 gives the serial and timestamp alone |
| Framing.MagicOnly | speedwiredecoder.py:119-132 | the three octets "SMA" alone decode to serial 0 and timestamp 0 |
| Framing.CutAfterHeader | speedwiredecoder.py:133 | a datagram that ends after its header while promising blocks raises IndexError at octet 28 |
| Framing.CutVersion | speedwiredecoder.py:154-158 | a version body with fewer than four octets raises ValueError |
| Framing.CutActual | speedwiredecoder.py:136-137 | an actual body with fewer than four octets is read from the octets present |

## Left out

- `sma2mqtt.py` and `haautodiscover.py` are not part of this model. They are MQTT, socket, signal and file I/O around the decoder.
- Floating point: `val / divisor` is exact rational division, not IEEE 754 arithmetic.
- The diagnostic `print` calls for unknown block types and for a failed phase have no effect on the record and are not modelled.
- `binascii.b2a_hex` and `int(..., 16)` are replaced by hex and decimal digit functions written here.
- The record's insertion order is not modelled; the record is a map.
- Framing: the datagram writer is a proof device for stating round trips; the source has no encoder.
- Currents.Scale: states only the sign-1 and type-preserving cases; for sign -1 the value is negated (a string becomes ""), which its callers' lemmas state through `SignedValue`.
