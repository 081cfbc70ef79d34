# UT330 data logger driver, modelled in Dafny

This project models the driver for the UNI-T UT330 temperature, humidity and
pressure data loggers, together with the controller the driver's user
interface uses.

The driver talks to the logger over a USB serial port. Every operation does
the same four things:

- builds a command frame in a byte buffer;
- closes the frame with its Modbus CRC16;
- writes the frame to the port;
- reads a fixed-size or announced-size reply back into the same buffer, then
  checks or decodes it.

The operations are:

- download the stored readings;
- erase them;
- read and write the configuration;
- set the clock;
- read and write the sensor offsets;
- restore the factory settings;
- read the device name.

The controller puts a `connected` flag in front of every operation. It turns
the exceptions it catches into a status message, and it keeps the last data,
configuration and offsets it read.

The model has these parts:

- `errors.dfy` (module `Errors`): the exceptions the driver raises or lets
  through, plus `Option` and `Result`.
- `crc.dfy` (module `Crc`):
  - the source's 256-entry table and its table-driven loop;
  - the proof that they compute the bitwise Modbus CRC of section 6.2.2 of
    the Modbus over Serial Line specification V1.02 (polynomial 0xA001,
    initial value 0xFFFF);
  - `Trailer`, the two CRC bytes a frame ends with, low byte first.
- `fields.dfy` (module `Fields`):
  - little-endian words, and signed bytes read and written as two's
    complement;
  - the temperature word;
  - the padded, stripped device name;
  - the six-byte timestamp.
  Each field has a round-trip lemma.
- `transport.dfy` (module `Transport`): the serial port as a value.
  - Its incoming bytes feed reads, and writes append to its written bytes.
  - A read that times out returns what has arrived.
  - A write stops when the write room is used up. The port then either
    raises a timeout `IOError` or returns the short count.
  - It also models the paged reads of `_read_buffer`.
- `codec.dfy` (module `Codec`):
  - the fixed command frames and expected status replies, each proved to
    carry its CRC;
  - the configuration, timestamp and offsets frames, with the range checks
    `write_config` and `write_offsets` make;
  - the decoders of the configuration, offsets and data replies;
  - write-then-read round trips.
- `ut330.dfy` (module `Device`):
  - the `UT330` class, whose fields are the port, the buffer, the decode
    index and the time of the last operation;
  - one method per driver operation, updating those fields step by step as
    the source does;
  - next to each method, a function on the state values that the method is
    proved equal to.
- `controller.dfy` (module `Control`): the `Controller` class. Its invariant
  `Valid` says that while it is connected the driver's port is open. Every
  method keeps that invariant. As a consequence, while connected no
  operation can fail for lack of an open port, and `write_config` and
  `write_offsets` never let an exception through.

Numbers the source keeps as floating point are kept here in tenths, as the
logger sends them: temperatures, humidity, pressure and offsets. Time is in
microseconds and is passed in as `now`.

## Model

| member | source | states |
|---|---|---|
| Crc.TableIsReflectedA001 | UT330BUI/model/UT330.py:76-108 | Every entry `i` of `TABLE` is what eight rounds of the reflected-0xA001 shift algorithm make of `i` |
| Crc.StepsAgree | UT330BUI/model/UT330.py:121 | One iteration of the table loop, `(crc >> 8) ^ TABLE[(crc ^ number) & 0xFF]`, equals one byte of the bitwise Modbus CRC, for every register and byte |
| Crc.RegisterIsModbusCrc | UT330BUI/model/UT330.py:111-126 | The register `modbusCRC` ends with is the bitwise Modbus CRC of the same data, for all data |
| Crc.RegisterStep | UT330BUI/model/UT330.py:120-121 | Appending a byte moves the register by exactly one bitwise step |
| Crc.ModbusCrc | UT330BUI/model/UT330.py:111-126 | The loop returns `(MSB, LSB)`, both bytes, with `256*MSB + LSB` the CRC register; `[LSB, MSB]` is the frame trailer |
| Crc.Trailer | UT330BUI/model/UT330.py:393 | The trailer is two bytes, and body plus trailer carries its CRC |
| Crc.TrailerOfFrame | UT330BUI/model/UT330.py:393 | A frame that carries its CRC in two bytes is its body plus the body's trailer, so recomputing the CRC of a correct command leaves it unchanged |
| Codec.FrameStarts | UT330BUI/model/UT330.py:318 | The CRC register after the sync bytes `AB CD` and the length byte, for requests (03) and status replies (04) |
| Codec.RequestCrc | UT330BUI/model/UT330.py:318 | A six-byte request `AB CD 03 op lo hi` carries its CRC when `lo hi` is the register after `op` |
| Codec.ReplyCrc | UT330BUI/model/UT330.py:402 | A seven-byte status reply `AB CD 04 op 00 lo hi` carries its CRC when `lo hi` is the register after `op 00` |
| Codec.ReadDataCommandCarriesCrc | UT330BUI/model/UT330.py:318 | The download command ends with the Modbus CRC of its first four bytes |
| Codec.DeleteDataCommandCarriesCrc | UT330BUI/model/UT330.py:391 | The erase command ends with its CRC |
| Codec.DeleteDataTrailer | UT330BUI/model/UT330.py:391-393 | Recomputing the erase command's CRC, as `delete_data` does, gives back the same six bytes |
| Codec.ReadConfigCommandCarriesCrc | UT330BUI/model/UT330.py:412 | The configuration query ends with its CRC |
| Codec.ReadOffsetsCommandCarriesCrc | UT330BUI/model/UT330.py:582 | The offsets query ends with its CRC |
| Codec.RestoreFactoryCommandCarriesCrc | UT330BUI/model/UT330.py:679 | The factory-reset command ends with its CRC |
| Codec.ReadNameCommandCarriesCrc | UT330BUI/model/UT330.py:696 | The device-name query ends with its CRC |
| Codec.DeleteDataOkCarriesCrc | UT330BUI/model/UT330.py:402 | The expected erase reply ends with its CRC |
| Codec.WriteConfigOkCarriesCrc | UT330BUI/model/UT330.py:546 | The expected write-configuration reply ends with its CRC |
| Codec.WriteDatetimeOkCarriesCrc | UT330BUI/model/UT330.py:574 | The expected set-clock reply ends with its CRC |
| Codec.WriteOffsetsOkCarriesCrc | UT330BUI/model/UT330.py:670 | The expected write-offsets reply ends with its CRC |
| Codec.RestoreFactoryOkCarriesCrc | UT330BUI/model/UT330.py:687 | The expected factory-reset reply ends with its CRC |
| Codec.CheckReply | UT330BUI/model/UT330.py:401-403 | A status check succeeds exactly when the reply equals the expected seven bytes; otherwise it raises the `IOError` of that command |
| Fields.Le16 | UT330BUI/model/UT330.py:434-435 | A 16-bit little-endian word is below 2^16, and its low and high bytes are the two bytes read |
| Fields.Le24 | UT330BUI/model/UT330.py:430-432 | A 24-bit little-endian field is below 2^24 |
| Fields.Le32 | UT330BUI/model/UT330.py:334-335 | The 32-bit download length is below 2^32 |
| Fields.SplitLe32 | UT330BUI/model/UT330.py:334-335 | A 32-bit count, as the logger sends it low byte first, is four bytes |
| Fields.SplitThenLe32 | UT330BUI/model/UT330.py:334-335 | A count below 2^32, sent as four bytes and read as `read_data` reads the header, comes back unchanged |
| Fields.Le32ThenSplit | UT330BUI/model/UT330.py:334-335 | Four header bytes read as the count and split again come back unchanged |
| Fields.SplitLe24 | UT330BUI/model/UT330.py:509-511 | Splitting a field with the masks and shifts gives three bytes |
| Fields.SplitThenLe24 | UT330BUI/model/UT330.py:509-511 | A value below 2^24, split as `write_config` splits it and read as `read_config` reads it, comes back unchanged |
| Fields.Le24ThenSplit | UT330BUI/model/UT330.py:430-432 | Three bytes read as a 24-bit field and split again come back unchanged |
| Fields.DecodeSigned | UT330BUI/model/UT330.py:449-458 | An alarm byte decodes to a value in -128..127 that agrees with the byte modulo 256, for both alarm tests |
| Fields.EncodeSigned | UT330BUI/model/UT330.py:523-531 | An alarm is stored modulo 256; in -128..127 it is a byte that decodes back to the alarm |
| Fields.Temperature | UT330BUI/model/UT330.py:272-287 | The temperature is the 16-bit word read as two's complement, in -32768..32767 tenths |
| Fields.TemperatureWord | UT330BUI/model/UT330.py:272-287 | Every temperature in range has a two-byte word that decodes to it |
| Fields.TemperatureWordOfTemperature | UT330BUI/model/UT330.py:272-287 | Every two-byte word is the word of the temperature it decodes to, so the decoding is one to one |
| Fields.SkipSpaces | UT330BUI/model/UT330.py:296 | The end of a whitespace run starting at `i`: everything before is whitespace, and the next character is not |
| Fields.SkipSpacesBack | UT330BUI/model/UT330.py:296 | The start of a whitespace run ending at `j`, with the same two guarantees |
| Fields.Strip | UT330BUI/model/UT330.py:296 | `str.strip()`: the result is a slice whose outside is all whitespace, and which neither starts nor ends with whitespace |
| Fields.SkipLeadingSpaces | UT330BUI/model/UT330.py:505 | The left padding `rjust` adds is skipped exactly to the first character of the name |
| Fields.PaddedName | UT330BUI/model/UT330.py:505 | The name, cut to ten and right-justified with spaces, is ten characters |
| Fields.NameCodes | UT330BUI/model/UT330.py:505-506 | The name occupies exactly ten bytes of the frame |
| Fields.Slice10 | UT330BUI/model/UT330.py:294 | `buf[i:i+10]` is at most ten bytes, and exactly those ten when the buffer is long enough |
| Fields.GetName | UT330BUI/model/UT330.py:290-296 | The name read is at most ten characters, with no whitespace at either end |
| Fields.NameRoundTrip | UT330BUI/model/UT330.py:290-296 | A name of one to ten Latin-1 characters with no outer whitespace, stored as `write_config` stores it, is read back unchanged |
| Fields.CharsOfCodes | UT330BUI/model/UT330.py:296 | `chr` undoes `ord` on characters below 256, which are all bytes |
| Fields.DaysInMonth | UT330BUI/model/UT330.py:263-268 | The month lengths `datetime` accepts are 28 to 31 days |
| Fields.DateTimeBytes | UT330BUI/model/UT330.py:558-563 | A timestamp is stored as six values |
| Fields.GetDateTime | UT330BUI/model/UT330.py:259-269 | A decoded timestamp is valid and is stored as the six bytes read; too few bytes raise `IndexError`; otherwise no valid timestamp has those bytes, and `datetime` raises `ValueError` |
| Fields.DateTimeRoundTrip | UT330BUI/model/UT330.py:259-269 | A valid timestamp of the years 2000..2255, stored as `write_datetime` stores it, is read back unchanged |
| Transport.Read | UT330BUI/model/UT330.py:242 | A read on an open port takes the first `min(size, arrived)` bytes and logs the request; on a closed port it raises |
| Transport.Write | UT330BUI/model/UT330.py:252 | A write sends the bytes that fit in the write room; it returns their count, or raises the timeout, or raises on a closed port |
| Transport.Close | UT330BUI/model/UT330.py:303 | Closing ends with a closed port unless the operating system refuses, which raises and leaves the port as it was |
| Transport.Pages | UT330BUI/model/UT330.py:241-245 | `_read_buffer` makes `count // 32768` whole-page requests and one request for the remainder |
| Transport.SumOfWholePages | UT330BUI/model/UT330.py:241-242 | `n` whole pages ask for `32768*n` bytes |
| Transport.PagesTotal | UT330BUI/model/UT330.py:241-245 | The page requests add up to exactly the byte count asked for |
| Transport.ReadMore | UT330BUI/model/UT330.py:242 | Each further read continues where the previous reads stopped, and what it returns extends what was read so far |
| Transport.ReadPages | UT330BUI/model/UT330.py:228-245 | A paged read of `count` bytes on an open port returns the first `count` bytes that arrived, or all of them, and logs the page requests |
| Transport.ReadPagesParts | UT330BUI/model/UT330.py:228-245 | The paged read as the port it leaves and the prefix it returns |
| Codec.DecodeConfig | UT330BUI/model/UT330.py:407-466 | A reply shorter than 38 bytes raises `IndexError`; otherwise the decode succeeds exactly when the timestamp at 38 is valid; a decoded name is at most ten characters, the 24-bit fields are below 2^24, the temperature alarms are signed bytes, and the timestamp is the one at byte 38 |
| Codec.CheckSettings | UT330BUI/model/UT330.py:478-500 | The settings are accepted exactly when the name has 1..10 characters, the interval is in 0..86400 and the delay is in 0..604800; otherwise the first failed check, in source order, names the `ValueError` |
| Codec.BoolByte | UT330BUI/model/UT330.py:513-514 | `int(flag)` is non-zero exactly when the flag is set |
| Codec.ConfigFields | UT330BUI/model/UT330.py:508-534 | The fields after the name take 13 bytes |
| Codec.ConfigFrame | UT330BUI/model/UT330.py:470-537 | The configuration frame is 29 bytes: header `AB CD 1A 10`, byte 22 zero, and a CRC trailer |
| Codec.ConfigFrameIsBytes | UT330BUI/model/UT330.py:470-537 | Every accepted setting the logger can store is framed as bytes, so `bytearray` does not raise |
| Codec.ConfigRoundTrip | UT330BUI/model/UT330.py:407-537 | When the logger stores a frame `write_config` built, `read_config` decodes the same name, interval, flags, delay and alarms |
| Codec.DatetimeFrame | UT330BUI/model/UT330.py:551-566 | The clock frame is header `AB CD 09 12`, the six timestamp values, then the CRC |
| Codec.DatetimeRoundTrip | UT330BUI/model/UT330.py:551-566 | A valid timestamp of 2000..2255 is framed as bytes, and the frame decodes back to it at index 4 |
| Codec.DecodeOffsets | UT330BUI/model/UT330.py:579-618 | The offsets decode exactly when the reply has at least 13 bytes, else `IndexError`; each offset is the byte after its reading (at 6, 9 and 12) read as a signed byte: in -128..127 and equal to that byte modulo 256 |
| Codec.CheckOffsets | UT330BUI/model/UT330.py:626-641 | The offsets are accepted exactly when all three are in -60..61 tenths; otherwise the first out-of-range one, in source order, names the `ValueError` |
| Codec.OffsetsFrame | UT330BUI/model/UT330.py:644-662 | The offsets frame is nine values and carries its CRC (corrected encoding, see Findings) |
| Codec.OffsetsFrameAsWritten | UT330BUI/model/UT330.py:644-662 | The offsets frame as the source encodes it is nine values |
| Codec.NegativeOffsetNotSent | UT330BUI/model/UT330.py:646-659 | As written, any accepted negative offset puts a value above 255 in the frame; the corrected frame is all bytes |
| Codec.AsWrittenOffsetsFrame | UT330BUI/model/UT330.py:644-662 | With no negative offset, the source's frame is the corrected frame |
| Codec.OffsetsRoundTrip | UT330BUI/model/UT330.py:579-662 | With the corrected encoding, every accepted offset is sent as a byte and `read_offsets` decodes it back unchanged |
| Codec.DataLength | UT330BUI/model/UT330.py:334-335 | The announced data length is below 2^32 |
| Codec.RecordAt | UT330BUI/model/UT330.py:359-374 | A record, decoded as the source decodes it, succeeds exactly when eleven bytes are there and the timestamp is valid, and its pressure is 257 times byte `i+10`; otherwise it raises `IndexError` or the timestamp's `ValueError` |
| Codec.RecordAtCorrected | UT330BUI/model/UT330.py:359-374 | The evidently intended decoder (see Findings) succeeds exactly when twelve bytes are there and the timestamp is valid, and otherwise raises the same errors |
| Codec.RecordDecodersAgree | UT330BUI/model/UT330.py:359-374 | Where twelve bytes are there, the source's decoder and the corrected one both succeed or both raise the same error; on success they differ only in the pressure, which the corrected one reads from bytes `i+10` and `i+11` |
| Codec.EncodeReading | UT330BUI/model/UT330.py:361-379 | A reading the record format can carry is twelve bytes |
| Codec.AsRead | UT330BUI/model/UT330.py:369-372 | What `read_data` reports for a stored reading keeps its timestamp, temperature and humidity, and equals it exactly when the pressure's two bytes agree |
| Codec.AsReadAll | UT330BUI/model/UT330.py:356-381 | What `read_data` reports for a list of stored readings: `AsRead` of each, in the same order |
| Codec.AsReadAllUnchanged | UT330BUI/model/UT330.py:369-372 | A list of stored readings is reported unchanged exactly when every pressure's two bytes agree |
| Codec.RecordAtEncoded | UT330BUI/model/UT330.py:359-374 | The corrected decoder (see Findings) reads every encoded reading back unchanged |
| Codec.RecordAtOfEncoded | UT330BUI/model/UT330.py:359-374 | The source's decoder reads every encoded reading as `AsRead` of it |
| Codec.PressureReadTwice | UT330BUI/model/UT330.py:371-372 | As written, the pressure decodes as `257 * low byte`, which differs from the stored pressure whenever its two bytes differ |
| Codec.EncodeReadings | UT330BUI/model/UT330.py:359-379 | A list of readings takes twelve bytes per reading |
| Codec.Records | UT330BUI/model/UT330.py:356-381 | The decode loop, with each record decoded as the source decodes it, fails only with `IndexError` or the timestamp's `ValueError` |
| Codec.RecordsCount | UT330BUI/model/UT330.py:359-379 | A successful loop yields ceil((length-2-i)/12) readings and stops 12 bytes per reading further on |
| Codec.RecordsInOrder | UT330BUI/model/UT330.py:356-381 | The `j`th reading is what the source's decoder gives for the record at `i + 12j`: readings come out in buffer order |
| Codec.RecordsOfEncoded | UT330BUI/model/UT330.py:351-381 | The records of a list of readings followed by the two CRC bytes decode to `AsRead` of each reading, in order, and the loop stops at the CRC |
| Device.LastLoggerAt | UT330BUI/model/UT330.py:186-193 | The index found has the logger's ids (vid 4292, pid 60000), and no later entry has them, or no entry has them at all |
| Device.Pause | UT330BUI/model/UT330.py:48-53 | The pause `buffer_safety` decides on: 10 ms exactly when less than 10 ms have passed since the last operation, and none otherwise; after it, at least 10 ms separate the two operations |
| Device.SendFrame | UT330BUI/model/UT330.py:248-256 | The frame goes out whole exactly when a port is assigned and open, every value is a byte and the frame fits the write room. Otherwise the error is, in order: `AttributeError`, `ValueError` from `bytearray`, the port's `IOError`, then the timeout `IOError` or the short-write `ValueError` |
| Device.Exchange | UT330BUI/model/UT330.py:228-256 | Write then read: on success the buffer holds the reply and the frame was written; on failure only the port changed |
| Device.StatusExchange | UT330BUI/model/UT330.py:395-403 | A status command succeeds exactly when the frame goes out and the next seven bytes are the expected reply; a wrong reply raises that command's `IOError` |
| Device.ReadDataSpec | UT330BUI/model/UT330.py:308-381 | `read_data` as the source runs it, with the pressure read from one byte: the port is kept; success leaves it open; a non-empty result has at least two readings |
| Device.DownloadData | UT330BUI/model/UT330.py:351-381 | At least 22 announced bytes, decoded as the source decodes them, give at least two readings, and the port stays open |
| Device.DeleteDataSpec | UT330BUI/model/UT330.py:385-403 | A successful erase sent exactly the erase command |
| Device.ReadConfigSpec | UT330BUI/model/UT330.py:407-466 | A successful read leaves the index at 38 with at least 38 bytes in the buffer |
| Device.WriteConfigSpec | UT330BUI/model/UT330.py:470-547 | Rejected settings raise the first failed check's `ValueError`, leave the zeroed template in the buffer, and write nothing; a success wrote exactly the configuration frame |
| Device.WriteDatetimeSpec | UT330BUI/model/UT330.py:551-575 | A successful clock write sent exactly the timestamp frame |
| Device.ReadOffsetsSpec | UT330BUI/model/UT330.py:579-618 | A successful read leaves the index at 4 with at least 13 bytes in the buffer |
| Device.WriteOffsetsSpec | UT330BUI/model/UT330.py:622-671 | Rejected offsets raise the first failed check's `ValueError` and leave the state as it was. Accepted offsets with a negative one are framed as the source frames them (`256 - t`), so on an assigned port `bytearray` raises `ValueError` and nothing is written. A success had no negative offset and wrote exactly the offsets frame |
| Device.RestoreFactorySpec | UT330BUI/model/UT330.py:675-688 | A successful reset sent exactly the reset command |
| Device.ReadDeviceNameSpec | UT330BUI/model/UT330.py:692-706 | Once the query is sent the read never fails; the name is at most ten characters and the index is 4 |
| Device.JoinedSteps | UT330BUI/model/UT330.py:376-379 | Appending one reading to `data` is the same as prepending it to the rest of the loop |
| Device.JoinedNothing | UT330BUI/model/UT330.py:356 | The loop starts from `data = []`: with nothing gathered, the loop's outcome is the whole outcome |
| Device.DownloadInOrder | UT330BUI/model/UT330.py:351-381 | The `k`th reading `read_data` returns is the source's decoding of the record at byte `12k` of the downloaded data |
| Device.HeaderAnnounces | UT330BUI/model/UT330.py:326-335 | A header whose bytes 4..7 carry `n` low byte first announces `n` |
| Device.ReplyOfHeader | UT330BUI/model/UT330.py:326-381 | A header announcing 12 bytes per reading of `rs` plus 2, then the records of `rs` and two CRC bytes, is a download reply for `rs` |
| Device.DownloadReplyExists | UT330BUI/model/UT330.py:326-381 | For any readings the record format can carry (fewer than 2^32 bytes of them), a download reply announcing them exists |
| Device.DownloadRoundTrip | UT330BUI/model/UT330.py:308-381 | When the logger answers with a header announcing two or more encoded readings, `read_data` returns `AsRead` of each, in order. It consumes exactly the header, the records and the CRC, and sends only the download command |
| Device.DownloadUnchanged | UT330BUI/model/UT330.py:308-381 | In that case `read_data` returns exactly the stored readings when, and only when, every pressure's two bytes agree |
| Device.HeaderConsumed | UT330BUI/model/UT330.py:318-326 | After the command and the header, the port has lost the first 8 incoming bytes and has sent the download command |
| Device.ReadDataOfLongHeader | UT330BUI/model/UT330.py:308-351 | A header announcing 22 bytes or more makes `read_data` the download of that many bytes from the port left after the header |
| Device.DownloadDataConsumes | UT330BUI/model/UT330.py:351 | The data read takes the announced bytes, or all that arrived, and writes nothing |
| Device.DownloadOfEncoded | UT330BUI/model/UT330.py:351-381 | Announced bytes holding encoded readings and the CRC download as `AsRead` of each reading |
| Device.DownloadWithoutData | UT330BUI/model/UT330.py:337-347 | A header announcing fewer than 22 bytes gives no readings; one 8-byte read and one 2-byte read are made |
| Device.AcceptedSettingsAreSent | UT330BUI/model/UT330.py:470-547 | Accepted, storable settings go out whole on an open port with room for them |
| Device.AcceptedOffsetsAreSent | UT330BUI/model/UT330.py:622-671 | With the corrected encoding every accepted offset goes out. As written, accepted offsets go out exactly when none is negative, and a negative one makes `bytearray` raise `ValueError` before anything is written |
| Device.UT330.constructor | UT330BUI/model/UT330.py:149-166 | No port, empty buffer, index 0, last operation at the earliest time |
| Device.UT330.Connect | UT330BUI/model/UT330.py:174-209 | Picks the port of the last entry with the logger's ids; raises when there is none, or when it is not open |
| Device.UT330.Disconnect | UT330BUI/model/UT330.py:299-304 | Closes the port if one was ever assigned |
| Device.UT330.WriteBuffer | UT330BUI/model/UT330.py:248-256 | The new port and the raised error are those of `SendFrame` |
| Device.UT330.ReadBuffer | UT330BUI/model/UT330.py:228-245 | The page loop leaves the port and buffer exactly as the paged read `ReadPages` describes |
| Device.UT330.PutCrc | UT330BUI/model/UT330.py:393 | `buffer[n+1], buffer[n] = modbusCRC(buffer[0:n])` leaves the body followed by its trailer |
| Device.UT330.Transact | UT330BUI/model/UT330.py:395-399 | Write then read, as `Exchange` |
| Device.UT330.SendAndCheck | UT330BUI/model/UT330.py:395-403 | Write, read seven bytes and compare, as `StatusExchange` |
| Device.UT330.ReadData | UT330BUI/model/UT330.py:307-381 | The download loop, with the pressure read from one byte as in the source, ends in the state and result `ReadDataSpec` gives; the last-operation time moves only on success |
| Device.UT330.DeleteData | UT330BUI/model/UT330.py:384-403 | As `DeleteDataSpec` |
| Device.UT330.ReadConfig | UT330BUI/model/UT330.py:406-466 | As `ReadConfigSpec` |
| Device.UT330.PutName | UT330BUI/model/UT330.py:505-506 | The name loop stores the ten name codes at bytes 4..13 and leaves the rest of the template as it was |
| Device.UT330.PutFields | UT330BUI/model/UT330.py:508-534 | The field assignments fill bytes 14..26 and nothing else |
| Device.UT330.BuildConfigFrame | UT330BUI/model/UT330.py:503-537 | The template becomes exactly the configuration frame |
| Device.UT330.WriteConfig | UT330BUI/model/UT330.py:469-547 | As `WriteConfigSpec` |
| Device.UT330.WriteDatetime | UT330BUI/model/UT330.py:550-575 | As `WriteDatetimeSpec` |
| Device.UT330.ReadOffsets | UT330BUI/model/UT330.py:578-618 | As `ReadOffsetsSpec` |
| Device.UT330.PutOffsets | UT330BUI/model/UT330.py:644-659 | Each offset byte is the offset in tenths, a negative one stored as `256 - t` as the source stores it (see Findings) |
| Device.UT330.WriteOffsets | UT330BUI/model/UT330.py:621-671 | As `WriteOffsetsSpec`, with the source's encoding of negative offsets |
| Device.UT330.RestoreFactory | UT330BUI/model/UT330.py:674-688 | As `RestoreFactorySpec` |
| Device.UT330.ReadDeviceName | UT330BUI/model/UT330.py:691-706 | As `ReadDeviceNameSpec` |
| Control.StatusErrorsOnOpenPort | UT330BUI/controller/controller.py:208-216 | On an open port a status command fails only with a `ValueError` (byte range or short write) or an `IOError` (timeout or wrong reply) |
| Control.ExchangeErrorsOnOpenPort | UT330BUI/controller/controller.py:185-193 | On an open port a query fails only by the write timeout or a short write |
| Control.ReadDataErrorsOnOpenPort | UT330BUI/controller/controller.py:162-171 | On an open port `read_data` fails only by the write timeout, a short write, or a decoding error |
| Control.ReadConfigErrorsOnOpenPort | UT330BUI/controller/controller.py:185-193 | On an open port `read_config` fails only by the write timeout, a short write, or a decoding error |
| Control.ReadOffsetsErrorsOnOpenPort | UT330BUI/controller/controller.py:230-238 | On an open port `read_offsets` fails only by the write timeout, a short write, or `IndexError` |
| Control.Controller.constructor | UT330BUI/controller/controller.py:32-43 | Not connected, nothing held, and a fresh driver |
| Control.Controller.Connect | UT330BUI/controller/controller.py:86-104 | Refused while connected, with the driver untouched. Otherwise connected exactly when the logger's port is found and open, with any `IOError` as the status. Keeps `Valid` |
| Control.Controller.Disconnect | UT330BUI/controller/controller.py:108-124 | Refused while disconnected. A refused close is reported and leaves the controller connected to the still-open port. Keeps `Valid` |
| Control.Controller.Erase | UT330BUI/controller/controller.py:128-144 | Refused while disconnected. Otherwise it erases as `DeleteDataSpec`; on success the held data is dropped; an `IOError` becomes the status; only the short-write `ValueError` escapes |
| Control.Controller.ReadData | UT330BUI/controller/controller.py:147-160 | Refused while disconnected; otherwise only reports that the download started |
| Control.Controller.ReadDataNextTick | UT330BUI/controller/controller.py:162-173 | Downloads as `ReadDataSpec` and keeps the readings, with the "no data" status for an empty list. The readings kept are those the source decodes: `AsRead` of the stored ones, by `DownloadRoundTrip`. An `IOError` becomes the status; while connected only a short write or a decoding error escapes |
| Control.Controller.ReadConfig | UT330BUI/controller/controller.py:176-195 | Refused while disconnected. Otherwise it reads as `ReadConfigSpec` and keeps the configuration; an `IOError` becomes the status; only a short write or a decoding error escapes |
| Control.Controller.WriteConfig | UT330BUI/controller/controller.py:198-218 | Refused while disconnected. Otherwise it writes the settings, then the timestamp only if that succeeded; either failure becomes the status, and nothing escapes |
| Control.Controller.ReadOffsets | UT330BUI/controller/controller.py:221-240 | Refused while disconnected. Otherwise it reads as `ReadOffsetsSpec` and keeps the offsets; an `IOError` becomes the status; only a short write or a decoding error escapes |
| Control.Controller.WriteOffsets | UT330BUI/controller/controller.py:243-261 | Refused while disconnected. Otherwise it writes as `WriteOffsetsSpec`; success reports the configuration message, a failure becomes the status, and nothing escapes. An accepted negative offset ends with the `ValueError` of `bytearray` as the status and the port untouched |

## Left out

- Port discovery (`serial.tools.list_ports.comports()`) is an input list of
  `PortInfo`. Opening a port at 115200 baud with 5 s timeouts is the `Port`
  value of the chosen entry. A port that fails to open is modelled as
  assigned but closed: `UT330.Connect` stores it and then raises. In the
  source, `serial.Serial(...)` raises before the port is assigned, so the
  previous port stays.
- The clock and `time.sleep` are not modelled as effects. `buffer_safety`'s
  pause is the function `Pause`, and each method takes the time it
  finishes as `now`.
- Floating point: temperatures, humidity, pressure and offsets are integers
  in tenths. The range checks of `write_offsets` (-6 to 6.1) are -60..61
  tenths. The truncation `int(offset*10)` of a value that is not a whole
  number of tenths is not modelled.
- The results of `read_data`, `read_config` and `read_offsets` are records
  rather than dictionaries. The source's `None` buffer is the empty list.
- The pyserial library itself is not part of this model. Its behaviour is
  reduced to `Read`, `Write` and `Close` on the `Port` value. A device that
  vanishes in the middle of a read is not modelled, so `_read_buffer` never
  raises. `UT330.ReadBuffer` requires an open port, which every caller has
  just written to.
- `__del__`, `__enter__` and `__exit__` are not modelled: they only call
  `connect` and `disconnect`.
- The `print` warnings of `read_data` are not modelled.
- Controller: status messages are labels, with `Failed(e)` for the text of a
  caught exception.
- Controller: the Bokeh document, the tabs and panels, `setup`, `update`
  and `display` are not modelled. The next-tick scheduling of `read_data_2`
  is not modelled; it is the separate method `ReadDataNextTick`.
- Controller: the "No config data" and "No offset data" branches are not
  modelled, because a configuration or offsets dictionary is never empty.
- The user interface views, the `UI` package and the test scripts are not
  part of this model.
- Three behaviours of the code are modelled as written:
  - `_get_name` uses `str.strip()`, which removes whitespace from both
    ends.
  - `write_config` overwrites the buffer with the zeroed template before
    its range checks, so a rejected configuration does change the buffer.
    `write_offsets` checks first.
  - No range check is made on alarm thresholds.
- `read_data` returns no readings when the header announces fewer than 22
  bytes. That covers a logger holding a single reading (12 bytes plus the
  CRC). This is modelled as written.

## Findings

The driver and the controller run the code as written. The corrected
definitions, `RecordAtCorrected` and `OffsetsFrame`, stand beside them with
their intended properties proved.

| source | as written | input that shows it | evidently intended | confidence | as-written member | corrected member |
|---|---|---|---|---|---|---|
| UT330BUI/model/UT330.py:371-372 | the pressure is `buffer[i+2] + 256*buffer[i+2]`: the low byte is read for both halves | a record whose pressure bytes are `00 01` (pressure 25.6) decodes as 0 | `buffer[i+2] + 256*buffer[i+3]` | high; not executed | Codec.PressureReadTwice | Codec.RecordAtEncoded |
| UT330BUI/model/UT330.py:646-659 | a negative offset is stored as `256 - int(offset*10)` | temperature offset -0.5 is stored as 261, and `bytearray` raises `ValueError` in `_write_buffer` | `256 + int(offset*10)`, the two's-complement byte `read_offsets` decodes | high; not executed | Codec.NegativeOffsetNotSent | Codec.OffsetsRoundTrip |
