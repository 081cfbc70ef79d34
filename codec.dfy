/**
 * The UT330 frame codec: the fixed commands and status replies, the frames
 * `write_config`, `write_datetime` and `write_offsets` build, and the
 * decoders of the configuration, offsets, device-name and data-download
 * replies. Every command has the form `AB CD len opcode payload crc_lo
 * crc_hi`; readings are integer tenths.
 */
module Codec {
  import opened Errors
  import opened Fields
  import opened Crc

  // ---------------------------------------------------------------------
  // Fixed commands and status replies
  // ---------------------------------------------------------------------

  const ReadDataCommand: seq<int> := [0xAB, 0xCD, 0x03, 0x19, 0x70, 0xC5]
  /** `delete_data` recomputes the last two bytes from the first four. */
  const DeleteDataCommand: seq<int> := [0xAB, 0xCD, 0x03, 0x18, 0xB1, 0x05]
  const ReadConfigCommand: seq<int> := [0xAB, 0xCD, 0x03, 0x11, 0x71, 0x03]
  const ReadOffsetsCommand: seq<int> := [0xAB, 0xCD, 0x03, 0x17, 0xF1, 0x01]
  const RestoreFactoryCommand: seq<int> := [0xAB, 0xCD, 0x03, 0x20, 0xB0, 0xD7]
  const ReadNameCommand: seq<int> := [0xAB, 0xCD, 0x03, 0x51, 0x70, 0xF3]

  /** The whole 7-byte reply each write, delete and reset must receive:
      `AB CD 04 opcode 00` and the CRC. */
  const DeleteDataOk: seq<int> := [0xAB, 0xCD, 0x04, 0x18, 0x00, 0x74, 0xB5]
  const WriteConfigOk: seq<int> := [0xAB, 0xCD, 0x04, 0x10, 0x00, 0x73, 0x75]
  const WriteDatetimeOk: seq<int> := [0xAB, 0xCD, 0x04, 0x12, 0x00, 0x72, 0x15]
  const WriteOffsetsOk: seq<int> := [0xAB, 0xCD, 0x04, 0x16, 0x00, 0x70, 0xD5]
  const RestoreFactoryOk: seq<int> := [0xAB, 0xCD, 0x04, 0x20, 0x00, 0x67, 0x75]

  /** The registers after the sync bytes and the length byte of a request
      (`03`) and of a status reply (`04`). */
  lemma FrameStarts()
    ensures Register([0xAB, 0xCD, 0x03]) == 0xB114
    ensures Register([0xAB, 0xCD, 0x04]) == 0x7355
  {
    RegisterStep([], 0xAB, 0xFFFF, 0xFFFE);
    RegisterStep([0xAB], 0xCD, 0xFFFE, 0x15BF);
    RegisterStep([0xAB, 0xCD], 0x03, 0x15BF, 0xB114);
    RegisterStep([0xAB, 0xCD], 0x04, 0x15BF, 0x7355);
  }

  /** A six-byte request `AB CD 03 op lo hi` whose trailer is the CRC. */
  lemma RequestCrc(op: int, lo: int, hi: int)
    requires 0 <= op < 256 && 0 <= lo < 256 && 0 <= hi < 256
    requires BitwiseStep(0xB114, op as bv16) as int == lo + 256 * hi
    ensures CrcTrailerOk([0xAB, 0xCD, 0x03, op, lo, hi])
  {
    FrameStarts();
    RegisterStep([0xAB, 0xCD, 0x03], op, 0xB114, BitwiseStep(0xB114, op as bv16));
    assert [0xAB, 0xCD, 0x03, op, lo, hi][..4] == [0xAB, 0xCD, 0x03] + [op];
  }

  /** A seven-byte status reply `AB CD 04 op 00 lo hi` whose trailer is the CRC. */
  lemma ReplyCrc(op: int, mid: bv16, lo: int, hi: int)
    requires 0 <= op < 256 && 0 <= lo < 256 && 0 <= hi < 256
    requires BitwiseStep(0x7355, op as bv16) == mid && BitwiseStep(mid, 0) as int == lo + 256 * hi
    ensures CrcTrailerOk([0xAB, 0xCD, 0x04, op, 0x00, lo, hi])
  {
    FrameStarts();
    var head := [0xAB, 0xCD, 0x04, op];
    assert head == [0xAB, 0xCD, 0x04] + [op];
    RegisterStep([0xAB, 0xCD, 0x04], op, 0x7355, mid);
    RegisterStep(head, 0x00, mid, BitwiseStep(mid, 0));
    assert [0xAB, 0xCD, 0x04, op, 0x00, lo, hi][..5] == head + [0x00];
  }

  // The constants agree with `modbusCRC`: every fixed command the driver
  // sends and every status reply it expects ends with the Modbus CRC of the
  // bytes before it, low byte first. One frame per lemma keeps each proof
  // small.

  lemma ReadDataCommandCarriesCrc()
    ensures CrcTrailerOk(ReadDataCommand)
  {
    RequestCrc(0x19, 0x70, 0xC5);
  }

  lemma DeleteDataCommandCarriesCrc()
    ensures CrcTrailerOk(DeleteDataCommand)
  {
    RequestCrc(0x18, 0xB1, 0x05);
  }

  lemma ReadConfigCommandCarriesCrc()
    ensures CrcTrailerOk(ReadConfigCommand)
  {
    RequestCrc(0x11, 0x71, 0x03);
  }

  lemma ReadOffsetsCommandCarriesCrc()
    ensures CrcTrailerOk(ReadOffsetsCommand)
  {
    RequestCrc(0x17, 0xF1, 0x01);
  }

  lemma RestoreFactoryCommandCarriesCrc()
    ensures CrcTrailerOk(RestoreFactoryCommand)
  {
    RequestCrc(0x20, 0xB0, 0xD7);
  }

  lemma ReadNameCommandCarriesCrc()
    ensures CrcTrailerOk(ReadNameCommand)
  {
    RequestCrc(0x51, 0x70, 0xF3);
  }

  lemma DeleteDataTrailer()
    ensures DeleteDataCommand[..4] + Trailer(DeleteDataCommand[..4]) == DeleteDataCommand
  {
    DeleteDataCommandCarriesCrc();
    TrailerOfFrame(DeleteDataCommand);
  }

  lemma DeleteDataOkCarriesCrc()
    ensures CrcTrailerOk(DeleteDataOk)
  {
    ReplyCrc(0x18, 0x35B3, 0x74, 0xB5);
  }

  lemma WriteConfigOkCarriesCrc()
    ensures CrcTrailerOk(WriteConfigOk)
  {
    ReplyCrc(0x10, 0xF3B2, 0x73, 0x75);
  }

  lemma WriteDatetimeOkCarriesCrc()
    ensures CrcTrailerOk(WriteDatetimeOk)
  {
    ReplyCrc(0x12, 0x3233, 0x72, 0x15);
  }

  lemma WriteOffsetsOkCarriesCrc()
    ensures CrcTrailerOk(WriteOffsetsOk)
  {
    ReplyCrc(0x16, 0xF132, 0x70, 0xD5);
  }

  lemma RestoreFactoryOkCarriesCrc()
    ensures CrcTrailerOk(RestoreFactoryOk)
  {
    ReplyCrc(0x20, 0xE7B2, 0x67, 0x75);
  }

  /** The status check of every write, delete and reset: the reply must be
      exactly the expected seven bytes. */
  function CheckReply(reply: seq<byte>, expected: seq<int>, command: Command): (r: Result<()>)
    ensures r.Ok? <==> reply == expected
    ensures r.Err? ==> r.error == IOError(BadReply(command))
  {
    if reply == expected then Ok(()) else Err(IOError(BadReply(command)))
  }

  // ---------------------------------------------------------------------
  // Configuration
  // ---------------------------------------------------------------------

  /** What `read_config` returns. Bytes 15..19 and 33 of the reply are not
      interpreted. */
  datatype Config = Config(
    name: string,
    samplingInterval: int,   // seconds
    readingsCount: int,
    readingsLimit: int,
    batteryPower: int,
    overwriteRecords: bool,
    delayStart: bool,
    delayTiming: int,        // seconds
    highTemperatureAlarm: int,
    lowTemperatureAlarm: int,
    highHumidityAlarm: int,
    lowHumidityAlarm: int,
    timestamp: DateTime)

  /** The keys of `config` that `write_config` reads, and the `timestamp`
      the controller passes on to `write_datetime`. */
  datatype Settings = Settings(
    name: string,
    samplingInterval: int,
    overwriteRecords: bool,
    delayStart: bool,
    delayTiming: int,
    highTemperatureAlarm: int,
    lowTemperatureAlarm: int,
    highHumidityAlarm: int,
    lowHumidityAlarm: int,
    timestamp: DateTime)

  /** The 46-byte reply of `read_config`, decoded. A reply too short for a
      field raises `IndexError`; `_get_name` slices and never raises. */
  function DecodeConfig(buf: seq<byte>): (r: Result<Config>)
    ensures |buf| < 38 ==> r == Err(IndexError)
    ensures |buf| >= 38 ==> (r.Ok? <==> GetDateTime(buf, 38).Ok?)
    ensures |buf| >= 38 && r.Err? ==> r.error == GetDateTime(buf, 38).error
    ensures r.Ok? ==>
      |r.value.name| <= 10 &&
      0 <= r.value.samplingInterval < 0x100_0000 && 0 <= r.value.delayTiming < 0x100_0000 &&
      -128 <= r.value.highTemperatureAlarm < 128 && -128 <= r.value.lowTemperatureAlarm < 128 &&
      r.value.timestamp == GetDateTime(buf, 38).value
  {
    if |buf| < 38 then Err(IndexError)
    else match GetDateTime(buf, 38)
      case Err(e) => Err(e)
      case Ok(ts) =>
        Ok(Config(
          GetName(buf, 4),
          Le24(buf[20], buf[21], buf[22]),
          Le16(buf[23], buf[24]),
          Le16(buf[25], buf[26]),
          buf[27],
          buf[28] != 0,
          buf[29] != 0,
          Le24(buf[30], buf[31], buf[32]),
          DecodeSigned(buf[34]),
          DecodeSigned(buf[35]),
          buf[36],
          buf[37],
          ts))
  }

  /** `_index` after `read_config` decoded `buf`: 4 while the fields are
      read, 38 once the timestamp is reached. */
  function ConfigIndex(buf: seq<byte>): int {
    if |buf| < 38 then 4 else 38
  }

  /** The range checks `write_config` makes before it builds the frame, in
      the order it makes them. */
  function CheckSettings(s: Settings): (v: Option<ValueKind>)
    ensures v.None? <==>
      1 <= |s.name| <= 10 && 0 <= s.samplingInterval <= 86400 && 0 <= s.delayTiming <= 604800
    ensures |s.name| > 10 ==> v == Some(NameTooLong)
    ensures |s.name| == 0 ==> v == Some(NameEmpty)
    ensures 1 <= |s.name| <= 10 && !(0 <= s.samplingInterval <= 86400) ==> v == Some(SamplingInterval)
    ensures 1 <= |s.name| <= 10 && 0 <= s.samplingInterval <= 86400 && !(0 <= s.delayTiming <= 604800) ==>
      v == Some(DelayTiming)
  {
    if |s.name| > 10 then Some(NameTooLong)
    else if |s.name| == 0 then Some(NameEmpty)
    else if s.samplingInterval < 0 || s.samplingInterval > 86400 then Some(SamplingInterval)
    else if s.delayTiming < 0 || s.delayTiming > 604800 then Some(DelayTiming)
    else None
  }

  /** `int(flag)`. */
  function BoolByte(flag: bool): (b: byte)
    ensures (b != 0) == flag
  {
    if flag then 1 else 0
  }

  /** The buffer `write_config` starts from. */
  const ConfigTemplate: seq<int> :=
    [0xAB, 0xCD, 0x1A, 0x10, 0, 0, 0, 0, 0, 0, 0, 0, 0, 0,
     0, 0, 0, 0, 0, 0, 0, 0, 0, 0, 0, 0, 0, 0, 0]

  /** Bytes 0..26 of the `write_config` frame: the name right-justified in
      4..13, the sampling interval at 14..16, the two flags at 17 and 18,
      the delay timing at 19..21, a zero at 22, the alarms at 23..26. */
  function ConfigBody(s: Settings): (b: seq<int>)
    ensures |b| == 27
  {
    [0xAB, 0xCD, 0x1A, 0x10] + NameCodes(s.name) + ConfigFields(s)
  }

  /** Bytes 14..26 of the `write_config` frame: everything after the name. */
  function ConfigFields(s: Settings): (b: seq<int>)
    ensures |b| == 13
  {
    SplitLe24(s.samplingInterval) +
    [BoolByte(s.overwriteRecords), BoolByte(s.delayStart)] + SplitLe24(s.delayTiming) +
    [0, EncodeSigned(s.highTemperatureAlarm), EncodeSigned(s.lowTemperatureAlarm),
     s.highHumidityAlarm, s.lowHumidityAlarm]
  }

  /** The 29-byte `write_config` frame: the body and its CRC. */
  function ConfigFrame(s: Settings): (f: seq<int>)
    ensures |f| == 29 && f[..4] == [0xAB, 0xCD, 0x1A, 0x10] && f[22] == 0
    ensures CrcTrailerOk(f)
  {
    ConfigBody(s) + Trailer(ConfigBody(s))
  }

  /** Settings the logger can store and give back unchanged: a name of at
      most ten Latin-1 characters without whitespace at either end, signed
      byte temperature alarms and byte humidity alarms. */
  predicate Storable(s: Settings) {
    StorableName(s.name) &&
    -128 <= s.highTemperatureAlarm < 128 && -128 <= s.lowTemperatureAlarm < 128 &&
    IsByte(s.highHumidityAlarm) && IsByte(s.lowHumidityAlarm)
  }

  /** A `read_config` reply of a logger that stored the fields of `frame`:
      the name, interval, flags, delay and alarms of the write frame appear
      at their read offsets. */
  predicate HoldsConfig(reply: seq<byte>, frame: seq<int>)
    requires |frame| == 29
  {
    |reply| == 46 &&
    reply[4..14] == frame[4..14] && reply[20..23] == frame[14..17] &&
    reply[28] == frame[17] && reply[29] == frame[18] && reply[30..33] == frame[19..22] &&
    reply[34] == frame[23] && reply[35] == frame[24] && reply[36] == frame[25] && reply[37] == frame[26]
  }

  /** Every setting `write_config` accepts and the logger can store is
      framed as bytes, so `bytearray` does not raise on it. */
  lemma ConfigFrameIsBytes(s: Settings)
    requires CheckSettings(s).None? && Storable(s)
    ensures AllBytes(ConfigFrame(s))
  {
    var f := ConfigFrame(s);
    var name := NameCodes(s.name);
    assert f[4..14] == name;
    CharsOfCodes(PaddedName(s.name));
    assert f == [0xAB, 0xCD, 0x1A, 0x10] + name + f[14..29];
  }

  /** Write then read: `read_config` decodes the fields the logger stored
      from a `write_config` frame back to the settings that built it. */
  lemma ConfigRoundTrip(s: Settings, reply: seq<byte>)
    requires CheckSettings(s).None? && Storable(s)
    requires HoldsConfig(reply, ConfigFrame(s)) && GetDateTime(reply, 38).Ok?
    ensures var r := DecodeConfig(reply);
      r.Ok? && r.value.name == s.name && r.value.samplingInterval == s.samplingInterval &&
      r.value.overwriteRecords == s.overwriteRecords && r.value.delayStart == s.delayStart &&
      r.value.delayTiming == s.delayTiming &&
      r.value.highTemperatureAlarm == s.highTemperatureAlarm &&
      r.value.lowTemperatureAlarm == s.lowTemperatureAlarm &&
      r.value.highHumidityAlarm == s.highHumidityAlarm && r.value.lowHumidityAlarm == s.lowHumidityAlarm
  {
    var f := ConfigFrame(s);
    var name := NameCodes(s.name);
    var interval := SplitLe24(s.samplingInterval);
    var delay := SplitLe24(s.delayTiming);
    assert f[4..14] == name;
    assert f[14..17] == interval;
    assert f[19..22] == delay;
    NameRoundTrip(s.name, reply, 4);
    SplitThenLe24(s.samplingInterval);
    SplitThenLe24(s.delayTiming);
    assert reply[20] == interval[0] && reply[21] == interval[1] && reply[22] == interval[2];
    assert reply[30] == delay[0] && reply[31] == delay[1] && reply[32] == delay[2];
  }

  // ---------------------------------------------------------------------
  // Date and time
  // ---------------------------------------------------------------------

  /** The 12-byte `write_datetime` frame: the six fields at 4..9 and the CRC
      of bytes 0..9 at 10 (low) and 11 (high). */
  function DatetimeFrame(ts: DateTime): (f: seq<int>)
    ensures |f| == 12 && f[..4] == [0xAB, 0xCD, 0x09, 0x12] && f[4..10] == DateTimeBytes(ts)
    ensures CrcTrailerOk(f)
  {
    var body := [0xAB, 0xCD, 0x09, 0x12] + DateTimeBytes(ts);
    body + Trailer(body)
  }

  /** A byte list as the element type the port returns. */
  function Bytes(s: seq<int>): (b: seq<byte>)
    requires AllBytes(s)
    ensures b == s
  {
    seq(|s|, k requires 0 <= k < |s| => s[k])
  }

  /** A timestamp of the years 2000..2255 goes out as bytes, and
      `_get_datetime` at index 4 of the frame gives it back. */
  lemma DatetimeRoundTrip(ts: DateTime)
    requires ValidDateTime(ts) && 2000 <= ts.year <= 2255
    ensures AllBytes(DatetimeFrame(ts))
    ensures GetDateTime(Bytes(DatetimeFrame(ts)), 4) == Ok(ts)
  {
    var f := DatetimeFrame(ts);
    assert f == f[..4] + f[4..10] + f[10..];
    DateTimeRoundTrip(ts, Bytes(f), 4);
  }

  // ---------------------------------------------------------------------
  // Offsets
  // ---------------------------------------------------------------------

  /** What `read_offsets` returns, in tenths. Bytes 13..15 of the reply are
      not interpreted. */
  datatype Offsets = Offsets(
    temperature: int, temperatureOffset: int,
    humidity: int, humidityOffset: int,
    pressure: int, pressureOffset: int)

  /** The three offsets `write_offsets` reads from its argument, in tenths. */
  datatype OffsetSettings = OffsetSettings(temperatureOffset: int, humidityOffset: int, pressureOffset: int)

  /** The 18-byte reply of `read_offsets`, decoded: the current temperature
      at 4..5, and each offset a signed byte after its reading. */
  function DecodeOffsets(buf: seq<byte>): (r: Result<Offsets>)
    ensures r.Ok? <==> |buf| >= 13
    ensures r.Err? ==> r.error == IndexError
    ensures r.Ok? ==>
      -32768 <= r.value.temperature < 32768 &&
      0 <= r.value.humidity < 0x1_0000 && 0 <= r.value.pressure < 0x1_0000 &&
      -128 <= r.value.temperatureOffset < 128 && -128 <= r.value.humidityOffset < 128 &&
      -128 <= r.value.pressureOffset < 128
    ensures r.Ok? ==>
      r.value.temperatureOffset % 256 == buf[6] && r.value.humidityOffset % 256 == buf[9] &&
      r.value.pressureOffset % 256 == buf[12]
  {
    if |buf| < 13 then Err(IndexError)
    else Ok(Offsets(
      Temperature(buf[4], buf[5]), DecodeSigned(buf[6]),
      Le16(buf[7], buf[8]), DecodeSigned(buf[9]),
      Le16(buf[10], buf[11]), DecodeSigned(buf[12])))
  }

  /** An offset `write_offsets` accepts: from -6.0 to 6.1, in tenths. */
  predicate OffsetInRange(t: int) {
    -60 <= t <= 61
  }

  /** The range checks of `write_offsets`, in its order. */
  function CheckOffsets(o: OffsetSettings): (v: Option<ValueKind>)
    ensures v.None? <==>
      OffsetInRange(o.temperatureOffset) && OffsetInRange(o.humidityOffset) && OffsetInRange(o.pressureOffset)
    ensures !OffsetInRange(o.temperatureOffset) ==> v == Some(TemperatureOffset)
    ensures OffsetInRange(o.temperatureOffset) && !OffsetInRange(o.humidityOffset) ==> v == Some(HumidityOffset)
    ensures OffsetInRange(o.temperatureOffset) && OffsetInRange(o.humidityOffset) && !OffsetInRange(o.pressureOffset) ==>
      v == Some(PressureOffset)
  {
    if !OffsetInRange(o.temperatureOffset) then Some(TemperatureOffset)
    else if !OffsetInRange(o.humidityOffset) then Some(HumidityOffset)
    else if !OffsetInRange(o.pressureOffset) then Some(PressureOffset)
    else None
  }

  /** The 9-byte `write_offsets` frame: the three offsets as signed bytes at
      4..6 and the CRC of bytes 0..6 at 7 (low) and 8 (high). */
  function OffsetsFrame(o: OffsetSettings): (f: seq<int>)
    ensures |f| == 9 && CrcTrailerOk(f)
  {
    var body := [0xAB, 0xCD, 0x06, 0x16, EncodeSigned(o.temperatureOffset),
                 EncodeSigned(o.humidityOffset), EncodeSigned(o.pressureOffset)];
    body + Trailer(body)
  }

  /** A byte as the source writes a negative offset, `256 - int(10*o)`. */
  function OffsetByteAsWritten(t: int): int {
    if t < 0 then 256 - t else t
  }

  /** The `write_offsets` frame as the source builds it. */
  function OffsetsFrameAsWritten(o: OffsetSettings): (f: seq<int>)
    ensures |f| == 9
  {
    var body := [0xAB, 0xCD, 0x06, 0x16, OffsetByteAsWritten(o.temperatureOffset),
                 OffsetByteAsWritten(o.humidityOffset), OffsetByteAsWritten(o.pressureOffset)];
    body + Trailer(body)
  }

  /** As written, every accepted negative offset is encoded above 255, so
      `bytearray` refuses the frame and nothing is sent. */
  lemma NegativeOffsetNotSent(o: OffsetSettings)
    requires CheckOffsets(o).None?
    requires o.temperatureOffset < 0 || o.humidityOffset < 0 || o.pressureOffset < 0
    ensures !AllBytes(OffsetsFrameAsWritten(o))
    ensures AllBytes(OffsetsFrame(o))
  {
    var f := OffsetsFrameAsWritten(o);
    assert !IsByte(f[4]) || !IsByte(f[5]) || !IsByte(f[6]);
  }

  /** No offset is negative: the only offsets the source's encoding sends. */
  predicate NoNegativeOffset(o: OffsetSettings) {
    o.temperatureOffset >= 0 && o.humidityOffset >= 0 && o.pressureOffset >= 0
  }

  /** Without a negative offset the source's frame is the corrected frame,
      so it is all bytes and reads back unchanged. */
  lemma AsWrittenOffsetsFrame(o: OffsetSettings)
    requires NoNegativeOffset(o)
    ensures OffsetsFrameAsWritten(o) == OffsetsFrame(o)
  {
  }

  /** A `read_offsets` reply of a logger that stored the offsets of `frame`. */
  predicate HoldsOffsets(reply: seq<byte>, frame: seq<int>)
    requires |frame| == 9
  {
    |reply| == 18 && reply[6] == frame[4] && reply[9] == frame[5] && reply[12] == frame[6]
  }

  /** Write then read, with the corrected encoding: every accepted offset
      goes out as a byte and `read_offsets` decodes it back. */
  lemma OffsetsRoundTrip(o: OffsetSettings, reply: seq<byte>)
    requires CheckOffsets(o).None?
    requires HoldsOffsets(reply, OffsetsFrame(o))
    ensures AllBytes(OffsetsFrame(o))
    ensures var r := DecodeOffsets(reply);
      r.Ok? && r.value.temperatureOffset == o.temperatureOffset &&
      r.value.humidityOffset == o.humidityOffset && r.value.pressureOffset == o.pressureOffset
  {
  }

  // ---------------------------------------------------------------------
  // Data download
  // ---------------------------------------------------------------------

  /** One stored reading, in tenths. */
  datatype Reading = Reading(timestamp: DateTime, temperature: int, humidity: int, pressure: int)

  /** The byte count in the 8-byte header of the download reply. */
  function DataLength(header: seq<byte>): (n: int)
    requires |header| >= 8
    ensures 0 <= n < 0x1_0000_0000
  {
    Le32(header[4], header[5], header[6], header[7])
  }

  /** What decoding a reply raises: a field past the end of the reply, or
      a date `datetime` refuses. */
  predicate DecodeError(e: Error) {
    e == IndexError || e == ValueError(BadDateTime)
  }

  /** The outcome of decoding the record at one index: the reading, or the
      exception and the value `_index` had when it was raised. */
  datatype Step = Next(reading: Reading) | Stop(error: Error, index: int)

  /** The pressure as the source computes it from its two bytes: the low
      byte is read for both halves. */
  function PressureAsWritten(lo: byte, hi: byte): int {
    lo + 256 * lo
  }

  /** The record at `i` as `read_data` decodes it: timestamp at `i`,
      temperature at `i+6` and humidity at `i+8`, each little-endian, and
      the pressure from byte `i+10`, which the source reads for both halves.
      Eleven bytes are enough. */
  function RecordAt(buf: seq<byte>, i: nat): (s: Step)
    ensures s.Next? <==> i + 11 <= |buf| && GetDateTime(buf, i).Ok?
    ensures s.Stop? ==> DecodeError(s.error)
    ensures s.Next? ==> s.reading.pressure == 257 * (buf[i + 10] as int)
  {
    match GetDateTime(buf, i)
    case Err(e) => Stop(e, i)
    case Ok(ts) =>
      if i + 8 > |buf| then Stop(IndexError, i + 6)
      else if i + 11 > |buf| then Stop(IndexError, i + 8)
      else Next(Reading(ts, Temperature(buf[i + 6], buf[i + 7]), Le16(buf[i + 8], buf[i + 9]),
                        PressureAsWritten(buf[i + 10], buf[i + 10])))
  }

  /** The record at `i` as evidently intended: the pressure is the
      little-endian word at `i+10`, so a record takes twelve bytes. */
  function RecordAtCorrected(buf: seq<byte>, i: nat): (s: Step)
    ensures s.Next? <==> i + 12 <= |buf| && GetDateTime(buf, i).Ok?
    ensures s.Stop? ==> DecodeError(s.error)
  {
    match GetDateTime(buf, i)
    case Err(e) => Stop(e, i)
    case Ok(ts) =>
      if i + 8 > |buf| then Stop(IndexError, i + 6)
      else if i + 12 > |buf| then Stop(IndexError, i + 8)
      else Next(Reading(ts, Temperature(buf[i + 6], buf[i + 7]), Le16(buf[i + 8], buf[i + 9]),
                        Le16(buf[i + 10], buf[i + 11])))
  }

  /** Where twelve bytes are there, the two decoders agree on everything
      but the pressure: both decode or both raise the same error. */
  lemma RecordDecodersAgree(buf: seq<byte>, i: nat)
    requires i + 12 <= |buf|
    ensures RecordAt(buf, i).Next? <==> RecordAtCorrected(buf, i).Next?
    ensures RecordAt(buf, i).Stop? ==> RecordAt(buf, i) == RecordAtCorrected(buf, i)
    ensures RecordAt(buf, i).Next? ==>
      RecordAtCorrected(buf, i) == Next(RecordAt(buf, i).reading.(pressure := Le16(buf[i + 10], buf[i + 11])))
  {
  }

  /** A reading the 12-byte record format can carry. */
  predicate Recordable(r: Reading) {
    ValidDateTime(r.timestamp) && 2000 <= r.timestamp.year <= 2255 &&
    -32768 <= r.temperature < 32768 && 0 <= r.humidity < 0x1_0000 && 0 <= r.pressure < 0x1_0000
  }

  /** The 12 bytes the logger stores for one reading. */
  function EncodeReading(r: Reading): (b: seq<int>)
    requires Recordable(r)
    ensures |b| == 12 && AllBytes(b)
  {
    DateTimeBytes(r.timestamp) + TemperatureWord(r.temperature) +
    [r.humidity % 256, r.humidity / 256, r.pressure % 256, r.pressure / 256]
  }

  /** What `read_data` reports for a stored reading: the same timestamp,
      temperature and humidity, and 257 times the low byte of the pressure.
      It is the stored reading exactly when both pressure bytes agree. */
  function AsRead(r: Reading): (a: Reading)
    requires Recordable(r)
    ensures a.timestamp == r.timestamp && a.temperature == r.temperature && a.humidity == r.humidity
    ensures a == r <==> r.pressure % 256 == r.pressure / 256
  {
    r.(pressure := 257 * (r.pressure % 256))
  }

  /** `AsRead` of every reading, in order. */
  function AsReadAll(rs: seq<Reading>): (a: seq<Reading>)
    requires forall k :: 0 <= k < |rs| ==> Recordable(rs[k])
    ensures |a| == |rs| && forall k :: 0 <= k < |rs| ==> a[k] == AsRead(rs[k])
  {
    if rs == [] then [] else [AsRead(rs[0])] + AsReadAll(rs[1..])
  }

  /** `read_data` reports a list of stored readings unchanged exactly when
      each pressure's two bytes agree. */
  lemma AsReadAllUnchanged(rs: seq<Reading>)
    requires forall k :: 0 <= k < |rs| ==> Recordable(rs[k])
    ensures AsReadAll(rs) == rs <==> forall k :: 0 <= k < |rs| ==> rs[k].pressure % 256 == rs[k].pressure / 256
  {
    if AsReadAll(rs) == rs {
      forall k | 0 <= k < |rs|
        ensures rs[k].pressure % 256 == rs[k].pressure / 256
      {
        assert AsRead(rs[k]) == rs[k];
      }
    }
  }

  /** The corrected decoder reads back every record the format can carry. */
  lemma RecordAtEncoded(r: Reading, buf: seq<byte>, i: nat)
    requires Recordable(r) && i + 12 <= |buf| && buf[i..i + 12] == EncodeReading(r)
    ensures RecordAtCorrected(buf, i) == Next(r)
  {
    var e := EncodeReading(r);
    assert buf[i..i + 6] == e[..6] == DateTimeBytes(r.timestamp);
    DateTimeRoundTrip(r.timestamp, buf, i);
    var w := TemperatureWord(r.temperature);
    assert buf[i + 6] == e[6] == w[0] && buf[i + 7] == e[7] == w[1];
    assert buf[i + 8] == r.humidity % 256 && buf[i + 9] == r.humidity / 256;
    assert buf[i + 10] == r.pressure % 256 && buf[i + 11] == r.pressure / 256;
  }

  /** The source's decoder reads a stored reading as `AsRead` of it. */
  lemma RecordAtOfEncoded(r: Reading, buf: seq<byte>, i: nat)
    requires Recordable(r) && i + 12 <= |buf| && buf[i..i + 12] == EncodeReading(r)
    ensures RecordAt(buf, i) == Next(AsRead(r))
  {
    RecordAtEncoded(r, buf, i);
    assert buf[i + 10] == EncodeReading(r)[10];
  }

  /** The source's decoder misreads every record whose pressure has a high
      byte different from its low byte, e.g. 25.6 Pa (bytes 00 01) reads
      as 0. */
  lemma PressureReadTwice(r: Reading, buf: seq<byte>, i: nat)
    requires Recordable(r) && i + 12 <= |buf| && buf[i..i + 12] == EncodeReading(r)
    requires r.pressure % 256 != r.pressure / 256
    ensures RecordAt(buf, i).Next?
    ensures RecordAt(buf, i).reading.pressure == 257 * (r.pressure % 256) != r.pressure
  {
    RecordAtOfEncoded(r, buf, i);
  }

  /** The bytes of several readings, in order. */
  function EncodeReadings(rs: seq<Reading>): (b: seq<int>)
    requires forall k :: 0 <= k < |rs| ==> Recordable(rs[k])
    ensures |b| == 12 * |rs| && AllBytes(b)
  {
    if rs == [] then [] else EncodeReading(rs[0]) + EncodeReadings(rs[1..])
  }

  /** What the loop of `read_data` produces from index `i` on: the readings
      (or the exception) and the final value of `_index`. */
  datatype Decoded = Decoded(result: Result<seq<Reading>>, index: int)

  /** The loop of `read_data`: one record, decoded as the source decodes
      it, per 12-byte step while the index is below `length - 2`. */
  function Records(buf: seq<byte>, length: int, i: nat): (d: Decoded)
    ensures d.result.Err? ==> DecodeError(d.result.error)
    decreases length - i
  {
    if i >= length - 2 then Decoded(Ok([]), i)
    else match RecordAt(buf, i)
      case Stop(e, at) => Decoded(Err(e), at)
      case Next(r) =>
        var rest := Records(buf, length, i + 12);
        Decoded(Prepend([r], rest.result), rest.index)
  }

  /** `ceil(n / 12)` for positive `n`, and 0 otherwise. */
  function StepsFor(n: int): nat {
    if n <= 0 then 0 else (n + 11) / 12
  }

  /** A completed loop emits one record per 12-byte step below
      `length - 2`, ceil((length - 2 - i) / 12) of them, and stops at the
      first index that is not below `length - 2`. */
  lemma {:induction false} RecordsCount(buf: seq<byte>, length: int, i: nat)
    ensures var d := Records(buf, length, i);
      d.result.Ok? ==>
        |d.result.value| == StepsFor(length - 2 - i) && d.index == i + 12 * |d.result.value|
    decreases length - i
  {
    if i < length - 2 && RecordAt(buf, i).Next? {
      RecordsCount(buf, length, i + 12);
    }
  }

  /** Records come out in buffer order: the `j`th is the record at
      `i + 12*j`. */
  lemma {:induction false} RecordsInOrder(buf: seq<byte>, length: int, i: nat, j: nat)
    requires Records(buf, length, i).result.Ok? && j < |Records(buf, length, i).result.value|
    ensures RecordAt(buf, i + 12 * j) == Next(Records(buf, length, i).result.value[j])
    decreases j
  {
    var rest := Records(buf, length, i + 12);
    if j > 0 {
      RecordsInOrder(buf, length, i + 12, j - 1);
    }
  }

  /** Decoding the bytes of `rs` followed by the two CRC bytes gives
      `AsRead` of each reading of `rs`, in order, and the loop ends at the
      CRC. */
  lemma {:induction false} RecordsOfEncoded(rs: seq<Reading>, buf: seq<byte>, i: nat)
    requires forall k :: 0 <= k < |rs| ==> Recordable(rs[k])
    requires i + 12 * |rs| + 2 == |buf| && buf[i..i + 12 * |rs|] == EncodeReadings(rs)
    ensures Records(buf, |buf|, i) == Decoded(Ok(AsReadAll(rs)), i + 12 * |rs|)
    decreases |rs|
  {
    if rs != [] {
      var e := EncodeReadings(rs);
      assert e[..12] == EncodeReading(rs[0]);
      assert buf[i..i + 12] == e[..12];
      RecordAtOfEncoded(rs[0], buf, i);
      assert buf[i + 12..i + 12 * |rs|] == e[12..] == EncodeReadings(rs[1..]);
      RecordsOfEncoded(rs[1..], buf, i + 12);
    }
  }
}
