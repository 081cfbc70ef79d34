/**
 * The `UT330` driver object. Its fields are:
 * - the serial port;
 * - the byte buffer every command is built in and every reply is read into;
 * - the decode index into that buffer;
 * - the time the last operation finished.
 *
 * Each public operation is a method that updates these fields step by step,
 * as the driver does. Next to each method is the function that says what the
 * operation computes from the state it starts in.
 */
module Device {
  import opened Errors
  import opened Fields
  import opened Crc
  import opened Transport
  import opened Codec

  // ---------------------------------------------------------------------
  // Finding the logger
  // ---------------------------------------------------------------------

  /** One entry of the serial port list: the USB ids, and the port that
      `serial.Serial` opens on that entry. */
  datatype PortInfo = PortInfo(vid: int, pid: int, port: Port)

  /** The USB vendor and product ids of the logger's serial bridge. */
  const LoggerVid: int := 4292
  const LoggerPid: int := 60000

  predicate IsLogger(info: PortInfo) {
    info.vid == LoggerVid && info.pid == LoggerPid
  }

  /** The position of the last entry that has the logger's ids, or -1 when
      no entry has them. */
  function LastLoggerAt(ports: seq<PortInfo>): (k: int)
    ensures -1 <= k < |ports|
    ensures k >= 0 ==> IsLogger(ports[k])
    ensures forall j :: k < j < |ports| ==> !IsLogger(ports[j])
  {
    if ports == [] then -1
    else if IsLogger(ports[|ports| - 1]) then |ports| - 1
    else LastLoggerAt(ports[..|ports| - 1])
  }

  /** The port `connect` settles on: the one of the last entry that has the
      logger's ids. */
  function LastLogger(ports: seq<PortInfo>): Option<Port> {
    var k := LastLoggerAt(ports);
    if k < 0 then None else Some(ports[k].port)
  }

  // ---------------------------------------------------------------------
  // The pause between operations
  // ---------------------------------------------------------------------

  /** `datetime.timedelta(0, 0, 10000)`, in microseconds. */
  const QuietTime: int := 10000

  /** How long `buffer_safety` sleeps before an operation that starts at
      `start`, when the previous one finished at `last` (both in
      microseconds). */
  function Pause(start: int, last: int): (micros: int)
    ensures micros == 0 || micros == QuietTime
    ensures micros == 0 <==> start - last >= QuietTime
    ensures last <= start ==> start + micros - last >= QuietTime
  {
    if start - last < QuietTime then QuietTime else 0
  }

  // ---------------------------------------------------------------------
  // The driver state and its transitions, as values
  // ---------------------------------------------------------------------

  /** The fields of a `UT330` that the operations read and write. */
  datatype State = State(port: Option<Port>, buffer: seq<int>, index: int)

  /** The state after an operation, and what it returned or raised. */
  datatype After<T> = After(state: State, result: Result<T>)

  /** A port is assigned and open. */
  predicate Open(st: State) {
    st.port.Some? && st.port.value.isOpen
  }

  /** The port stays assigned (or unassigned), and an open port stays open. */
  predicate KeepsPort(before: State, after: State) {
    after.port.Some? == before.port.Some? &&
    (before.port.Some? ==> after.port.value.isOpen == before.port.value.isOpen)
  }

  /** `_write_buffer`. In order, it looks up the port attribute, converts the
      frame with `bytearray` (a value outside 0..255 raises), writes it, and
      raises on a short write. A write that times out raises either in the
      port or as the short-write check. */
  function SendFrame(port: Option<Port>, frame: seq<int>): (x: (Option<Port>, Option<Error>))
    ensures x.1.None? <==>
      port.Some? && port.value.isOpen && AllBytes(frame) && |frame| <= port.value.writeRoom
    ensures x.1.None? ==>
      x.0 == Some(port.value.(written := port.value.written + frame,
                              writeRoom := port.value.writeRoom - |frame|))
    ensures port.None? ==> x == (port, Some(AttributeError))
    ensures port.Some? && !AllBytes(frame) ==> x == (port, Some(ValueError(ByteRange)))
    ensures port.Some? && AllBytes(frame) && !port.value.isOpen ==>
      x == (port, Some(IOError(PortNotOpen)))
    ensures port.Some? && AllBytes(frame) && port.value.isOpen && port.value.writeRoom < |frame| ==>
      x.1 == Some(if port.value.timeoutRaises then IOError(WriteTimeout) else ValueError(ShortWrite)) &&
      x.0 == Some(port.value.(written := port.value.written + frame[..port.value.writeRoom], writeRoom := 0))
    ensures x.0.Some? == port.Some? && (port.Some? ==> x.0.value.isOpen == port.value.isOpen)
  {
    if port.None? then (port, Some(AttributeError))
    else if !AllBytes(frame) then (port, Some(ValueError(ByteRange)))
    else
      var w := Write(port.value, Bytes(frame));
      if w.result.Err? then (Some(w.port), Some(w.result.error))
      else if w.result.value != |frame| then (Some(w.port), Some(ValueError(ShortWrite)))
      else
        assert Bytes(frame)[..|frame|] == frame;
        (Some(w.port), None)
  }

  /** The frame in the buffer goes out, then `_read_buffer(size)` reads the
      reply into the buffer. */
  function Exchange(st: State, size: nat): (a: After<seq<byte>>)
    ensures a.result.Ok? <==> SendFrame(st.port, st.buffer).1.None?
    ensures a.result.Ok? ==>
      Open(a.state) && a.state.buffer == a.result.value &&
      |a.result.value| == Min(size, |st.port.value.incoming|) &&
      st.port.value.incoming == a.result.value + a.state.port.value.incoming &&
      a.state.port.value.written == st.port.value.written + st.buffer
    ensures a.result.Err? ==>
      a.state == st.(port := SendFrame(st.port, st.buffer).0) &&
      a.result.error == SendFrame(st.port, st.buffer).1.value
    ensures a.state.index == st.index && KeepsPort(st, a.state)
  {
    var s := SendFrame(st.port, st.buffer);
    if s.1.Some? then After(st.(port := s.0), Err(s.1.value))
    else
      var x := ReadPages(s.0.value, size);
      After(State(Some(x.port), x.result.value, st.index), Ok(x.result.value))
  }

  /** A command answered by a seven-byte status. It succeeds exactly when the
      frame is sent whole and the next seven bytes from the logger are the
      expected reply. */
  function StatusExchange(st: State, expected: seq<int>, command: Command): (a: After<()>)
    requires |expected| == 7
    ensures a.result.Ok? <==>
      SendFrame(st.port, st.buffer).1.None? &&
      |st.port.value.incoming| >= 7 && st.port.value.incoming[..7] == expected
    ensures a.result.Err? && SendFrame(st.port, st.buffer).1.None? ==>
      a.result.error == IOError(BadReply(command))
    ensures a.result.Err? && SendFrame(st.port, st.buffer).1.Some? ==>
      a.result.error == SendFrame(st.port, st.buffer).1.value
    ensures a.state == Exchange(st, 7).state && KeepsPort(st, a.state)
  {
    var q := Exchange(st, 7);
    if q.result.Err? then After(q.state, Err(q.result.error))
    else
      var incoming := st.port.value.incoming;
      assert |incoming| >= 7 ==> q.result.value == incoming[..7];
      After(q.state, CheckReply(q.result.value, expected, command))
  }

  /** `read_data`. It sends the download command and reads the 8-byte
      header. An empty header gives no readings, and a shorter one raises.
      A header announcing fewer than 22 bytes is followed only by a read of
      the two CRC bytes. Otherwise the announced bytes are read and decoded
      record by record. */
  function ReadDataSpec(st: State): (a: After<seq<Reading>>)
    ensures KeepsPort(st, a.state)
    ensures a.result.Ok? ==> Open(a.state)
    ensures a.result.Ok? && a.result.value != [] ==> |a.result.value| >= 2
  {
    var q := Exchange(st.(buffer := ReadDataCommand), 8);
    if q.result.Err? then After(q.state, Err(q.result.error))
    else
      var header := q.result.value;
      if |header| == 0 then After(q.state, Ok([]))
      else if |header| < 8 then After(q.state, Err(IndexError))
      else
        var length := DataLength(header);
        var p := q.state.port.value;
        if length < 22 then
          var t := ReadPages(p, 2);
          After(State(Some(t.port), t.result.value, st.index), Ok([]))
        else DownloadData(p, length)
  }

  /** The data half of `read_data`: `length` bytes read from the open port
      `p` and decoded from index 0. At least 22 bytes hold at least two
      records. */
  function DownloadData(p: Port, length: int): (a: After<seq<Reading>>)
    requires p.isOpen && length >= 22
    ensures Open(a.state)
    ensures a.result.Ok? ==> |a.result.value| >= 2
  {
    var d := ReadPages(p, length);
    var recs := Records(d.result.value, length, 0);
    RecordsCount(d.result.value, length, 0);
    After(State(Some(d.port), d.result.value, recs.index), recs.result)
  }

  /** `delete_data`: the erase command with its CRC, answered by a status. */
  function DeleteDataSpec(st: State): (a: After<()>)
    ensures a.result.Ok? ==>
      Open(st) && Open(a.state) && a.state.port.value.written == st.port.value.written + DeleteDataCommand
    ensures KeepsPort(st, a.state)
  {
    StatusExchange(st.(buffer := DeleteDataCommand), DeleteDataOk, Command.DeleteData)
  }

  /** `read_config`: the query, a 46-byte reply, decoded. `_index` is left
      at 4 or 38, depending on how far decoding got. */
  function ReadConfigSpec(st: State): (a: After<Config>)
    ensures a.result.Ok? ==> Open(a.state) && a.state.index == 38 && |a.state.buffer| >= 38
    ensures KeepsPort(st, a.state)
  {
    var q := Exchange(st.(buffer := ReadConfigCommand), 46);
    if q.result.Err? then After(q.state, Err(q.result.error))
    else After(q.state.(index := ConfigIndex(q.result.value)), DecodeConfig(q.result.value))
  }

  /** `write_config`. The range checks run first, over the zeroed template,
      and a failed check writes nothing to the port. Otherwise the frame
      goes out and the status reply is checked. */
  function WriteConfigSpec(st: State, s: Settings): (a: After<()>)
    ensures CheckSettings(s).Some? ==>
      a.state == st.(buffer := ConfigTemplate) && a.result == Err(ValueError(CheckSettings(s).value))
    ensures a.result.Ok? ==>
      CheckSettings(s).None? && Open(st) && Open(a.state) &&
      a.state.port.value.written == st.port.value.written + ConfigFrame(s)
    ensures KeepsPort(st, a.state)
  {
    match CheckSettings(s)
    case Some(v) => After(st.(buffer := ConfigTemplate), Err(ValueError(v)))
    case None => StatusExchange(st.(buffer := ConfigFrame(s)), WriteConfigOk, Command.WriteConfig)
  }

  /** `write_datetime`: the timestamp frame, answered by a status. */
  function WriteDatetimeSpec(st: State, ts: DateTime): (a: After<()>)
    ensures a.result.Ok? ==>
      Open(st) && Open(a.state) && a.state.port.value.written == st.port.value.written + DatetimeFrame(ts)
    ensures KeepsPort(st, a.state)
  {
    StatusExchange(st.(buffer := DatetimeFrame(ts)), WriteDatetimeOk, Command.WriteDatetime)
  }

  /** `read_offsets`: the query, an 18-byte reply, decoded from index 4. */
  function ReadOffsetsSpec(st: State): (a: After<Offsets>)
    ensures a.result.Ok? ==> Open(a.state) && a.state.index == 4 && |a.state.buffer| >= 13
    ensures KeepsPort(st, a.state)
  {
    var q := Exchange(st.(buffer := ReadOffsetsCommand), 18);
    if q.result.Err? then After(q.state, Err(q.result.error))
    else After(q.state.(index := 4), DecodeOffsets(q.result.value))
  }

  /** `write_offsets`. The range checks run before anything is touched: a
      failed check leaves the state exactly as it was. Otherwise the frame
      the source builds goes out and the status reply is checked. Only
      offsets none of which is negative can succeed: a negative one is
      encoded above 255, and `bytearray` raises before anything is
      written. */
  function WriteOffsetsSpec(st: State, o: OffsetSettings): (a: After<()>)
    ensures CheckOffsets(o).Some? ==> a.state == st && a.result == Err(ValueError(CheckOffsets(o).value))
    ensures a.result.Ok? ==>
      CheckOffsets(o).None? && NoNegativeOffset(o) && Open(st) && Open(a.state) &&
      a.state.port.value.written == st.port.value.written + OffsetsFrame(o)
    ensures CheckOffsets(o).None? && !NoNegativeOffset(o) && st.port.Some? ==>
      a == After(st.(buffer := OffsetsFrameAsWritten(o)), Err(ValueError(ByteRange)))
    ensures KeepsPort(st, a.state)
  {
    match CheckOffsets(o)
    case Some(v) => After(st, Err(ValueError(v)))
    case None =>
      var frame := OffsetsFrameAsWritten(o);
      if NoNegativeOffset(o) then
        AsWrittenOffsetsFrame(o);
        StatusExchange(st.(buffer := frame), WriteOffsetsOk, Command.WriteOffsets)
      else
        NegativeOffsetNotSent(o);
        StatusExchange(st.(buffer := frame), WriteOffsetsOk, Command.WriteOffsets)
  }

  /** `restore_factory`: the reset command, answered by a status. */
  function RestoreFactorySpec(st: State): (a: After<()>)
    ensures a.result.Ok? ==>
      Open(st) && Open(a.state) && a.state.port.value.written == st.port.value.written + RestoreFactoryCommand
    ensures KeepsPort(st, a.state)
  {
    StatusExchange(st.(buffer := RestoreFactoryCommand), RestoreFactoryOk, Command.RestoreFactory)
  }

  /** `read_device_name`: the query, a 16-byte reply, and the stripped name
      at index 4. Once the query is answered, this never raises. */
  function ReadDeviceNameSpec(st: State): (a: After<string>)
    ensures a.result.Ok? <==> SendFrame(st.port, ReadNameCommand).1.None?
    ensures a.result.Ok? ==> |a.result.value| <= 10 && a.state.index == 4
    ensures KeepsPort(st, a.state)
  {
    var q := Exchange(st.(buffer := ReadNameCommand), 16);
    if q.result.Err? then After(q.state, Err(q.result.error))
    else After(q.state.(index := 4), Ok(GetName(q.result.value, 4)))
  }

  /** The `read_data` loop carried to index `i`: the readings gathered so
      far, put in front of whatever the rest of the loop produces. */
  function Joined(data: seq<Reading>, d: Decoded): Decoded {
    Decoded(Prepend(data, d.result), d.index)
  }

  /** Before the first record nothing is gathered, and the loop is the
      whole of what remains. */
  lemma JoinedNothing(rest: Decoded)
    ensures Joined([], rest) == rest
  {
    if rest.result.Ok? {
      assert [] + rest.result.value == rest.result.value;
    }
  }

  /** One record more moves from the rest of the loop to the readings
      gathered. */
  lemma JoinedSteps(data: seq<Reading>, r: Reading, rest: Decoded)
    ensures Joined(data, Decoded(Prepend([r], rest.result), rest.index)) == Joined(data + [r], rest)
  {
    if rest.result.Ok? {
      assert data + ([r] + rest.result.value) == (data + [r]) + rest.result.value;
    }
  }

  // ---------------------------------------------------------------------
  // Properties of whole operations
  // ---------------------------------------------------------------------

  /** Each reading `read_data` returns is the record at offset `12*k` of
      the downloaded data, decoded as the source decodes it, in order. */
  lemma DownloadInOrder(p: Port, length: int, k: nat)
    requires p.isOpen && length >= 22
    requires DownloadData(p, length).result.Ok? && k < |DownloadData(p, length).result.value|
    ensures var a := DownloadData(p, length);
      AllBytes(a.state.buffer) && RecordAt(Bytes(a.state.buffer), 12 * k) == Next(a.result.value[k])
  {
    var d := ReadPages(p, length);
    RecordsInOrder(d.result.value, length, 0, k);
  }

  /** The logger's bytes for a download of `rs`: an 8-byte header with the
      data length at bytes 4..7, the records, then the two CRC bytes. */
  predicate DownloadReply(incoming: seq<byte>, rs: seq<Reading>)
    requires forall k :: 0 <= k < |rs| ==> Recordable(rs[k])
  {
    |incoming| >= 8 + 12 * |rs| + 2 &&
    DataLength(incoming[..8]) == 12 * |rs| + 2 &&
    incoming[8..8 + 12 * |rs|] == EncodeReadings(rs)
  }

  /** A header whose bytes 4..7 carry `n` low byte first announces `n`. */
  lemma HeaderAnnounces(start: seq<byte>, n: int)
    requires 0 <= n < 0x1_0000_0000 && |start| == 4
    ensures |start + SplitLe32(n)| == 8 && DataLength(start + SplitLe32(n)) == n
  {
    var header := start + SplitLe32(n);
    assert header[4..8] == SplitLe32(n);
    SplitThenLe32(n);
  }

  /** The parts of a reply laid end to end can be sliced back out. */
  lemma Framed(header: seq<byte>, body: seq<byte>, tail: seq<byte>)
    requires |header| == 8
    ensures (header + (body + tail))[..8] == header
    ensures (header + (body + tail))[8..8 + |body|] == body
  {
    var reply := header + (body + tail);
    assert reply[8..] == body + tail;
  }

  /** Any header announcing `12 * |rs| + 2` bytes, followed by the records
      of `rs` and two CRC bytes, is a download reply for `rs`. */
  lemma ReplyOfHeader(header: seq<byte>, rs: seq<Reading>, records: seq<byte>, crc: seq<byte>)
    requires forall k :: 0 <= k < |rs| ==> Recordable(rs[k])
    requires |header| == 8 && DataLength(header) == 12 * |rs| + 2
    requires records == EncodeReadings(rs) && |crc| == 2
    ensures DownloadReply(header + (records + crc), rs)
  {
    Framed(header, records, crc);
  }

  /** A logger holding readings `rs` can answer the download command: its
      header, whose bytes 4..7 carry the count `12 * |rs| + 2` low byte
      first, the records and the two CRC bytes form a `DownloadReply`. */
  lemma DownloadReplyExists(rs: seq<Reading>, start: seq<byte>, crc: seq<byte>)
    requires forall k :: 0 <= k < |rs| ==> Recordable(rs[k])
    requires 12 * |rs| + 2 < 0x1_0000_0000 && |start| == 4 && |crc| == 2
    ensures DownloadReply(start + SplitLe32(12 * |rs| + 2) + (Bytes(EncodeReadings(rs)) + crc), rs)
  {
    HeaderAnnounces(start, 12 * |rs| + 2);
    ReplyOfHeader(start + SplitLe32(12 * |rs| + 2), rs, Bytes(EncodeReadings(rs)), crc);
  }

  /** The data half of `read_data` takes the announced bytes from the port
      (all of them, on a timeout) and writes nothing. */
  lemma DownloadDataConsumes(p: Port, length: int)
    requires p.isOpen && length >= 22
    ensures DownloadData(p, length).state.port.value.incoming == p.incoming[Min(length, |p.incoming|)..]
    ensures DownloadData(p, length).state.port.value.written == p.written
  {
    ReadPagesParts(p, length);
  }

  /** The data half of the round trip: `length` bytes holding the records
      of `rs` and the CRC decode to `AsRead` of each reading. */
  lemma DownloadOfEncoded(p: Port, rs: seq<Reading>)
    requires p.isOpen && |rs| >= 2 && forall k :: 0 <= k < |rs| ==> Recordable(rs[k])
    requires |p.incoming| >= 12 * |rs| + 2 && p.incoming[..12 * |rs|] == EncodeReadings(rs)
    ensures DownloadData(p, 12 * |rs| + 2).result == Ok(AsReadAll(rs))
  {
    var length := 12 * |rs| + 2;
    var buf := ReadPages(p, length).result.value;
    assert buf[0..12 * |rs|] == EncodeReadings(rs) by {
      assert buf == p.incoming[..length];
    }
    RecordsOfEncoded(rs, buf, 0);
  }

  /** The port once `read_data` has written its command and taken the
      8 header bytes. */
  function HeaderConsumed(p0: Port): (p: Port)
    requires |p0.incoming| >= 8 && |ReadDataCommand| <= p0.writeRoom
    ensures p.isOpen == p0.isOpen && p.incoming == p0.incoming[8..]
    ensures p.written == p0.written + ReadDataCommand
  {
    p0.(incoming := p0.incoming[8..], written := p0.written + ReadDataCommand,
        writeRoom := p0.writeRoom - 6, readSizes := p0.readSizes + [8])
  }

  /** A header of 22 bytes or more: `read_data` writes the command, takes
      the 8 header bytes, and goes on to download the announced data. */
  lemma ReadDataOfLongHeader(st: State, length: int)
    requires Open(st) && |ReadDataCommand| <= st.port.value.writeRoom
    requires |st.port.value.incoming| >= 8 && DataLength(st.port.value.incoming[..8]) == length >= 22
    ensures ReadDataSpec(st) == DownloadData(HeaderConsumed(st.port.value), length)
  {
    var q := Exchange(st.(buffer := ReadDataCommand), 8);
    assert q.result.value == st.port.value.incoming[..8];
    assert Pages(8) == [8];
  }

  /** Download round trip: when the logger answers the read command with a
      header and the records of at least two readings, `read_data` returns
      those readings in order, each with the pressure the source computes
      (`AsRead`). It also consumes exactly the header, the records and the
      CRC. */
  lemma DownloadRoundTrip(st: State, rs: seq<Reading>)
    requires Open(st) && |ReadDataCommand| <= st.port.value.writeRoom
    requires |rs| >= 2 && forall k :: 0 <= k < |rs| ==> Recordable(rs[k])
    requires DownloadReply(st.port.value.incoming, rs)
    ensures ReadDataSpec(st).result == Ok(AsReadAll(rs))
    ensures ReadDataSpec(st).state.port.value.incoming == st.port.value.incoming[8 + 12 * |rs| + 2..]
    ensures ReadDataSpec(st).state.port.value.written == st.port.value.written + ReadDataCommand
  {
    var p0 := st.port.value;
    var p := HeaderConsumed(p0);
    ReadDataOfLongHeader(st, 12 * |rs| + 2);
    assert p.incoming[..12 * |rs|] == EncodeReadings(rs) by {
      assert p.incoming[..12 * |rs|] == p0.incoming[8..8 + 12 * |rs|];
    }
    DownloadOfEncoded(p, rs);
    DownloadDataConsumes(p, 12 * |rs| + 2);
    assert p.incoming[12 * |rs| + 2..] == p0.incoming[8 + 12 * |rs| + 2..];
  }

  /** `read_data` returns exactly the stored readings when, and only when,
      each pressure's two bytes agree. */
  lemma DownloadUnchanged(st: State, rs: seq<Reading>)
    requires Open(st) && |ReadDataCommand| <= st.port.value.writeRoom
    requires |rs| >= 2 && forall k :: 0 <= k < |rs| ==> Recordable(rs[k])
    requires DownloadReply(st.port.value.incoming, rs)
    ensures ReadDataSpec(st).result == Ok(rs) <==>
      forall k :: 0 <= k < |rs| ==> rs[k].pressure % 256 == rs[k].pressure / 256
  {
    DownloadRoundTrip(st, rs);
    AsReadAllUnchanged(rs);
  }

  /** When the header announces fewer than 22 bytes, `read_data` returns no
      readings. It reads just the two CRC bytes after the header, in one
      8-byte request and one 2-byte request. */
  lemma DownloadWithoutData(st: State)
    requires Open(st) && |ReadDataCommand| <= st.port.value.writeRoom
    requires |st.port.value.incoming| >= 8 && DataLength(st.port.value.incoming[..8]) < 22
    ensures ReadDataSpec(st).result == Ok([])
    ensures var p := ReadDataSpec(st).state.port.value;
      p.incoming == st.port.value.incoming[Min(10, |st.port.value.incoming|)..] &&
      p.readSizes == st.port.value.readSizes + [8] + [2]
  {
    var q := Exchange(st.(buffer := ReadDataCommand), 8);
    assert q.result.value == st.port.value.incoming[..8];
    assert Pages(8) == [8] && Pages(2) == [2];
  }

  /** Settings that pass the range checks and that the logger can store go
      out on an open port with room: the frame is all bytes, so neither
      `bytearray` nor the port raises. */
  lemma AcceptedSettingsAreSent(port: Port, s: Settings)
    requires port.isOpen && 29 <= port.writeRoom
    requires CheckSettings(s).None? && Storable(s)
    ensures SendFrame(Some(port), ConfigFrame(s)).1.None?
  {
    ConfigFrameIsBytes(s);
  }

  /** With the corrected encoding every accepted offset goes out. As
      written, accepted offsets go out exactly when none is negative; a
      negative one makes `bytearray` raise `ValueError` before anything is
      written. */
  lemma AcceptedOffsetsAreSent(port: Port, o: OffsetSettings)
    requires port.isOpen && 9 <= port.writeRoom && CheckOffsets(o).None?
    ensures SendFrame(Some(port), OffsetsFrame(o)).1.None?
    ensures SendFrame(Some(port), OffsetsFrameAsWritten(o)).1.None? <==> NoNegativeOffset(o)
    ensures !NoNegativeOffset(o) ==>
      SendFrame(Some(port), OffsetsFrameAsWritten(o)) == (Some(port), Some(ValueError(ByteRange)))
  {
    if NoNegativeOffset(o) {
      AsWrittenOffsetsFrame(o);
    } else {
      NegativeOffsetNotSent(o);
    }
    assert AllBytes(OffsetsFrame(o));
  }

  // ---------------------------------------------------------------------
  // The driver object
  // ---------------------------------------------------------------------

  class UT330 {
    var port: Option<Port>
    var buffer: seq<int>
    var index: int
    var lastOpTime: int   // microseconds; `datetime.min` is 0

    /** The fields an operation reads and writes, as one value. */
    function Snapshot(): State
      reads this
    {
      State(port, buffer, index)
    }

    /** A driver with no port, an empty buffer, and no previous operation.
        The source's `None` buffer is the empty list here. */
    constructor ()
      ensures Snapshot() == State(None, [], 0) && lastOpTime == 0
    {
      port := None;
      buffer := [];
      index := 0;
      lastOpTime := 0;
    }

    /** `connect`: picks the last port with the logger's ids and checks that
        it opened. Without one, the port is left as it was. */
    method Connect(ports: seq<PortInfo>) returns (r: Result<()>)
      modifies this
      ensures LastLogger(ports).None? ==> port == old(port) && r == Err(IOError(NotDetected))
      ensures LastLogger(ports).Some? ==>
        port == LastLogger(ports) &&
        r == (if port.value.isOpen then Ok(()) else Err(IOError(NotOpenOnPort)))
      ensures buffer == old(buffer) && index == old(index) && lastOpTime == old(lastOpTime)
    {
      var found: Option<Port> := None;
      var k := 0;
      while k < |ports|
        invariant 0 <= k <= |ports|
        invariant found == LastLogger(ports[..k])
      {
        assert ports[..k + 1][..k] == ports[..k];
        if ports[k].vid == 4292 && ports[k].pid == 60000 {
          found := Some(ports[k].port);
        }
        k := k + 1;
      }
      assert ports[..|ports|] == ports;
      if found.None? {
        return Err(IOError(NotDetected));
      }
      port := found;
      if !port.value.isOpen {
        return Err(IOError(NotOpenOnPort));
      }
      return Ok(());
    }

    /** `disconnect`: closes the port if one was ever assigned. */
    method Disconnect() returns (r: Result<()>)
      modifies this
      ensures old(port).None? ==> port == old(port) && r == Ok(())
      ensures old(port).Some? ==>
        var c := Close(old(port).value);
        port == Some(c.0) && r == (if c.1.Some? then Err(c.1.value) else Ok(()))
      ensures buffer == old(buffer) && index == old(index) && lastOpTime == old(lastOpTime)
    {
      if port.Some? {
        var c := Close(port.value);
        port := Some(c.0);
        if c.1.Some? {
          return Err(c.1.value);
        }
      }
      return Ok(());
    }

    /** `_write_buffer`: sends the buffer; returns what it raised, if
        anything. */
    method WriteBuffer() returns (raised: Option<Error>)
      modifies this
      ensures (port, raised) == SendFrame(old(port), old(buffer))
      ensures buffer == old(buffer) && index == old(index) && lastOpTime == old(lastOpTime)
    {
      if port.None? {
        return Some(AttributeError);
      }
      if !AllBytes(buffer) {
        return Some(ValueError(ByteRange));
      }
      var w := Write(port.value, Bytes(buffer));
      port := Some(w.port);
      if w.result.Err? {
        return Some(w.result.error);
      }
      if w.result.value != |buffer| {
        return Some(ValueError(ShortWrite));
      }
      return None;
    }

    /** `_read_buffer(count)`: empties the buffer, then appends
        `count / 32768` whole pages and the remainder, one read each. Every
        caller has just written to the port, so it is assigned and open. */
    method ReadBuffer(count: nat) returns (got: seq<byte>)
      requires port.Some? && port.value.isOpen
      modifies this
      ensures var x := ReadPages(old(port).value, count);
        port == Some(x.port) && got == x.result.value && buffer == got
      ensures index == old(index) && lastOpTime == old(lastOpTime)
    {
      var p0 := port.value;
      var bytes: seq<byte> := [];
      buffer := [];
      var i := 0;
      ghost var taken: nat := 0;
      ghost var sizes: seq<nat> := [];
      assert p0.incoming[Min(0, |p0.incoming|)..] == p0.incoming && p0.readSizes + [] == p0.readSizes;
      while i < count / PageSize
        invariant 0 <= i <= count / PageSize && buffer == bytes
        invariant taken == i * PageSize && |sizes| == i && forall k :: 0 <= k < i ==> sizes[k] == PageSize
        invariant port == Some(Drained(p0, taken, sizes))
        invariant bytes == p0.incoming[..Min(taken, |p0.incoming|)]
        invariant index == old(index) && lastOpTime == old(lastOpTime)
      {
        ReadMore(p0, taken, sizes, PageSize);
        var x := Read(port.value, PageSize);
        port := Some(x.port);
        bytes := bytes + x.result.value;
        buffer := bytes;
        taken, sizes := taken + PageSize, sizes + [PageSize];
        i := i + 1;
      }
      ReadMore(p0, taken, sizes, count % PageSize);
      var x := Read(port.value, count % PageSize);
      port := Some(x.port);
      bytes := bytes + x.result.value;
      buffer := bytes;
      assert taken + count % PageSize == count;
      assert sizes == seq(i, _ => PageSize);
      assert sizes + [count % PageSize] == Pages(count);
      ReadPagesParts(p0, count);
      return bytes;
    }

    /** `buffer[n+1], buffer[n] = modbusCRC(buffer[0:n])`: the CRC of the
        first `n` bytes goes into the last two, low byte first. */
    method PutCrc(n: nat)
      requires |buffer| == n + 2
      modifies this
      ensures buffer == old(buffer[..n]) + Trailer(old(buffer[..n]))
      ensures port == old(port) && index == old(index) && lastOpTime == old(lastOpTime)
    {
      var msb, lsb := ModbusCrc(buffer[0..n]);
      buffer := buffer[n + 1 := msb][n := lsb];
      assert buffer == old(buffer[..n]) + [lsb, msb];
    }

    /** Sends the buffer and reads `size` bytes back: the first half of every
        operation. */
    method Transact(size: nat) returns (r: Result<seq<byte>>)
      modifies this
      ensures After(Snapshot(), r) == Exchange(old(Snapshot()), size)
      ensures lastOpTime == old(lastOpTime)
    {
      var raised := WriteBuffer();
      if raised.Some? {
        return Err(raised.value);
      }
      var got := ReadBuffer(size);
      return Ok(got);
    }

    /** Sends the buffer and compares the seven-byte reply with `expected`:
        the tail that every write, delete and reset shares. */
    method SendAndCheck(expected: seq<int>, command: Command) returns (r: Result<()>)
      requires |expected| == 7
      modifies this
      ensures After(Snapshot(), r) == StatusExchange(old(Snapshot()), expected, command)
      ensures lastOpTime == old(lastOpTime)
    {
      var reply := Transact(7);
      if reply.Err? {
        return Err(reply.error);
      }
      if reply.value != expected {
        return Err(IOError(BadReply(command)));
      }
      return Ok(());
    }

    /** `read_data`: downloads the header, then the data it announces, and
        decodes one reading per 12-byte record. */
    method ReadData(now: int) returns (r: Result<seq<Reading>>)
      modifies this
      ensures After(Snapshot(), r) == ReadDataSpec(old(Snapshot()))
      ensures lastOpTime == if r.Ok? then now else old(lastOpTime)
    {
      buffer := ReadDataCommand;
      var raised := WriteBuffer();
      if raised.Some? {
        return Err(raised.value);
      }
      var header := ReadBuffer(8);
      if |header| == 0 {
        lastOpTime := now;
        return Ok([]);
      }
      if |header| < 8 {
        return Err(IndexError);
      }
      var length := DataLength(header);
      if length < 22 {
        var crc := ReadBuffer(2);
        lastOpTime := now;
        return Ok([]);
      }
      var buf := ReadBuffer(length);
      var p := port;
      index := 0;
      var data: seq<Reading> := [];
      JoinedNothing(Records(buf, length, 0));
      while index < length - 2
        invariant 0 <= index && buffer == buf && port == p && lastOpTime == old(lastOpTime)
        invariant Records(buf, length, 0) == Joined(data, Records(buf, length, index))
        decreases length - index
      {
        ghost var start := index;
        var timestamp := GetDateTime(buf, index);
        if timestamp.Err? {
          return Err(timestamp.error);
        }
        index := index + 6;
        if index + 2 > |buf| {
          return Err(IndexError);
        }
        var temperature := Temperature(buf[index], buf[index + 1]);
        index := index + 2;
        if index + 3 > |buf| {
          return Err(IndexError);
        }
        var humidity := Le16(buf[index], buf[index + 1]);
        var pressure := PressureAsWritten(buf[index + 2], buf[index + 2]);
        index := index + 4;
        var reading := Reading(timestamp.value, temperature, humidity, pressure);
        assert RecordAt(buf, start) == Next(reading);
        JoinedSteps(data, reading, Records(buf, length, index));
        data := data + [reading];
      }
      assert data + [] == data;
      lastOpTime := now;
      return Ok(data);
    }

    /** `delete_data`: recomputes the CRC of the erase command, sends it,
        and checks the status reply. */
    method DeleteData(now: int) returns (r: Result<()>)
      modifies this
      ensures After(Snapshot(), r) == DeleteDataSpec(old(Snapshot()))
      ensures lastOpTime == if r.Ok? then now else old(lastOpTime)
    {
      buffer := [0xAB, 0xCD, 0x03, 0x18, 0xB1, 0x05];
      PutCrc(4);
      DeleteDataTrailer();
      r := SendAndCheck(DeleteDataOk, Command.DeleteData);
      if r.Ok? {
        lastOpTime := now;
      }
    }

    /** `read_config`: sends the query, reads 46 bytes and decodes them. */
    method ReadConfig(now: int) returns (r: Result<Config>)
      modifies this
      ensures After(Snapshot(), r) == ReadConfigSpec(old(Snapshot()))
      ensures lastOpTime == if r.Ok? then now else old(lastOpTime)
    {
      buffer := ReadConfigCommand;
      var reply := Transact(46);
      if reply.Err? {
        return Err(reply.error);
      }
      index := ConfigIndex(reply.value);
      r := DecodeConfig(reply.value);
      if r.Ok? {
        lastOpTime := now;
      }
    }

    /** The device name loop of `write_config`: each character of the name,
        right-justified to ten, stored as its code at bytes 4..13. */
    method PutName(name: string)
      requires buffer == ConfigTemplate
      modifies this
      ensures |buffer| == 29 && buffer[..4] == ConfigTemplate[..4]
      ensures buffer[4..14] == NameCodes(name) && buffer[14..] == ConfigTemplate[14..]
      ensures port == old(port) && index == old(index) && lastOpTime == old(lastOpTime)
    {
      var padded := PaddedName(name);
      var k := 0;
      while k < 10
        invariant 0 <= k <= 10 && |buffer| == 29
        invariant buffer[..4] == [0xAB, 0xCD, 0x1A, 0x10]
        invariant forall j :: 0 <= j < k ==> buffer[4 + j] == padded[j] as int
        invariant forall j :: 4 + k <= j < 29 ==> buffer[j] == 0
        invariant port == old(port) && index == old(index) && lastOpTime == old(lastOpTime)
      {
        buffer := buffer[4 + k := padded[k] as int];
        k := k + 1;
      }
      assert buffer[4..14] == NameCodes(name);
    }

    /** The field assignments of `write_config` after the name: the
        interval, the two flags, the delay, the unknown byte 22 and the
        alarms, at bytes 14..26. */
    method PutFields(s: Settings)
      requires |buffer| == 29
      modifies this
      ensures |buffer| == 29 && buffer[..14] == old(buffer[..14]) && buffer[27..] == old(buffer[27..])
      ensures buffer[14..27] == ConfigFields(s)
      ensures port == old(port) && index == old(index) && lastOpTime == old(lastOpTime)
    {
      buffer := buffer[14 := s.samplingInterval % 256]
                      [15 := (s.samplingInterval / 256) % 256]
                      [16 := (s.samplingInterval / 65536) % 256];
      buffer := buffer[17 := BoolByte(s.overwriteRecords)][18 := BoolByte(s.delayStart)];
      buffer := buffer[19 := s.delayTiming % 256]
                      [20 := (s.delayTiming / 256) % 256]
                      [21 := (s.delayTiming / 65536) % 256];
      buffer := buffer[22 := 0];
      if s.highTemperatureAlarm >= 0 {
        buffer := buffer[23 := s.highTemperatureAlarm];
      } else {
        buffer := buffer[23 := 256 + s.highTemperatureAlarm];
      }
      if s.lowTemperatureAlarm < 0 {
        buffer := buffer[24 := 256 + s.lowTemperatureAlarm];
      } else {
        buffer := buffer[24 := s.lowTemperatureAlarm];
      }
      buffer := buffer[25 := s.highHumidityAlarm][26 := s.lowHumidityAlarm];
      assert buffer[..14] == old(buffer[..14]);
      assert buffer[14..27] == ConfigFields(s);
    }

    /** The frame of `write_config`, built over the template: the name,
        the other fields, then the CRC. */
    method BuildConfigFrame(s: Settings)
      requires buffer == ConfigTemplate
      modifies this
      ensures buffer == ConfigFrame(s)
      ensures port == old(port) && index == old(index) && lastOpTime == old(lastOpTime)
    {
      PutName(s.name);
      ghost var named := buffer;
      PutFields(s);
      assert buffer[..27] == named[..4] + named[4..14] + buffer[14..27] by {
        assert buffer[..14] == named[..14] == named[..4] + named[4..14];
      }
      assert buffer[..27] == ConfigBody(s);
      PutCrc(27);
    }

    /** `write_config`: builds the frame over a zeroed template after the
        range checks, then sends it and checks the status reply. */
    method WriteConfig(s: Settings, now: int) returns (r: Result<()>)
      modifies this
      ensures After(Snapshot(), r) == WriteConfigSpec(old(Snapshot()), s)
      ensures lastOpTime == if r.Ok? then now else old(lastOpTime)
    {
      buffer := ConfigTemplate;
      if |s.name| > 10 {
        return Err(ValueError(NameTooLong));
      }
      if |s.name| == 0 {
        return Err(ValueError(NameEmpty));
      }
      if s.samplingInterval < 0 || s.samplingInterval > 86400 {
        return Err(ValueError(SamplingInterval));
      }
      if s.delayTiming < 0 || s.delayTiming > 604800 {
        return Err(ValueError(DelayTiming));
      }
      BuildConfigFrame(s);
      r := SendAndCheck(WriteConfigOk, Command.WriteConfig);
      if r.Ok? {
        lastOpTime := now;
      }
    }

    /** `write_datetime`: the six fields of `ts` and their CRC, sent, and
        the status reply checked. */
    method WriteDatetime(ts: DateTime, now: int) returns (r: Result<()>)
      modifies this
      ensures After(Snapshot(), r) == WriteDatetimeSpec(old(Snapshot()), ts)
      ensures lastOpTime == if r.Ok? then now else old(lastOpTime)
    {
      buffer := [0xAB, 0xCD, 0x09, 0x12, 0, 0, 0, 0, 0, 0, 0, 0];
      buffer := buffer[4 := ts.year - 2000][5 := ts.month][6 := ts.day]
                      [7 := ts.hour][8 := ts.minute][9 := ts.second];
      assert buffer[..10] == [0xAB, 0xCD, 0x09, 0x12] + DateTimeBytes(ts);
      PutCrc(10);
      r := SendAndCheck(WriteDatetimeOk, Command.WriteDatetime);
      if r.Ok? {
        lastOpTime := now;
      }
    }

    /** `read_offsets`: sends the query, reads 18 bytes and decodes them. */
    method ReadOffsets(now: int) returns (r: Result<Offsets>)
      modifies this
      ensures After(Snapshot(), r) == ReadOffsetsSpec(old(Snapshot()))
      ensures lastOpTime == if r.Ok? then now else old(lastOpTime)
    {
      buffer := ReadOffsetsCommand;
      var reply := Transact(18);
      if reply.Err? {
        return Err(reply.error);
      }
      index := 4;
      r := DecodeOffsets(reply.value);
      if r.Ok? {
        lastOpTime := now;
      }
    }

    /** The offset bytes of `write_offsets`: each offset in tenths, a
        negative one stored as `256 - t`, as the source stores it. */
    method PutOffsets(o: OffsetSettings)
      modifies this
      ensures |buffer| == 9
      ensures buffer[..7] == [0xAB, 0xCD, 0x06, 0x16, OffsetByteAsWritten(o.temperatureOffset),
                              OffsetByteAsWritten(o.humidityOffset), OffsetByteAsWritten(o.pressureOffset)]
      ensures port == old(port) && index == old(index) && lastOpTime == old(lastOpTime)
    {
      buffer := [0xAB, 0xCD, 0x06, 0x16, 0, 0, 0, 0, 0];
      if o.temperatureOffset < 0 {
        buffer := buffer[4 := 256 - o.temperatureOffset];
      } else {
        buffer := buffer[4 := o.temperatureOffset];
      }
      if o.humidityOffset < 0 {
        buffer := buffer[5 := 256 - o.humidityOffset];
      } else {
        buffer := buffer[5 := o.humidityOffset];
      }
      if o.pressureOffset < 0 {
        buffer := buffer[6 := 256 - o.pressureOffset];
      } else {
        buffer := buffer[6 := o.pressureOffset];
      }
    }

    /** `write_offsets`: the range checks come first, before the buffer is
        touched. Then the frame with the three offsets is sent, and the
        status reply is checked. */
    method WriteOffsets(o: OffsetSettings, now: int) returns (r: Result<()>)
      modifies this
      ensures After(Snapshot(), r) == WriteOffsetsSpec(old(Snapshot()), o)
      ensures lastOpTime == if r.Ok? then now else old(lastOpTime)
    {
      if o.temperatureOffset > 61 || o.temperatureOffset < -60 {
        return Err(ValueError(TemperatureOffset));
      }
      if o.humidityOffset > 61 || o.humidityOffset < -60 {
        return Err(ValueError(HumidityOffset));
      }
      if o.pressureOffset > 61 || o.pressureOffset < -60 {
        return Err(ValueError(PressureOffset));
      }
      PutOffsets(o);
      PutCrc(7);
      r := SendAndCheck(WriteOffsetsOk, Command.WriteOffsets);
      if r.Ok? {
        lastOpTime := now;
      }
    }

    /** `restore_factory`: sends the reset command and checks the status
        reply. */
    method RestoreFactory(now: int) returns (r: Result<()>)
      modifies this
      ensures After(Snapshot(), r) == RestoreFactorySpec(old(Snapshot()))
      ensures lastOpTime == if r.Ok? then now else old(lastOpTime)
    {
      buffer := [0xAB, 0xCD, 0x03, 0x20, 0xB0, 0xD7];
      r := SendAndCheck(RestoreFactoryOk, Command.RestoreFactory);
      if r.Ok? {
        lastOpTime := now;
      }
    }

    /** `read_device_name`: sends the query, reads 16 bytes, and returns the
        stripped name at index 4. */
    method ReadDeviceName(now: int) returns (r: Result<string>)
      modifies this
      ensures After(Snapshot(), r) == ReadDeviceNameSpec(old(Snapshot()))
      ensures lastOpTime == if r.Ok? then now else old(lastOpTime)
    {
      buffer := ReadNameCommand;
      var reply := Transact(16);
      if reply.Err? {
        return Err(reply.error);
      }
      index := 4;
      lastOpTime := now;
      return Ok(GetName(reply.value, 4));
    }
  }
}
