/**
 * The controller of the UT330 user interface: the object the tabs call to
 * drive the logger. It guards every device operation with its `connected`
 * flag, turns the exceptions it catches into a status message, and keeps
 * the last data, configuration and offsets it read.
 *
 * The status messages are labels here; a caught exception becomes
 * `Failed(e)`, which stands for the exception's text. An exception the
 * controller does not catch leaves the method: the methods that can let one
 * through return it as `escaped`.
 */
module Control {
  import opened Errors
  import opened Fields
  import opened Transport
  import opened Codec
  import opened Device

  /** The status line the controller shows. */
  datatype Status =
    | NotConnected
    | ConnectRefused       // already connected
    | ConnectOk
    | DisconnectRefused    // not connected
    | DisconnectOk
    | EraseRefused
    | Erased
    | ReadDataRefused
    | ReadingData          // the download is scheduled for the next tick
    | DataRead
    | NoData
    | ReadConfigRefused
    | ConfigRead
    | WriteConfigRefused
    | ConfigWritten        // also what `write_offsets` reports
    | ConfigAndDatetimeWritten
    | ReadOffsetsRefused
    | OffsetsRead
    | WriteOffsetsRefused
    | Failed(error: Error) // the text of a caught exception

  /** The exceptions `except IOError` catches. */
  predicate CaughtByRead(e: Error) {
    e.IOError?
  }

  /** The exceptions `except IOError` followed by `except ValueError`
      catches. */
  predicate CaughtByWrite(e: Error) {
    e.IOError? || e.ValueError?
  }

  /** On an open port a status exchange fails only by the write timeout, a
      frame that is not all bytes, or a wrong reply: never by a missing or
      closed port. */
  lemma StatusErrorsOnOpenPort(st: State, expected: seq<int>, command: Command)
    requires Open(st) && |expected| == 7
    ensures var a := StatusExchange(st, expected, command);
      a.result.Err? ==>
        a.result.error in {ValueError(ByteRange), ValueError(ShortWrite), IOError(WriteTimeout),
                           IOError(BadReply(command))}
  {
    var s := SendFrame(st.port, st.buffer);
    if s.1.Some? {
      assert !AllBytes(st.buffer) || st.port.value.writeRoom < |st.buffer|;
    }
  }

  /** On an open port the exchange of a command that is all bytes fails
      only by the write timeout. */
  lemma ExchangeErrorsOnOpenPort(st: State, size: nat)
    requires Open(st) && AllBytes(st.buffer)
    ensures var a := Exchange(st, size);
      a.result.Err? ==> a.result.error in {ValueError(ShortWrite), IOError(WriteTimeout)}
  {
    if SendFrame(st.port, st.buffer).1.Some? {
      assert st.port.value.writeRoom < |st.buffer|;
    }
  }

  /** On an open port `read_data` fails only by the write timeout or while
      decoding. */
  lemma ReadDataErrorsOnOpenPort(st: State)
    requires Open(st)
    ensures var a := ReadDataSpec(st);
      a.result.Err? ==>
        a.result.error in {ValueError(ShortWrite), IOError(WriteTimeout)} || DecodeError(a.result.error)
  {
    assert AllBytes(ReadDataCommand);
    ExchangeErrorsOnOpenPort(st.(buffer := ReadDataCommand), 8);
  }

  /** On an open port `read_config` fails only by the write timeout or
      while decoding. */
  lemma ReadConfigErrorsOnOpenPort(st: State)
    requires Open(st)
    ensures var a := ReadConfigSpec(st);
      a.result.Err? ==>
        a.result.error in {ValueError(ShortWrite), IOError(WriteTimeout)} || DecodeError(a.result.error)
  {
    assert AllBytes(ReadConfigCommand);
    ExchangeErrorsOnOpenPort(st.(buffer := ReadConfigCommand), 46);
  }

  /** On an open port `read_offsets` fails only by the write timeout or a
      reply too short to decode. */
  lemma ReadOffsetsErrorsOnOpenPort(st: State)
    requires Open(st)
    ensures var a := ReadOffsetsSpec(st);
      a.result.Err? ==>
        a.result.error in {ValueError(ShortWrite), IOError(WriteTimeout), IndexError}
  {
    assert AllBytes(ReadOffsetsCommand);
    ExchangeErrorsOnOpenPort(st.(buffer := ReadOffsetsCommand), 18);
  }

  class Controller {
    var status: Status
    var connected: bool
    var deviceData: Option<seq<Reading>>
    var deviceConfig: Option<Config>
    var deviceOffsets: Option<Offsets>
    const device: UT330

    /** While the controller believes the logger is connected, the driver
        holds an open port. */
    predicate Valid()
      reads this, device
    {
      connected ==> Open(device.Snapshot())
    }

    /** The data, configuration and offsets last read, as one value. */
    function Held(): (Option<seq<Reading>>, Option<Config>, Option<Offsets>)
      reads this
    {
      (deviceData, deviceConfig, deviceOffsets)
    }

    constructor ()
      ensures Valid() && fresh(device)
      ensures status == NotConnected && !connected && Held() == (None, None, None)
      ensures device.Snapshot() == State(None, [], 0) && device.lastOpTime == 0
    {
      status := NotConnected;
      connected := false;
      deviceData := None;
      deviceConfig := None;
      deviceOffsets := None;
      device := new UT330();
    }

    /** `connect`: refused while connected; otherwise the driver looks for
        the logger among `ports`, and any `IOError` it raises becomes the
        status and leaves the controller disconnected. */
    method Connect(ports: seq<PortInfo>)
      requires Valid()
      modifies this, device
      ensures Valid() && Held() == old(Held())
      ensures old(connected) ==> status == ConnectRefused && connected && unchanged(device)
      ensures !old(connected) ==>
        var found := LastLogger(ports);
        connected == (found.Some? && found.value.isOpen) &&
        status == (if found.None? then Failed(IOError(NotDetected))
                   else if found.value.isOpen then ConnectOk
                   else Failed(IOError(NotOpenOnPort))) &&
        device.port == (if found.None? then old(device.port) else found) &&
        device.buffer == old(device.buffer) && device.index == old(device.index) &&
        device.lastOpTime == old(device.lastOpTime)
    {
      if connected {
        status := ConnectRefused;
        return;
      }
      var r := device.Connect(ports);
      if r.Ok? {
        status := ConnectOk;
        connected := true;
      } else {
        assert CaughtByRead(r.error);
        status := Failed(r.error);
        connected := false;
      }
    }

    /** `disconnect`: refused while disconnected; otherwise the port is
        closed. A refused close is reported and the controller stays
        connected to the still open port. */
    method Disconnect()
      requires Valid()
      modifies this, device
      ensures Valid() && Held() == old(Held())
      ensures !old(connected) ==> status == DisconnectRefused && !connected && unchanged(device)
      ensures old(connected) ==>
        var c := Close(old(device.port).value);
        device.port == Some(c.0) &&
        device.buffer == old(device.buffer) && device.index == old(device.index) &&
        device.lastOpTime == old(device.lastOpTime) &&
        (c.1.None? ==> status == DisconnectOk && !connected && !c.0.isOpen) &&
        (c.1.Some? ==> status == Failed(c.1.value) && connected && c.0 == old(device.port).value)
    {
      if !connected {
        status := DisconnectRefused;
        return;
      }
      var r := device.Disconnect();
      if r.Ok? {
        status := DisconnectOk;
        connected := false;
      } else {
        assert CaughtByRead(r.error);
        status := Failed(r.error);
      }
    }

    /** `erase`: refused while disconnected; otherwise the logger's data is
        deleted and the copy held here is dropped. Only an `IOError` is
        caught; the short-write `ValueError` escapes. */
    method Erase(now: int) returns (escaped: Option<Error>)
      requires Valid()
      modifies this, device
      ensures Valid() && connected == old(connected)
      ensures deviceConfig == old(deviceConfig) && deviceOffsets == old(deviceOffsets)
      ensures !old(connected) ==>
        status == EraseRefused && escaped.None? && unchanged(device) && deviceData == old(deviceData)
      ensures old(connected) ==>
        var a := DeleteDataSpec(old(device.Snapshot()));
        device.Snapshot() == a.state &&
        device.lastOpTime == (if a.result.Ok? then now else old(device.lastOpTime)) &&
        (a.result.Ok? ==> status == Erased && deviceData == None && escaped.None?) &&
        (a.result.Err? ==> deviceData == old(deviceData)) &&
        (a.result.Err? && CaughtByRead(a.result.error) ==> status == Failed(a.result.error) && escaped.None?) &&
        (a.result.Err? && !CaughtByRead(a.result.error) ==> status == old(status) && escaped == Some(a.result.error))
      ensures escaped.Some? ==> escaped.value == ValueError(ShortWrite)
    {
      if !connected {
        status := EraseRefused;
        return None;
      }
      ghost var before := device.Snapshot();
      StatusErrorsOnOpenPort(before.(buffer := DeleteDataCommand), DeleteDataOk, Command.DeleteData);
      assert AllBytes(DeleteDataCommand);
      var r := device.DeleteData(now);
      if r.Err? {
        if CaughtByRead(r.error) {
          status := Failed(r.error);
          return None;
        }
        return Some(r.error);
      }
      status := Erased;
      deviceData := None;
      return None;
    }

    /** `read_data`: refused while disconnected; otherwise it only reports
        that the download has started. The download itself, scheduled for
        the next tick, is `ReadDataNextTick`. */
    method ReadData()
      requires Valid()
      modifies this
      ensures Valid() && connected == old(connected) && Held() == old(Held())
      ensures status == if connected then ReadingData else ReadDataRefused
    {
      if !connected {
        status := ReadDataRefused;
        return;
      }
      status := ReadingData;
    }

    /** `read_data_2`: downloads the readings and keeps them. It does not
        look at `connected`. Only an `IOError` is caught; the rest escapes,
        and while connected that can only be the short-write `ValueError`
        or a decoding error. */
    method ReadDataNextTick(now: int) returns (escaped: Option<Error>)
      requires Valid()
      modifies this, device
      ensures Valid() && connected == old(connected)
      ensures deviceConfig == old(deviceConfig) && deviceOffsets == old(deviceOffsets)
      ensures var a := ReadDataSpec(old(device.Snapshot()));
        device.Snapshot() == a.state &&
        device.lastOpTime == (if a.result.Ok? then now else old(device.lastOpTime)) &&
        (a.result.Ok? ==>
          deviceData == Some(a.result.value) && escaped.None? &&
          status == (if a.result.value == [] then NoData else DataRead)) &&
        (a.result.Err? ==> deviceData == old(deviceData)) &&
        (a.result.Err? && CaughtByRead(a.result.error) ==> status == Failed(a.result.error) && escaped.None?) &&
        (a.result.Err? && !CaughtByRead(a.result.error) ==> status == old(status) && escaped == Some(a.result.error))
      ensures old(connected) && escaped.Some? ==> escaped.value == ValueError(ShortWrite) || DecodeError(escaped.value)
    {
      ghost var before := device.Snapshot();
      if connected {
        ReadDataErrorsOnOpenPort(before);
      }
      var r := device.ReadData(now);
      if r.Err? {
        if CaughtByRead(r.error) {
          status := Failed(r.error);
          return None;
        }
        return Some(r.error);
      }
      deviceData := Some(r.value);
      status := DataRead;
      if |r.value| == 0 {
        status := NoData;
      }
      return None;
    }

    /** `read_config`: refused while disconnected; otherwise the logger's
        configuration is read and kept. Only an `IOError` is caught. */
    method ReadConfig(now: int) returns (escaped: Option<Error>)
      requires Valid()
      modifies this, device
      ensures Valid() && connected == old(connected)
      ensures deviceData == old(deviceData) && deviceOffsets == old(deviceOffsets)
      ensures !old(connected) ==>
        status == ReadConfigRefused && escaped.None? && unchanged(device) && deviceConfig == old(deviceConfig)
      ensures old(connected) ==>
        var a := ReadConfigSpec(old(device.Snapshot()));
        device.Snapshot() == a.state &&
        device.lastOpTime == (if a.result.Ok? then now else old(device.lastOpTime)) &&
        (a.result.Ok? ==> deviceConfig == Some(a.result.value) && status == ConfigRead && escaped.None?) &&
        (a.result.Err? ==> deviceConfig == old(deviceConfig)) &&
        (a.result.Err? && CaughtByRead(a.result.error) ==> status == Failed(a.result.error) && escaped.None?) &&
        (a.result.Err? && !CaughtByRead(a.result.error) ==> status == old(status) && escaped == Some(a.result.error))
      ensures escaped.Some? ==> escaped.value == ValueError(ShortWrite) || DecodeError(escaped.value)
    {
      if !connected {
        status := ReadConfigRefused;
        return None;
      }
      ReadConfigErrorsOnOpenPort(device.Snapshot());
      var r := device.ReadConfig(now);
      if r.Err? {
        if CaughtByRead(r.error) {
          status := Failed(r.error);
          return None;
        }
        return Some(r.error);
      }
      deviceConfig := Some(r.value);
      status := ConfigRead;
      return None;
    }

    /** `write_config`: refused while disconnected; otherwise the settings
        are written and then, only if that succeeded, the timestamp. Both
        `IOError` and `ValueError` are caught, and while connected nothing
        else can be raised, so nothing escapes. */
    method WriteConfig(s: Settings, now: int)
      requires Valid()
      modifies this, device
      ensures Valid() && connected == old(connected) && Held() == old(Held())
      ensures !old(connected) ==> status == WriteConfigRefused && unchanged(device)
      ensures old(connected) ==>
        var a := WriteConfigSpec(old(device.Snapshot()), s);
        var b := WriteDatetimeSpec(a.state, s.timestamp);
        (a.result.Err? ==>
          device.Snapshot() == a.state && device.lastOpTime == old(device.lastOpTime) &&
          status == Failed(a.result.error)) &&
        (a.result.Ok? ==>
          device.Snapshot() == b.state &&
          device.lastOpTime == now &&
          status == (if b.result.Ok? then ConfigAndDatetimeWritten else Failed(b.result.error)))
    {
      if !connected {
        status := WriteConfigRefused;
        return;
      }
      ghost var before := device.Snapshot();
      StatusErrorsOnOpenPort(before.(buffer := ConfigFrame(s)), WriteConfigOk, Command.WriteConfig);
      var r := device.WriteConfig(s, now);
      if r.Err? {
        assert CaughtByWrite(r.error);
        status := Failed(r.error);
        return;
      }
      status := ConfigWritten;
      ghost var written := device.Snapshot();
      StatusErrorsOnOpenPort(written.(buffer := DatetimeFrame(s.timestamp)), WriteDatetimeOk, Command.WriteDatetime);
      var r2 := device.WriteDatetime(s.timestamp, now);
      if r2.Err? {
        assert CaughtByWrite(r2.error);
        status := Failed(r2.error);
        return;
      }
      status := ConfigAndDatetimeWritten;
    }

    /** `read_offsets`: refused while disconnected; otherwise the logger's
        offsets are read and kept. Only an `IOError` is caught. */
    method ReadOffsets(now: int) returns (escaped: Option<Error>)
      requires Valid()
      modifies this, device
      ensures Valid() && connected == old(connected)
      ensures deviceData == old(deviceData) && deviceConfig == old(deviceConfig)
      ensures !old(connected) ==>
        status == ReadOffsetsRefused && escaped.None? && unchanged(device) && deviceOffsets == old(deviceOffsets)
      ensures old(connected) ==>
        var a := ReadOffsetsSpec(old(device.Snapshot()));
        device.Snapshot() == a.state &&
        device.lastOpTime == (if a.result.Ok? then now else old(device.lastOpTime)) &&
        (a.result.Ok? ==> deviceOffsets == Some(a.result.value) && status == OffsetsRead && escaped.None?) &&
        (a.result.Err? ==> deviceOffsets == old(deviceOffsets)) &&
        (a.result.Err? && CaughtByRead(a.result.error) ==> status == Failed(a.result.error) && escaped.None?) &&
        (a.result.Err? && !CaughtByRead(a.result.error) ==> status == old(status) && escaped == Some(a.result.error))
      ensures escaped.Some? ==> escaped.value == ValueError(ShortWrite) || DecodeError(escaped.value)
    {
      if !connected {
        status := ReadOffsetsRefused;
        return None;
      }
      ReadOffsetsErrorsOnOpenPort(device.Snapshot());
      var r := device.ReadOffsets(now);
      if r.Err? {
        if CaughtByRead(r.error) {
          status := Failed(r.error);
          return None;
        }
        return Some(r.error);
      }
      deviceOffsets := Some(r.value);
      status := OffsetsRead;
      return None;
    }

    /** `write_offsets`: refused while disconnected; otherwise the offsets
        are written, and success is reported with the configuration
        message. Nothing escapes while connected: a negative offset, which
        the source encodes above 255, ends as the caught `ValueError`. */
    method WriteOffsets(o: OffsetSettings, now: int)
      requires Valid()
      modifies this, device
      ensures Valid() && connected == old(connected) && Held() == old(Held())
      ensures !old(connected) ==> status == WriteOffsetsRefused && unchanged(device)
      ensures old(connected) ==>
        var a := WriteOffsetsSpec(old(device.Snapshot()), o);
        device.Snapshot() == a.state &&
        device.lastOpTime == (if a.result.Ok? then now else old(device.lastOpTime)) &&
        status == (if a.result.Ok? then ConfigWritten else Failed(a.result.error))
      ensures old(connected) && CheckOffsets(o).None? && !NoNegativeOffset(o) ==>
        status == Failed(ValueError(ByteRange)) && device.port == old(device.port)
    {
      if !connected {
        status := WriteOffsetsRefused;
        return;
      }
      StatusErrorsOnOpenPort(device.Snapshot().(buffer := OffsetsFrameAsWritten(o)), WriteOffsetsOk, Command.WriteOffsets);
      var r := device.WriteOffsets(o, now);
      if r.Err? {
        assert CaughtByWrite(r.error);
        status := Failed(r.error);
        return;
      }
      status := ConfigWritten;
    }
  }
}
