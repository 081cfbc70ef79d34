/**
 * The serial port the UT330 driver talks through, reduced to what the driver
 * relies on: a byte source (what the logger has sent and nobody has read
 * yet) and a byte sink (everything written so far). A read that times out
 * returns what has arrived. A write stops when the port's write room is used
 * up; the port either raises a timeout `IOError` then, or returns the short
 * count, and `timeoutRaises` says which.
 */
module Transport {
  import opened Errors
  import opened Fields

  function Min(a: int, b: int): int {
    if a <= b then a else b
  }

  /** The state of one pyserial `Serial` object. */
  datatype Port = Port(
    isOpen: bool,
    incoming: seq<byte>,   // sent by the logger, not yet read
    written: seq<byte>,    // every byte written to the logger, in order
    writeRoom: nat,        // bytes accepted before the write timeout expires
    readSizes: seq<nat>,   // the size of every read request, in order
    closeRefused: bool,    // the operating system refuses to close the handle
    timeoutRaises: bool)   // a write timeout raises instead of returning a short count

  datatype Received = Received(port: Port, result: Result<seq<byte>>)

  datatype Sent = Sent(port: Port, result: Result<nat>)

  /** `Serial.read(size)`: the first `size` bytes that have arrived, or fewer
      when the read timeout expires first; a closed port raises. */
  function Read(p: Port, size: nat): (x: Received)
    ensures x.result.Ok? <==> p.isOpen
    ensures x.result.Ok? ==>
      |x.result.value| == Min(size, |p.incoming|) &&
      p.incoming == x.result.value + x.port.incoming &&
      x.port == p.(incoming := x.port.incoming, readSizes := p.readSizes + [size])
    ensures x.result.Err? ==> x.port == p && x.result.error == IOError(PortNotOpen)
  {
    if !p.isOpen then Received(p, Err(IOError(PortNotOpen)))
    else
      var k := Min(size, |p.incoming|);
      assert p.incoming == p.incoming[..k] + p.incoming[k..];
      Received(p.(incoming := p.incoming[k..], readSizes := p.readSizes + [size]), Ok(p.incoming[..k]))
  }

  /** `Serial.write(data)`: the bytes that fit in the write room go out.
      The count of them is returned, unless the write timed out on a port
      that raises then; a closed port raises. */
  function Write(p: Port, data: seq<byte>): (x: Sent)
    ensures x.result.Ok? <==> p.isOpen && (|data| <= p.writeRoom || !p.timeoutRaises)
    ensures x.result.Ok? ==>
      x.result.value <= |data| && x.result.value <= p.writeRoom &&
      (x.result.value == |data| <==> |data| <= p.writeRoom) &&
      x.port.written == p.written + data[..x.result.value] &&
      x.port == p.(written := x.port.written, writeRoom := p.writeRoom - x.result.value)
    ensures !p.isOpen ==> x.port == p && x.result == Err(IOError(PortNotOpen))
    ensures p.isOpen && x.result.Err? ==>
      x.result.error == IOError(WriteTimeout) &&
      x.port == p.(written := p.written + data[..p.writeRoom], writeRoom := 0)
  {
    if !p.isOpen then Sent(p, Err(IOError(PortNotOpen)))
    else
      var k := Min(|data|, p.writeRoom);
      var q := p.(written := p.written + data[..k], writeRoom := p.writeRoom - k);
      if k < |data| && p.timeoutRaises then Sent(q, Err(IOError(WriteTimeout)))
      else Sent(q, Ok(k))
  }

  /** `Serial.close()`: closing a closed port does nothing; an open one is
      closed unless the operating system refuses, which raises. */
  function Close(p: Port): (x: (Port, Option<Error>))
    ensures x.1.None? <==> !(p.isOpen && p.closeRefused)
    ensures x.1.None? ==> x.0 == p.(isOpen := false)
    ensures x.1.Some? ==> x.0 == p && x.1.value == IOError(CloseFailed)
  {
    if p.isOpen && p.closeRefused then (p, Some(IOError(CloseFailed)))
    else (p.(isOpen := false), None)
  }

  // ---------------------------------------------------------------------
  // Paged reads
  // ---------------------------------------------------------------------

  /** The largest read `_read_buffer` asks for at once. */
  const PageSize: nat := 32768

  /** The read requests `_read_buffer(count)` makes: `count / 32768` whole
      pages, then the remainder (possibly an empty read). */
  function Pages(count: nat): (sizes: seq<nat>)
    ensures |sizes| == count / PageSize + 1
    ensures forall k :: 0 <= k < |sizes| - 1 ==> sizes[k] == PageSize
    ensures sizes[|sizes| - 1] == count % PageSize
  {
    seq(count / PageSize, _ => PageSize) + [count % PageSize]
  }

  function Sum(sizes: seq<nat>): nat {
    if sizes == [] then 0 else Sum(sizes[..|sizes| - 1]) + sizes[|sizes| - 1]
  }

  /** `n` whole pages hold `n * 32768` bytes. */
  lemma {:induction false} SumOfWholePages(sizes: seq<nat>)
    requires forall k :: 0 <= k < |sizes| ==> sizes[k] == PageSize
    ensures Sum(sizes) == |sizes| * PageSize
  {
    if sizes != [] {
      SumOfWholePages(sizes[..|sizes| - 1]);
    }
  }

  /** The pages `_read_buffer` asks for add up to exactly the byte count it
      was given. */
  lemma PagesTotal(count: nat)
    ensures Sum(Pages(count)) == count
  {
    var sizes := Pages(count);
    var whole := sizes[..|sizes| - 1];
    assert whole == seq(count / PageSize, _ => PageSize);
    SumOfWholePages(whole);
  }

  /** `p` after reads of the sizes `sizes` have taken its first `taken`
      bytes (or all of them, when fewer arrived). */
  function Drained(p: Port, taken: nat, sizes: seq<nat>): (q: Port)
    ensures q.isOpen == p.isOpen
  {
    p.(incoming := p.incoming[Min(taken, |p.incoming|)..], readSizes := p.readSizes + sizes)
  }

  /** One more read continues where the previous reads stopped. */
  lemma ReadMore(p: Port, taken: nat, sizes: seq<nat>, size: nat)
    requires p.isOpen
    ensures var x := Read(Drained(p, taken, sizes), size);
      x.result.Ok? && x.port == Drained(p, taken + size, sizes + [size]) &&
      p.incoming[..Min(taken, |p.incoming|)] + x.result.value ==
        p.incoming[..Min(taken + size, |p.incoming|)]
  {
    var m := Min(taken, |p.incoming|);
    var m' := Min(taken + size, |p.incoming|);
    var x := Read(Drained(p, taken, sizes), size);
    assert p.incoming[m..][Min(size, |p.incoming| - m)..] == p.incoming[m'..];
    assert p.incoming[..m] + p.incoming[m..][..m' - m] == p.incoming[..m'];
  }

  /** What `_read_buffer(count)` does to an open port: the first `count`
      bytes that arrived (or all of them, on a timeout) are taken, and the
      page-by-page requests are logged. */
  function ReadPages(p: Port, count: nat): (x: Received)
    requires p.isOpen
    ensures x.result.Ok? && |x.result.value| == Min(count, |p.incoming|)
    ensures p.incoming == x.result.value + x.port.incoming
    ensures x.port == p.(incoming := x.port.incoming, readSizes := p.readSizes + Pages(count))
    ensures x.port == Drained(p, count, Pages(count))
  {
    var k := Min(count, |p.incoming|);
    assert p.incoming == p.incoming[..k] + p.incoming[k..];
    Received(p.(incoming := p.incoming[k..], readSizes := p.readSizes + Pages(count)), Ok(p.incoming[..k]))
  }

  /** The paged read, as the port it leaves and the bytes it returns. */
  lemma ReadPagesParts(p: Port, count: nat)
    requires p.isOpen
    ensures ReadPages(p, count) == Received(Drained(p, count, Pages(count)), Ok(p.incoming[..Min(count, |p.incoming|)]))
  {
  }
}
