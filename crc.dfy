/**
 * The Modbus CRC16 used to guard every UT330 command frame: a table-driven
 * implementation over the reflected polynomial 0xA001 with initial value
 * 0xFFFF, as in section 6.2.2 of the Modbus over Serial Line specification
 * (V1.02). The register is a 16-bit word: every table entry and every
 * `crc >> 8` fits in 16 bits, so the source's Python integers never exceed it.
 */
module Crc {

  /** One shift round of the bitwise algorithm of section 6.2.2: shift the
      register right by one bit and, when the bit shifted out was 1, XOR the
      polynomial 0xA001 into it. Written without a branch: `0 - (r & 1)` is
      all ones exactly when the low bit is set. */
  function ShiftRound(r: bv16): bv16 {
    (r >> 1) ^ ((0 - (r & 1)) & 0xA001)
  }

  /** Eight shift rounds: what section 6.2.2 does to the register after one
      byte has been XORed into its low half. */
  function EightRounds(r: bv16): bv16 {
    ShiftRound(ShiftRound(ShiftRound(ShiftRound(ShiftRound(ShiftRound(ShiftRound(ShiftRound(r))))))))
  }

  lemma EightRoundsSplit(x: bv16)
    ensures EightRounds(x) == (x >> 8) ^ EightRounds(x & 0xFF)
  {
  }

  /** The lookup table `TABLE` of UT330.py, one row per source line. */
  const Rows: seq<seq<bv16>> := [
    [0x0000, 0xC0C1, 0xC181, 0x0140, 0xC301, 0x03C0, 0x0280, 0xC241],
    [0xC601, 0x06C0, 0x0780, 0xC741, 0x0500, 0xC5C1, 0xC481, 0x0440],
    [0xCC01, 0x0CC0, 0x0D80, 0xCD41, 0x0F00, 0xCFC1, 0xCE81, 0x0E40],
    [0x0A00, 0xCAC1, 0xCB81, 0x0B40, 0xC901, 0x09C0, 0x0880, 0xC841],
    [0xD801, 0x18C0, 0x1980, 0xD941, 0x1B00, 0xDBC1, 0xDA81, 0x1A40],
    [0x1E00, 0xDEC1, 0xDF81, 0x1F40, 0xDD01, 0x1DC0, 0x1C80, 0xDC41],
    [0x1400, 0xD4C1, 0xD581, 0x1540, 0xD701, 0x17C0, 0x1680, 0xD641],
    [0xD201, 0x12C0, 0x1380, 0xD341, 0x1100, 0xD1C1, 0xD081, 0x1040],
    [0xF001, 0x30C0, 0x3180, 0xF141, 0x3300, 0xF3C1, 0xF281, 0x3240],
    [0x3600, 0xF6C1, 0xF781, 0x3740, 0xF501, 0x35C0, 0x3480, 0xF441],
    [0x3C00, 0xFCC1, 0xFD81, 0x3D40, 0xFF01, 0x3FC0, 0x3E80, 0xFE41],
    [0xFA01, 0x3AC0, 0x3B80, 0xFB41, 0x3900, 0xF9C1, 0xF881, 0x3840],
    [0x2800, 0xE8C1, 0xE981, 0x2940, 0xEB01, 0x2BC0, 0x2A80, 0xEA41],
    [0xEE01, 0x2EC0, 0x2F80, 0xEF41, 0x2D00, 0xEDC1, 0xEC81, 0x2C40],
    [0xE401, 0x24C0, 0x2580, 0xE541, 0x2700, 0xE7C1, 0xE681, 0x2640],
    [0x2200, 0xE2C1, 0xE381, 0x2340, 0xE101, 0x21C0, 0x2080, 0xE041],
    [0xA001, 0x60C0, 0x6180, 0xA141, 0x6300, 0xA3C1, 0xA281, 0x6240],
    [0x6600, 0xA6C1, 0xA781, 0x6740, 0xA501, 0x65C0, 0x6480, 0xA441],
    [0x6C00, 0xACC1, 0xAD81, 0x6D40, 0xAF01, 0x6FC0, 0x6E80, 0xAE41],
    [0xAA01, 0x6AC0, 0x6B80, 0xAB41, 0x6900, 0xA9C1, 0xA881, 0x6840],
    [0x7800, 0xB8C1, 0xB981, 0x7940, 0xBB01, 0x7BC0, 0x7A80, 0xBA41],
    [0xBE01, 0x7EC0, 0x7F80, 0xBF41, 0x7D00, 0xBDC1, 0xBC81, 0x7C40],
    [0xB401, 0x74C0, 0x7580, 0xB541, 0x7700, 0xB7C1, 0xB681, 0x7640],
    [0x7200, 0xB2C1, 0xB381, 0x7340, 0xB101, 0x71C0, 0x7080, 0xB041],
    [0x5000, 0x90C1, 0x9181, 0x5140, 0x9301, 0x53C0, 0x5280, 0x9241],
    [0x9601, 0x56C0, 0x5780, 0x9741, 0x5500, 0x95C1, 0x9481, 0x5440],
    [0x9C01, 0x5CC0, 0x5D80, 0x9D41, 0x5F00, 0x9FC1, 0x9E81, 0x5E40],
    [0x5A00, 0x9AC1, 0x9B81, 0x5B40, 0x9901, 0x59C0, 0x5880, 0x9841],
    [0x8801, 0x48C0, 0x4980, 0x8941, 0x4B00, 0x8BC1, 0x8A81, 0x4A40],
    [0x4E00, 0x8EC1, 0x8F81, 0x4F40, 0x8D01, 0x4DC0, 0x4C80, 0x8C41],
    [0x4400, 0x84C1, 0x8581, 0x4540, 0x8701, 0x47C0, 0x4680, 0x8641],
    [0x8201, 0x42C0, 0x4380, 0x8341, 0x4100, 0x81C1, 0x8081, 0x4040]
  ]

  lemma RowsShape()
    ensures |Rows| == 32 && forall r :: 0 <= r < 32 ==> |Rows[r]| == 8
  {
  }

  /** Entry `i` of `TABLE`. */
  function Table(i: bv16): bv16
    requires i < 256
  {
    RowsShape();
    Rows[(i / 8) as int][(i % 8) as int]
  }

  /** Every entry of the source's table is what the bitwise algorithm makes
      of its index byte: the table is the standard reflected 0xA001 table. */
  lemma TableIsReflectedA001(i: bv16)
    requires i < 256
    ensures Table(i) == EightRounds(i)
  {
  }

  /** The low byte of one of the source's integers, `number & 0xFF`. Dafny's
      `%` is Euclidean, which is what Python's `& 0xFF` does for negative
      integers too. */
  function LowByte(number: int): (w: bv16)
    ensures w < 256
  {
    (number % 256) as bv16
  }

  /** One iteration of the loop in `modbusCRC`,
      `crc = (crc >> 8) ^ TABLE[(crc ^ number) & 0xFF]`, for a number whose
      low byte is `w`. */
  function TableStep(crc: bv16, w: bv16): bv16
    requires w < 256
  {
    (crc >> 8) ^ Table((crc ^ w) & 0xFF)
  }

  /** One byte of the bitwise algorithm of section 6.2.2: XOR the byte into
      the low half of the register, then eight shift rounds. */
  function BitwiseStep(crc: bv16, w: bv16): bv16
    requires w < 256
  {
    EightRounds(crc ^ w)
  }

  /** One table step, unfolded, agrees with one bitwise step. */
  lemma StepsAgreeWord(crc: bv16, w: bv16)
    requires w < 256
    ensures (crc >> 8) ^ Table((crc ^ w) & 0xFF) == EightRounds(crc ^ w)
  {
    var x := (crc ^ w) & 0xFF;
    TableIsReflectedA001(x);
    EightRoundsSplit(crc ^ w);
  }

  /** The table step and the bitwise step agree on every register and byte. */
  lemma StepsAgree(crc: bv16, w: bv16)
    requires w < 256
    ensures TableStep(crc, w) == BitwiseStep(crc, w)
  {
    StepsAgreeWord(crc, w);
  }

  /** The final register of `modbusCRC(data)`: 0xFFFF, then one table step
      per element of `data`, first to last. */
  function Register(data: seq<int>): bv16 {
    if |data| == 0 then 0xFFFF else TableStep(Register(data[..|data| - 1]), LowByte(data[|data| - 1]))
  }

  /** The same register computed with the bitwise algorithm. */
  function BitwiseRegister(data: seq<int>): bv16 {
    if |data| == 0 then 0xFFFF else BitwiseStep(BitwiseRegister(data[..|data| - 1]), LowByte(data[|data| - 1]))
  }

  /** The table-driven CRC of the source is the Modbus CRC of section 6.2.2
      on every input. */
  lemma {:induction false} RegisterIsModbusCrc(data: seq<int>)
    ensures Register(data) == BitwiseRegister(data)
  {
    if |data| > 0 {
      RegisterIsModbusCrc(data[..|data| - 1]);
      StepsAgree(Register(data[..|data| - 1]), LowByte(data[|data| - 1]));
    }
  }

  /** Appending one byte to `data` moves the register by one step of the
      bitwise algorithm; used to evaluate the CRC of concrete frames. */
  lemma RegisterStep(data: seq<int>, x: int, before: bv16, after: bv16)
    requires 0 <= x < 256 && Register(data) == before
    requires BitwiseStep(before, x as bv16) == after
    ensures Register(data + [x]) == after
  {
    assert (data + [x])[..|data|] == data;
    assert LowByte(x) == x as bv16;
    StepsAgree(before, x as bv16);
  }

  /** `modbusCRC`: runs the table loop over `data` and returns the high and
      the low byte of the final register, in that order. Stored low byte
      first, they are the trailer of `data`. */
  method ModbusCrc(data: seq<int>) returns (msb: int, lsb: int)
    ensures 0 <= msb < 256 && 0 <= lsb < 256
    ensures msb * 256 + lsb == Register(data) as int
    ensures [lsb, msb] == Trailer(data)
  {
    var crc: bv16 := 0xFFFF;
    var i := 0;
    while i < |data|
      invariant 0 <= i <= |data|
      invariant crc == Register(data[..i])
    {
      assert data[..i + 1][..i] == data[..i];
      crc := TableStep(crc, LowByte(data[i]));
      i := i + 1;
    }
    assert data[..|data|] == data;
    msb := crc as int / 256;
    lsb := crc as int % 256;
  }

  /** A frame whose last two bytes are the CRC of everything before them, low
      byte first: the order in which every UT330 command stores it. */
  predicate CrcTrailerOk(frame: seq<int>) {
    |frame| >= 2 &&
    frame[|frame| - 2] + 256 * frame[|frame| - 1] == Register(frame[..|frame| - 2]) as int
  }

  /** The two bytes every UT330 command ends with: the CRC of the body, low
      byte first (`buffer[n+1], buffer[n] = modbusCRC(buffer[0:n])`). */
  function Trailer(body: seq<int>): (t: seq<int>)
    ensures |t| == 2 && 0 <= t[0] < 256 && 0 <= t[1] < 256
    ensures CrcTrailerOk(body + t)
  {
    var r := Register(body) as int;
    assert (body + [r % 256, r / 256])[..|body|] == body;
    [r % 256, r / 256]
  }

  /** A frame that carries its CRC and ends in two bytes is its body
      followed by the body's trailer. */
  lemma TrailerOfFrame(frame: seq<int>)
    requires CrcTrailerOk(frame)
    requires 0 <= frame[|frame| - 2] < 256 && 0 <= frame[|frame| - 1] < 256
    ensures frame[..|frame| - 2] + Trailer(frame[..|frame| - 2]) == frame
  {
    var n := |frame| - 2;
    var r := Register(frame[..n]) as int;
    assert r == frame[n] + 256 * frame[n + 1];
    assert r % 256 == frame[n] && r / 256 == frame[n + 1];
    assert Trailer(frame[..n]) == [frame[n], frame[n + 1]];
  }
}
