/**
 * The field codecs of the UT330 protocol: little-endian words, signed bytes,
 * the two's-complement temperature word, the space-padded device name and
 * the six-byte timestamp. Readings the driver turns into floats divided by
 * ten (temperatures, humidities, pressures, offsets) are kept here as the
 * integer number of tenths.
 */
module Fields {
  import opened Errors

  /** One element of what the serial port returns. */
  type byte = x: int | 0 <= x < 256

  predicate IsByte(x: int) {
    0 <= x < 256
  }

  /** What `bytearray(...)` accepts: every element is in 0..255. */
  predicate AllBytes(s: seq<int>) {
    forall i :: 0 <= i < |s| ==> IsByte(s[i])
  }

  // ---------------------------------------------------------------------
  // Little-endian words
  // ---------------------------------------------------------------------

  /** A 16-bit little-endian word, `lo + 256*hi`. */
  function Le16(lo: byte, hi: byte): (v: int)
    ensures 0 <= v < 0x1_0000
    ensures v % 256 == lo && v / 256 == hi
  {
    lo + 256 * hi
  }

  /** A 24-bit little-endian field, as `read_config` computes the sampling
      interval and the delay timing. */
  function Le24(b0: byte, b1: byte, b2: byte): (v: int)
    ensures 0 <= v < 0x100_0000
  {
    b0 + 256 * b1 + 65536 * b2
  }

  /** The 32-bit little-endian byte count in the header of a data download. */
  function Le32(b0: byte, b1: byte, b2: byte, b3: byte): (v: int)
    ensures 0 <= v < 0x1_0000_0000
  {
    b0 + 256 * b1 + 65536 * b2 + 16777216 * b3
  }

  /** The four bytes of a 32-bit count, low byte first, as the logger
      sends the length in the header of a data download. */
  function SplitLe32(v: int): (s: seq<byte>)
    ensures |s| == 4
  {
    [v % 256, (v / 256) % 256, (v / 65536) % 256, (v / 16777216) % 256]
  }

  /** A count below 2^32, sent as four bytes and read as `read_data` reads
      the header, comes back unchanged. */
  lemma SplitThenLe32(v: int)
    requires 0 <= v < 0x1_0000_0000
    ensures var s := SplitLe32(v); Le32(s[0], s[1], s[2], s[3]) == v
  {
    var q := v / 256;
    var r := q / 256;
    assert v == q * 256 + v % 256;
    assert q == r * 256 + q % 256;
    assert r == (r / 256) * 256 + r % 256;
    assert r == v / 65536 && r / 256 == v / 16777216;
  }

  /** Four header bytes read as a count and split again come back
      unchanged. */
  lemma Le32ThenSplit(b0: byte, b1: byte, b2: byte, b3: byte)
    ensures SplitLe32(Le32(b0, b1, b2, b3)) == [b0, b1, b2, b3]
  {
    var v := Le32(b0, b1, b2, b3);
    assert v == b0 + 256 * (b1 + 256 * (b2 + 256 * b3));
    assert v / 256 == b1 + 256 * (b2 + 256 * b3);
    assert v / 65536 == (v / 256) / 256 == b2 + 256 * b3;
    assert v / 16777216 == (v / 65536) / 256 == b3;
  }

  /** How `write_config` splits a 24-bit field: `v & 0xff`,
      `(v & 0x00ff00) >> 8` and `(v & 0xff0000) >> 16`. Masking a Python
      integer with `0xff` after a floor shift is the Euclidean remainder used
      here, for negative integers too. */
  function SplitLe24(v: int): (s: seq<byte>)
    ensures |s| == 3
  {
    [v % 256, (v / 256) % 256, (v / 65536) % 256]
  }

  /** Splitting a value below 2^24 and reading it back gives the value. */
  lemma SplitThenLe24(v: int)
    requires 0 <= v < 0x100_0000
    ensures var s := SplitLe24(v); Le24(s[0], s[1], s[2]) == v
  {
    var q := v / 256;
    assert v == q * 256 + v % 256;
    assert q == (q / 256) * 256 + q % 256;
    assert q / 256 == v / 65536;
  }

  /** Reading three bytes and splitting the value gives the bytes back. */
  lemma Le24ThenSplit(b0: byte, b1: byte, b2: byte)
    ensures SplitLe24(Le24(b0, b1, b2)) == [b0, b1, b2]
  {
    var v := Le24(b0, b1, b2);
    assert v == b0 + 256 * (b1 + 256 * b2);
    assert v / 256 == b1 + 256 * b2;
    assert v / 65536 == (v / 256) / 256;
  }

  // ---------------------------------------------------------------------
  // Signed bytes: temperature alarms and offsets
  // ---------------------------------------------------------------------

  /** A two's-complement byte: `b` when below 128, `b - 256` otherwise. The
      high alarm (`b < 128`), the low alarm (`b >= 128`) and the three
      offsets of the source all reduce to this one decoder. */
  function DecodeSigned(b: byte): (t: int)
    ensures -128 <= t < 128 && t % 256 == b
  {
    if b < 128 then b else b - 256
  }

  /** The alarm encoding of `write_config`: `t` when not negative, `256 + t`
      otherwise. It maps [-128, 127] onto the bytes and inverts
      `DecodeSigned` there. */
  function EncodeSigned(t: int): (b: int)
    ensures b % 256 == t % 256
    ensures -128 <= t < 128 ==> IsByte(b) && DecodeSigned(b) == t
  {
    if t >= 0 then t else 256 + t
  }

  // ---------------------------------------------------------------------
  // The temperature word
  // ---------------------------------------------------------------------

  /** `_get_temperature` on the bytes `lo` (at the index) and `hi` (after it),
      in tenths of a degree: negated one's complement plus one when the sign
      bit of `hi` is set, the plain word otherwise. On a byte, `x ^ 0xff` is
      `255 - x`. It is the 16-bit two's
      complement reading of the word `lo + 256*hi`. */
  function Temperature(lo: byte, hi: byte): (t: int)
    ensures -32768 <= t < 32768
    ensures t == Le16(lo, hi) - (if hi >= 128 then 0x1_0000 else 0)
  {
    if hi >= 128 then -(256 * (255 - hi) + (255 - lo) + 1) else 256 * hi + lo
  }

  /** The two bytes, low first, that `_get_temperature` reads as `t`. */
  function TemperatureWord(t: int): (w: seq<byte>)
    requires -32768 <= t < 32768
    ensures |w| == 2 && Temperature(w[0], w[1]) == t
  {
    var u := t % 0x1_0000;
    assert u == if t < 0 then t + 0x1_0000 else t;
    assert u == 256 * (u / 256) + t % 256;
    [t % 256, u / 256]
  }

  /** Every pair of bytes is the word of the temperature it decodes to, so
      `Temperature` is a bijection onto [-32768, 32767]. */
  lemma TemperatureWordOfTemperature(lo: byte, hi: byte)
    ensures TemperatureWord(Temperature(lo, hi)) == [lo, hi]
  {
    var t := Temperature(lo, hi);
    assert t % 0x1_0000 == Le16(lo, hi);
  }

  // ---------------------------------------------------------------------
  // The device name
  // ---------------------------------------------------------------------

  /** Python's `str.isspace` on one character, the set `str.strip()` removes. */
  predicate IsSpace(c: char) {
    ('\t' <= c <= '\r') || ('\U{1C}' <= c <= '\U{1F}') || c == ' ' ||
    c == '\U{85}' || c == '\U{A0}' || c == '\U{1680}' ||
    ('\U{2000}' <= c <= '\U{200A}') || c == '\U{2028}' || c == '\U{2029}' ||
    c == '\U{202F}' || c == '\U{205F}' || c == '\U{3000}'
  }

  /** The end of the run of whitespace in `s` that starts at `i`. */
  function SkipSpaces(s: string, i: nat): (n: nat)
    requires i <= |s|
    ensures i <= n <= |s|
    ensures forall k :: i <= k < n ==> IsSpace(s[k])
    ensures n < |s| ==> !IsSpace(s[n])
    decreases |s| - i
  {
    if i < |s| && IsSpace(s[i]) then SkipSpaces(s, i + 1) else i
  }

  /** The start of the run of whitespace in `s` that ends at `j`, not going
      below `lo`. */
  function SkipSpacesBack(s: string, lo: nat, j: nat): (n: nat)
    requires lo <= j <= |s|
    ensures lo <= n <= j
    ensures forall k :: n <= k < j ==> IsSpace(s[k])
    ensures n > lo ==> !IsSpace(s[n - 1])
    decreases j
  {
    if j > lo && IsSpace(s[j - 1]) then SkipSpacesBack(s, lo, j - 1) else j
  }

  /** Python's `str.strip()`: whitespace removed from both ends. What remains
      is a slice of `s` that starts and ends with a non-space character, and
      everything cut away is whitespace. */
  function Strip(s: string): (r: string)
    ensures exists i :: TrimmedAt(s, i, r)
    ensures r != [] ==> !IsSpace(r[0]) && !IsSpace(r[|r| - 1])
  {
    var a := SkipSpaces(s, 0);
    var e := SkipSpacesBack(s, a, |s|);
    assert TrimmedAt(s, a, s[a..e]);
    s[a..e]
  }

  /** `r` is the slice of `s` at `i`, and everything of `s` outside the
      slice is whitespace. */
  predicate TrimmedAt(s: string, i: int, r: string) {
    0 <= i <= |s| - |r| && r == s[i..i + |r|] &&
    (forall k :: 0 <= k < i ==> IsSpace(s[k])) &&
    (forall k :: i + |r| <= k < |s| ==> IsSpace(s[k]))
  }

  /** A run of `n` spaces followed by a non-space is skipped to its end. */
  lemma {:induction false} SkipLeadingSpaces(s: string, n: nat, i: nat)
    requires i <= n < |s|
    requires (forall k :: 0 <= k < n ==> s[k] == ' ') && !IsSpace(s[n])
    ensures SkipSpaces(s, i) == n
    decreases n - i
  {
    if i < n {
      SkipLeadingSpaces(s, n, i + 1);
    }
  }

  /** `n` space characters. */
  function Spaces(n: nat): (s: string)
    ensures |s| == n && forall i :: 0 <= i < n ==> s[i] == ' '
  {
    seq(n, _ => ' ')
  }

  /** The name as `config['device name'][0:10].rjust(10, ' ')` lays it out,
      as characters. */
  function PaddedName(name: string): (p: string)
    ensures |p| == 10
  {
    var cut := if |name| <= 10 then name else name[..10];
    Spaces(10 - |cut|) + cut
  }

  /** `ord` of each character. */
  function Codes(s: string): (codes: seq<int>)
    ensures |codes| == |s| && forall k :: 0 <= k < |s| ==> codes[k] == s[k] as int
  {
    seq(|s|, k requires 0 <= k < |s| => s[k] as int)
  }

  /** The bytes `write_config` stores for the name: `ord` of each character
      of the padded name. A character beyond U+00FF gives a value that is
      not a byte. */
  function NameCodes(name: string): (codes: seq<int>)
    ensures |codes| == 10
  {
    Codes(PaddedName(name))
  }

  /** `chr` of each byte. */
  function Chars(bs: seq<byte>): (s: string)
    ensures |s| == |bs| && forall k :: 0 <= k < |bs| ==> s[k] as int == bs[k]
  {
    seq(|bs|, k requires 0 <= k < |bs| => bs[k] as char)
  }

  /** `buf[i:i+10]` with Python's clamping: a slice past the end is shorter,
      or empty, and never fails. */
  function Slice10(buf: seq<byte>, i: nat): (s: seq<byte>)
    ensures |s| <= 10
    ensures i + 10 <= |buf| ==> s == buf[i..i + 10]
  {
    if i >= |buf| then [] else buf[i..if i + 10 <= |buf| then i + 10 else |buf|]
  }

  /** `_get_name`: the ten bytes at `i` as characters, stripped. */
  function GetName(buf: seq<byte>, i: nat): (name: string)
    ensures |name| <= 10
    ensures name != [] ==> !IsSpace(name[0]) && !IsSpace(name[|name| - 1])
  {
    Strip(Chars(Slice10(buf, i)))
  }

  /** A name `write_config` accepts and can store (one to ten characters,
      each at most U+00FF) and that has no whitespace at either end. */
  predicate StorableName(name: string) {
    1 <= |name| <= 10 &&
    (forall k :: 0 <= k < |name| ==> name[k] as int < 256) &&
    !IsSpace(name[0]) && !IsSpace(name[|name| - 1])
  }

  /** The stored name reads back: `_get_name` strips exactly the padding
      `write_config` adds. */
  lemma NameRoundTrip(name: string, buf: seq<byte>, i: nat)
    requires StorableName(name)
    requires i + 10 <= |buf| && buf[i..i + 10] == NameCodes(name)
    ensures GetName(buf, i) == name
  {
    var padded := PaddedName(name);
    var m := 10 - |name|;
    assert Slice10(buf, i) == Codes(padded);
    assert padded == Spaces(m) + name;
    CharsOfCodes(padded);
    SkipLeadingSpaces(padded, m, 0);
    assert padded[m..10] == name;
  }

  /** `chr` undoes `ord` on characters up to U+00FF. */
  lemma CharsOfCodes(s: string)
    requires forall k :: 0 <= k < |s| ==> s[k] as int < 256
    ensures AllBytes(Codes(s)) && Chars(Codes(s)) == s
  {
    var c := Chars(Codes(s));
    forall k | 0 <= k < |s| ensures c[k] == s[k] {
      assert c[k] as int == s[k] as int;
    }
  }

  // ---------------------------------------------------------------------
  // The timestamp
  // ---------------------------------------------------------------------

  datatype DateTime = DateTime(year: int, month: int, day: int, hour: int, minute: int, second: int)

  predicate IsLeap(year: int) {
    year % 4 == 0 && (year % 100 != 0 || year % 400 == 0)
  }

  function DaysInMonth(year: int, month: int): (days: int)
    requires 1 <= month <= 12
    ensures 28 <= days <= 31
  {
    if month == 2 then (if IsLeap(year) then 29 else 28)
    else if month == 4 || month == 6 || month == 9 || month == 11 then 30
    else 31
  }

  /** The fields Python's `datetime` constructor accepts. */
  predicate ValidDateTime(dt: DateTime) {
    1 <= dt.year <= 9999 && 1 <= dt.month <= 12 &&
    1 <= dt.day <= DaysInMonth(dt.year, dt.month) &&
    0 <= dt.hour < 24 && 0 <= dt.minute < 60 && 0 <= dt.second < 60
  }

  /** The six values `write_datetime` stores at bytes 4..9. */
  function DateTimeBytes(dt: DateTime): (s: seq<int>)
    ensures |s| == 6
  {
    [dt.year - 2000, dt.month, dt.day, dt.hour, dt.minute, dt.second]
  }

  /** `_get_datetime`: year 2000 plus the byte at `i`, then month, day, hour,
      minute and second. A missing byte raises `IndexError` before the
      constructor runs; fields the constructor refuses raise `ValueError`. */
  function GetDateTime(buf: seq<byte>, i: nat): (r: Result<DateTime>)
    ensures r.Ok? ==> i + 6 <= |buf| && ValidDateTime(r.value) && DateTimeBytes(r.value) == buf[i..i + 6]
    ensures r.Err? && i + 6 > |buf| ==> r.error == IndexError
    ensures r.Err? && i + 6 <= |buf| ==>
      r.error == ValueError(BadDateTime) &&
      forall dt :: DateTimeBytes(dt) == buf[i..i + 6] ==> !ValidDateTime(dt)
  {
    if i + 6 > |buf| then Err(IndexError)
    else
      var dt := DateTime(2000 + buf[i] as int, buf[i + 1], buf[i + 2], buf[i + 3], buf[i + 4], buf[i + 5]);
      assert forall d :: DateTimeBytes(d) == buf[i..i + 6] ==> d == dt by {
        forall d | DateTimeBytes(d) == buf[i..i + 6] ensures d == dt {
          assert DateTimeBytes(d)[0] == buf[i];
          assert DateTimeBytes(d)[1] == buf[i + 1];
          assert DateTimeBytes(d)[2] == buf[i + 2];
          assert DateTimeBytes(d)[3] == buf[i + 3];
          assert DateTimeBytes(d)[4] == buf[i + 4];
          assert DateTimeBytes(d)[5] == buf[i + 5];
        }
      }
      if ValidDateTime(dt) then Ok(dt) else Err(ValueError(BadDateTime))
  }

  /** A timestamp of the years 2000..2255 that `write_datetime` stored reads
      back through `_get_datetime` unchanged. */
  lemma DateTimeRoundTrip(dt: DateTime, buf: seq<byte>, i: nat)
    requires ValidDateTime(dt) && 2000 <= dt.year <= 2255
    requires i + 6 <= |buf| && buf[i..i + 6] == DateTimeBytes(dt)
    ensures GetDateTime(buf, i) == Ok(dt)
  {
    assert buf[i] == DateTimeBytes(dt)[0];
    assert buf[i + 1] == DateTimeBytes(dt)[1];
    assert buf[i + 2] == DateTimeBytes(dt)[2];
    assert buf[i + 3] == DateTimeBytes(dt)[3];
    assert buf[i + 4] == DateTimeBytes(dt)[4];
    assert buf[i + 5] == DateTimeBytes(dt)[5];
  }
}
