/** The UECP frame envelope shared by all three encoders: a four-byte header
    `[address hi, address lo, 0x00, length]`, the message, the checksum of both
    (high byte first), the whole stuffed and wrapped in 0xFE ... 0xFF. The
    receiver side (`Parse`) is not in the source; it is the partner that says
    what the envelope means. */
module Frame {
  import opened Bytes
  import opened Wrappers
  import opened Crc
  import opened Stuffing

  /** The header for an encoder address and a message length; both are cut to
      their field widths here, the callers decide what to do with values that
      do not fit. */
  function Header(addr: int, len: int): (h: seq<byte>)
    ensures |h| == 4 && h[2] == 0
  {
    [LowByte(addr / 256), LowByte(addr), 0, LowByte(len)]
  }

  /** Append the checksum of `payload`, stuff, and add the delimiters. */
  function Seal(payload: seq<byte>): (f: seq<byte>)
    ensures |f| == |payload| + 4 + CountReserved(payload + CrcBytes(Crc16(payload, POLY, INIT)))
    ensures f[0] == START && f[|f| - 1] == STOP
  {
    [START] + Stuff(payload + CrcBytes(Crc16(payload, POLY, INIT))) + [STOP]
  }

  /** What a receiver recovers from a well-formed frame. */
  datatype Decoded = Decoded(addr: int, msg: seq<byte>)

  /** A receiver: check both delimiters, remove the escapes, then check the
      body. */
  function Parse(f: seq<byte>): Option<Decoded>
  {
    if |f| < 2 || f[0] != START || f[|f| - 1] != STOP then None
    else
      match Unstuff(f[1..|f| - 1])
      case None => None
      case Some(body) => CheckBody(body)
  }

  /** The checks on an unstuffed body: the reserved header byte, the length
      byte and the checksum. */
  function CheckBody(body: seq<byte>): Option<Decoded>
  {
    if |body| < 6 || body[2] != 0 || body[3] as int != |body| - 6 then None
    else if body[|body| - 2..] != CrcBytes(Crc16(body[..|body| - 2], POLY, INIT)) then None
    else Some(Decoded(body[0] as int * 256 + body[1] as int, body[4..|body| - 2]))
  }

  /** The body checks accept a header, a message and its checksum exactly
      when the length byte holds the message length. */
  lemma CheckSealedBody(addr: int, msg: seq<byte>)
    requires 0 <= addr <= 0xFFFF
    ensures var payload := Header(addr, |msg|) + msg;
      CheckBody(payload + CrcBytes(Crc16(payload, POLY, INIT)))
      == if |msg| <= 255 then Some(Decoded(addr, msg)) else None
  {
    var payload := Header(addr, |msg|) + msg;
    var body := payload + CrcBytes(Crc16(payload, POLY, INIT));
    HeaderFields(addr, |msg|);
    BodyHeader(Header(addr, |msg|), msg, body);
    if |msg| <= 255 {
      assert body[4..|body| - 2] == msg;
      ChecksumMatches(payload, body);
      CheckBodyAccepts(body);
    }
  }

  /** The first four bytes of a body are its header. */
  lemma BodyHeader(h: seq<byte>, msg: seq<byte>, body: seq<byte>)
    requires |h| == 4 && body == h + msg + CrcBytes(Crc16(h + msg, POLY, INIT))
    ensures |body| == |msg| + 6
    ensures body[0] == h[0] && body[1] == h[1] && body[2] == h[2] && body[3] == h[3]
  {
  }

  /** A body whose header byte, length byte and checksum are right is
      accepted with the address and message it carries. */
  lemma CheckBodyAccepts(body: seq<byte>)
    requires |body| >= 6 && body[2] == 0 && body[3] as int == |body| - 6
    requires body[|body| - 2..] == CrcBytes(Crc16(body[..|body| - 2], POLY, INIT))
    ensures CheckBody(body) == Some(Decoded(body[0] as int * 256 + body[1] as int, body[4..|body| - 2]))
  {
  }

  /** A body made of a payload and its checksum passes the checksum test. */
  lemma ChecksumMatches(payload: seq<byte>, body: seq<byte>)
    requires body == payload + CrcBytes(Crc16(payload, POLY, INIT))
    ensures body[|body| - 2..] == CrcBytes(Crc16(body[..|body| - 2], POLY, INIT))
  {
    assert body[..|body| - 2] == payload;
  }

  /** The header's address bytes read back as the address, and its length
      byte as the length modulo 256. */
  lemma HeaderFields(addr: int, len: int)
    requires 0 <= addr <= 0xFFFF
    ensures var h := Header(addr, len);
      h[0] as int * 256 + h[1] as int == addr && h[3] as int == len % 256
    ensures 0 <= len <= 255 ==> Header(addr, len)[3] as int == len
    ensures len > 255 ==> Header(addr, len)[3] as int != len
  {
    var h := Header(addr, len);
    var hi, lo := LowByte(addr / 256), LowByte(addr);
    assert h[0] == hi && h[1] == lo;
    SplitAddress(addr, hi as int, lo as int);
  }

  /** The two address bytes, as integers, put the address back together. */
  lemma SplitAddress(addr: int, hi: int, lo: int)
    requires 0 <= addr <= 0xFFFF && hi == (addr / 256) % 256 && lo == addr % 256
    ensures hi * 256 + lo == addr
  {
    TwoDigits(addr);
  }

  /** A sealed frame parses back to its address and message exactly when the
      message fits the one-byte length field. */
  lemma ParseSeal(addr: int, msg: seq<byte>)
    requires 0 <= addr <= 0xFFFF
    ensures Parse(Seal(Header(addr, |msg|) + msg))
            == if |msg| <= 255 then Some(Decoded(addr, msg)) else None
  {
    var payload := Header(addr, |msg|) + msg;
    var body := payload + CrcBytes(Crc16(payload, POLY, INIT));
    var f := Seal(payload);
    assert f[1..|f| - 1] == Stuff(body);
    UnstuffStuff(body);
    CheckSealedBody(addr, msg);
  }

  /** Inside a frame every 0xFE or 0xFF is followed by 0xFD, so the closing
      0xFF is the only one that is not. */
  lemma InteriorDelimitersEscaped(payload: seq<byte>, i: nat)
    requires var f := Seal(payload); 0 < i < |f| - 1 && IsReserved(f[i])
    ensures var f := Seal(payload); f[i + 1] == ESCAPE
  {
    var body := payload + CrcBytes(Crc16(payload, POLY, INIT));
    var f := Seal(payload);
    assert f[i] == Stuff(body)[i - 1];
    StuffEscapesReserved(body, i - 1);
    assert f[i + 1] == Stuff(body)[i];
  }
}
