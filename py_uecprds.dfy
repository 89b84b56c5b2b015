/** The Python encoder class: the station fields with their setters, the
    frame builder, the six messages of a full update and their frames.
    Python integers are unbounded, so where the Go encoder cuts a value to a
    byte the Python one raises; the two errors it can raise are modelled as
    values. Opening the serial port and writing to it are not modelled. */
module PyUecprds {
  import opened Bytes
  import opened Wrappers
  import opened Crc
  import opened Stuffing
  import opened Frame
  import opened Rds
  import opened PyText
  import Pkg = GoUecprds

  /** `int.to_bytes` refuses values that do not fit (OverflowError) and
      `bytes([...])` refuses items outside 0..255 (ValueError). */
  datatype PyError = OverflowError | ValueError

  /** `pty & 0x1F`: the low five bits, for negative values too. */
  function MaskPty(pty: int): (r: int)
    ensures 0 <= r < 32
    ensures r == pty % 32
  {
    pty % 32
  }

  /** `s[:n]`: the first `n` items, or all of them. */
  function Prefix<T>(s: seq<T>, n: nat): (r: seq<T>)
    ensures |r| == if |s| <= n then |s| else n
    ensures r == s[..|r|]
  {
    if |s| <= n then s else s[..n]
  }

  /** The frame of a message for an encoder address: the address must fit
      two bytes (checked first) and the message length one byte. */
  function UecpFrame(addr: int, msg: seq<byte>): (r: Result<seq<byte>, PyError>)
    ensures r.Ok? <==> 0 <= addr <= 0xFFFF && |msg| <= 255
    ensures !(0 <= addr <= 0xFFFF) ==> r == Err(OverflowError)
    ensures 0 <= addr <= 0xFFFF && |msg| > 255 ==> r == Err(ValueError)
  {
    if addr < 0 || addr > 0xFFFF then Err(OverflowError)
    else if |msg| > 255 then Err(ValueError)
    else Ok(Seal(Header(addr, |msg|) + msg))
  }

  /** Every frame the Python encoder produces reads back to its address and
      message. */
  lemma UecpFrameParses(addr: int, msg: seq<byte>)
    requires UecpFrame(addr, msg).Ok?
    ensures Parse(UecpFrame(addr, msg).value) == Some(Decoded(addr, msg))
  {
    ParseSeal(addr, msg);
  }

  /** At address 0 the Python and Go frames are the same bytes for every
      message that fits the length byte; for a longer one Python raises,
      while Go sends a frame no receiver accepts. */
  lemma PythonMatchesGoAtAddressZero(msg: seq<byte>)
    ensures |msg| <= 255 ==> UecpFrame(0, msg) == Ok(Pkg.BuildFrame(msg))
    ensures |msg| > 255 ==> UecpFrame(0, msg) == Err(ValueError) && Parse(Pkg.BuildFrame(msg)) == None
  {
    Pkg.BuildFrameParses(msg);
  }

  /** The MECs of a full update, in sending order: TP/TA, PI, PTY, MS, RT,
      PS. */
  const MECS: seq<byte> := [0x03, 0x01, 0x07, 0x05, 0x0A, 0x02]

  /** RT data: Latin-1 with `?` for what it cannot encode, cut to 64 bytes,
      space-filled to 64. */
  function RtBytes(rt: string): (r: seq<byte>)
    ensures |r| == 64
  {
    Ljust(Prefix(Latin1Replace(rt), 64), 64, SPACE)
  }

  /** PS data: the name cut to eight characters and space-filled to eight,
      then encoded as ASCII with the other characters dropped. When those
      eight characters are ASCII, byte `i` is the code of character `i` of
      the name, and a space after its end. */
  function PsBytes(ps: string): (r: seq<byte>)
    ensures |r| <= 8
    ensures (forall i :: 0 <= i < |ps| && i < 8 ==> ps[i] as int < 0x80) ==>
      |r| == 8 && forall i :: 0 <= i < 8 ==> r[i] as int == if i < |ps| then ps[i] as int else 0x20
  {
    var p := Ljust(Prefix(ps, 8), 8, ' ');
    assert |p| == 8;
    assert forall i :: 0 <= i < 8 ==> p[i] == if i < |ps| then ps[i] else ' ';
    AsciiIgnore(p)
  }

  /** PS data is exactly eight bytes when the first eight characters are
      ASCII, and shorter otherwise. */
  lemma PsBytesWidth(ps: string)
    ensures |PsBytes(ps)| == 8 <==> forall i :: 0 <= i < |ps| && i < 8 ==> ps[i] as int < 0x80
  {
    var p := Ljust(Prefix(ps, 8), 8, ' ');
    AsciiIgnoreKeepsAll(p);
    assert |p| == 8;
    assert forall i :: 0 <= i < |ps| && i < 8 ==> p[i] == ps[i];
  }

  /** The RT data holds, at every position, the Latin-1 byte of that
      character of the text (or `?`), and spaces after the text. */
  lemma RtBytesContent(rt: string, i: nat)
    requires i < 64
    ensures i < |rt| ==> RtBytes(rt)[i] as int == (if rt[i] as int <= 0xFF then rt[i] as int else 0x3F)
    ensures i >= |rt| ==> RtBytes(rt)[i] == SPACE
  {
    var enc := Prefix(Latin1Replace(rt), 64);
    if i < |rt| {
      assert RtBytes(rt)[i] == enc[i];
    }
  }

  /** `pi.to_bytes(2, "big")` for a PI that fits. */
  function PiBytes(pi: int): (r: seq<byte>)
    requires 0 <= pi <= 0xFFFF
    ensures |r| == 2 && r[0] as int * 256 + r[1] as int == pi
  {
    var h := pi / 256;
    var l := pi % 256;
    assert pi == 256 * h + l && 0 <= h < 256;
    [ByteOf(h), ByteOf(l)]
  }

  /** A message: its MEC, two zero bytes, then the data. */
  function Msg(mec: byte, data: seq<byte>): (m: seq<byte>)
    ensures |m| == 3 + |data| && m[..3] == [mec, 0x00, 0x00] && m[3..] == data
  {
    [mec, 0x00, 0x00] + data
  }

  /** The six messages of a full update, in sending order: TP/TA, PI,
      PTY, MS, RT, PS, given the encoded PS and RT data. */
  function Messages(pi: int, pty: int, ms: bool, tp: bool, ta: bool, psData: seq<byte>, rtData: seq<byte>)
    : seq<seq<byte>>
    requires 0 <= pi <= 0xFFFF && 0 <= pty <= 255
  {
    [ Msg(0x03, [TpTaByte(tp, ta)]),
      Msg(0x01, PiBytes(pi)),
      Msg(0x07, [LowByte(pty)]),
      Msg(0x05, [MsByte(ms)]),
      Msg(0x0A, [0x41, 0x00] + rtData),
      Msg(0x02, psData)]
  }

  /** The messages of a full update, or the error that the first field
      which does not fit raises: PI is converted before PTY. */
  function RdsMessages(pi: int, pty: int, ms: bool, tp: bool, ta: bool, ps: string, rt: string)
    : (r: Result<seq<seq<byte>>, PyError>)
    ensures !(0 <= pi <= 0xFFFF) ==> r == Err(OverflowError)
    ensures 0 <= pi <= 0xFFFF && !(0 <= pty <= 255) ==> r == Err(ValueError)
    ensures r.Ok? <==> 0 <= pi <= 0xFFFF && 0 <= pty <= 255
  {
    if pi < 0 || pi > 0xFFFF then Err(OverflowError)
    else if pty < 0 || pty > 255 then Err(ValueError)
    else Ok(Messages(pi, pty, ms, tp, ta, PsBytes(ps), RtBytes(rt)))
  }

  /** Every message opens with its MEC and two zero bytes, in the order
      TP/TA, PI, PTY, MS, RT, PS. */
  lemma MessagesHeaders(pi: int, pty: int, ms: bool, tp: bool, ta: bool, psData: seq<byte>, rtData: seq<byte>)
    requires 0 <= pi <= 0xFFFF && 0 <= pty <= 255
    ensures var m := Messages(pi, pty, ms, tp, ta, psData, rtData);
      |m| == 6 && forall k :: 0 <= k < 6 ==> |m[k]| >= 3 && m[k][..3] == [MECS[k], 0x00, 0x00]
  {
    var m := Messages(pi, pty, ms, tp, ta, psData, rtData);
    forall k | 0 <= k < 6
      ensures |m[k]| >= 3 && m[k][..3] == [MECS[k], 0x00, 0x00]
    {
      assert m[k][..3] == [MECS[k], 0x00, 0x00] by {
        if k == 0 { } else if k == 1 { } else if k == 2 { } else if k == 3 { } else if k == 4 { } else { }
      }
    }
  }

  /** What the four one-field messages carry: the TP/TA bits, PI high byte
      first, the PTY value, the music flag. */
  lemma MessagesFields(pi: int, pty: int, ms: bool, tp: bool, ta: bool, psData: seq<byte>, rtData: seq<byte>)
    requires 0 <= pi <= 0xFFFF && 0 <= pty <= 255
    ensures var m := Messages(pi, pty, ms, tp, ta, psData, rtData);
      && m[0][3..] == [TpTaByte(tp, ta)]
      && |m[1]| == 5 && m[1][3] as int * 256 + m[1][4] as int == pi
      && |m[2]| == 4 && m[2][3] as int == pty
      && m[3][3..] == [MsByte(ms)]
  {
    var m := Messages(pi, pty, ms, tp, ta, psData, rtData);
    var b := PiBytes(pi);
    assert m[1][3] == m[1][3..][0] == b[0];
    assert m[1][4] == m[1][3..][1] == b[1];
    assert m[2][3] == m[2][3..][0] == LowByte(pty);
  }

  /** RT is 0x41 0x00 and its data, PS is its data alone; with 64 bytes of
      RT and at most eight of PS they are 69 and at most 11 bytes. */
  lemma MessagesTexts(pi: int, pty: int, ms: bool, tp: bool, ta: bool, psData: seq<byte>, rtData: seq<byte>)
    requires 0 <= pi <= 0xFFFF && 0 <= pty <= 255
    ensures var m := Messages(pi, pty, ms, tp, ta, psData, rtData);
      && |m[4]| == 5 + |rtData| && m[4][3..5] == [0x41, 0x00] && m[4][5..] == rtData
      && |m[5]| == 3 + |psData| && m[5][3..] == psData
  {
    var m := Messages(pi, pty, ms, tp, ta, psData, rtData);
    assert m[4][3..] == [0x41, 0x00] + rtData;
    assert m[4][3..5] == m[4][3..][..2];
    assert m[4][5..] == m[4][3..][2..];
  }

  /** With 64 bytes of RT and at most eight of PS, each of the six messages
      fits the one-byte length field. */
  lemma MessagesFit(pi: int, pty: int, ms: bool, tp: bool, ta: bool, psData: seq<byte>, rtData: seq<byte>)
    requires 0 <= pi <= 0xFFFF && 0 <= pty <= 255
    requires |psData| <= 8 && |rtData| == 64
    ensures var m := Messages(pi, pty, ms, tp, ta, psData, rtData);
      |m| == 6 && forall k :: 0 <= k < 6 ==> |m[k]| <= 69
  {
  }

  /** With PTY masked to five bits, the messages can only fail on PI, and
      the PTY message carries a value below 32. */
  lemma MaskedPtyMessages(pi: int, pty: int, ms: bool, tp: bool, ta: bool, ps: string, rt: string)
    requires 0 <= pty < 32
    ensures var r := RdsMessages(pi, pty, ms, tp, ta, ps, rt);
      && (r.Err? ==> r.error == OverflowError)
      && (r.Ok? ==> |r.value| == 6 && |r.value[2]| == 4 && r.value[2][3] as int == pty < 32)
  {
    if 0 <= pi <= 0xFFFF {
      var psData, rtData := PsBytes(ps), RtBytes(rt);
      assert RdsMessages(pi, pty, ms, tp, ta, ps, rt) == Ok(Messages(pi, pty, ms, tp, ta, psData, rtData));
      MessagesFields(pi, pty, ms, tp, ta, psData, rtData);
    }
  }

  /** The encoder object. `delay` is a whole number of ticks. */
  class Uecprds {
    var port: string
    var baudrate: int
    var delay: int
    var addr: int
    var pi: int
    var ps: string
    var rt: string
    var pty: int
    var ms: bool
    var tp: bool
    var ta: bool

    /** PTY always fits five bits. */
    predicate Valid()
      reads this
    {
      0 <= pty < 32
    }

    /** Every parameter has the default the source gives it. */
    constructor (port: string := "/dev/ttyUSB0", baudrate: int := 9600, delay: int := 4,
                 pi: int := 0x0000, ps: string := "DEFAULT", rt: string := "RADIOTEXT",
                 pty: int := 0, ms: bool := true, tp: bool := false, ta: bool := false,
                 addr: int := 0)
      ensures Valid()
      ensures this.port == port && this.baudrate == baudrate && this.delay == delay
      ensures this.addr == addr && this.pi == pi && this.ps == ps && this.rt == rt
      ensures this.pty == MaskPty(pty)
      ensures this.ms == ms && this.tp == tp && this.ta == ta
    {
      this.port := port;
      this.baudrate := baudrate;
      this.delay := delay;
      this.addr := addr;
      this.pi := pi;
      this.ps := ps;
      this.rt := rt;
      this.pty := pty % 32;
      this.ms := ms;
      this.tp := tp;
      this.ta := ta;
    }

    method SetPi(pi: int)
      modifies this`pi
      ensures this.pi == pi
      ensures Valid() == old(Valid())
    {
      this.pi := pi;
    }

    method SetPs(ps: string)
      modifies this`ps
      ensures this.ps == ps
      ensures Valid() == old(Valid())
    {
      this.ps := ps;
    }

    method SetRt(rt: string)
      modifies this`rt
      ensures this.rt == rt
      ensures Valid() == old(Valid())
    {
      this.rt := rt;
    }

    /** PTY is masked to five bits, so the object stays valid. */
    method SetPty(pty: int)
      modifies this`pty
      ensures this.pty == MaskPty(pty) && Valid()
    {
      this.pty := pty % 32;
    }

    method SetMs(ms: bool)
      modifies this`ms
      ensures this.ms == ms
      ensures Valid() == old(Valid())
    {
      this.ms := ms;
    }

    method SetTp(tp: bool)
      modifies this`tp
      ensures this.tp == tp
      ensures Valid() == old(Valid())
    {
      this.tp := tp;
    }

    method SetTa(ta: bool)
      modifies this`ta
      ensures this.ta == ta
      ensures Valid() == old(Valid())
    {
      this.ta := ta;
    }

    /** Port and speed are replaced; the delay only when one is given. */
    method SetSerial(port: string, baudrate: int, delay: Option<int>)
      modifies this`port, this`baudrate, this`delay
      ensures this.port == port && this.baudrate == baudrate
      ensures this.delay == if delay.Some? then delay.value else old(this.delay)
      ensures Valid() == old(Valid())
    {
      this.port := port;
      this.baudrate := baudrate;
      if delay.Some? {
        this.delay := delay.value;
      }
    }

    /** The frame builder as the source writes it: header, checksum by the
        bit loop, then the stuffing loop appending byte by byte. */
    method BuildUecpFrame(msg: seq<byte>) returns (r: Result<seq<byte>, PyError>)
      ensures r == UecpFrame(addr, msg)
    {
      if addr < 0 || addr > 0xFFFF {
        return Err(OverflowError);
      }
      if |msg| > 255 {
        return Err(ValueError);
      }
      var hdr := Header(addr, |msg|);
      var payload := hdr + msg;
      var crc := Crc16Ccitt(payload, POLY, INIT);
      var framed := payload + CrcBytes(crc);
      var stuffed: seq<byte> := [];
      var i := 0;
      while i < |framed|
        invariant 0 <= i <= |framed|
        invariant stuffed == Stuff(framed[..i])
      {
        StuffSnoc(framed, i);
        ghost var before := stuffed;
        stuffed := stuffed + [framed[i]];
        if framed[i] == 0xFE || framed[i] == 0xFF {
          stuffed := stuffed + [0xFD];
          AppendPair(before, framed[i], ESCAPE);
        }
        i := i + 1;
      }
      assert framed[..i] == framed;
      r := Ok([0xFE] + stuffed + [0xFF]);
    }

    /** The messages of a full update, appended one by one; a field that does
        not fit raises and nothing is returned. */
    method BuildRdsMessages() returns (r: Result<seq<seq<byte>>, PyError>)
      ensures r == RdsMessages(pi, pty, ms, tp, ta, ps, rt)
      ensures Valid() && r.Err? ==> r.error == OverflowError
      ensures Valid() && r.Ok? ==> |r.value| == 6 && |r.value[2]| == 4 && r.value[2][3] as int == pty < 32
    {
      var msgs: seq<seq<byte>> := [];
      var taTp := TpTaByte(tp, ta);
      var m0 := Msg(0x03, [taTp]);
      msgs := msgs + [m0];
      if pi < 0 || pi > 0xFFFF {
        return Err(OverflowError);
      }
      var piBytes := PiBytes(pi);
      var m1 := Msg(0x01, piBytes);
      msgs := msgs + [m1];
      if pty < 0 || pty > 255 {
        return Err(ValueError);
      }
      var m2 := Msg(0x07, [LowByte(pty)]);
      msgs := msgs + [m2];
      var m3 := Msg(0x05, [MsByte(ms)]);
      msgs := msgs + [m3];
      var rtData := RtBytes(rt);
      var m4 := Msg(0x0A, [0x41, 0x00] + rtData);
      msgs := msgs + [m4];
      var psData := PsBytes(ps);
      var m5 := Msg(0x02, psData);
      msgs := msgs + [m5];
      SixAppends(m0, m1, m2, m3, m4, m5);
      assert msgs == Messages(pi, pty, ms, tp, ta, psData, rtData);
      r := Ok(msgs);
      if pty < 32 {
        MaskedPtyMessages(pi, pty, ms, tp, ta, ps, rt);
      }
    }

    /** The frames of a full update: the first error of the messages, else
        the first error of framing them (only the address can fail, every
        message being at most 69 bytes), else one frame per message, each
        reading back to the encoder address and its message. */
    function BuildFrames(): (r: Result<seq<seq<byte>>, PyError>)
      reads this
      ensures RdsMessages(pi, pty, ms, tp, ta, ps, rt).Err? ==> r == RdsMessages(pi, pty, ms, tp, ta, ps, rt)
      ensures RdsMessages(pi, pty, ms, tp, ta, ps, rt).Ok? && !(0 <= addr <= 0xFFFF) ==> r == Err(OverflowError)
      ensures r.Ok? <==> RdsMessages(pi, pty, ms, tp, ta, ps, rt).Ok? && 0 <= addr <= 0xFFFF
      ensures Valid() && r.Err? ==> r.error == OverflowError
      ensures r.Ok? ==> |r.value| == 6 && forall k :: 0 <= k < 6 ==>
        Parse(r.value[k]) == Some(Decoded(addr, RdsMessages(pi, pty, ms, tp, ta, ps, rt).value[k]))
    {
      match RdsMessages(pi, pty, ms, tp, ta, ps, rt)
      case Err(e) => Err(e)
      case Ok(msgs) =>
        var a := addr;
        if a < 0 || a > 0xFFFF then Err(OverflowError)
        else
          MessagesFit(pi, pty, ms, tp, ta, PsBytes(ps), RtBytes(rt));
          Ok(SealAll(a, msgs))
    }
  }

  /** One frame per message, in order, each framed as `UecpFrame` frames it. */
  function SealAll(addr: int, msgs: seq<seq<byte>>): (fs: seq<seq<byte>>)
    requires 0 <= addr <= 0xFFFF
    requires forall k :: 0 <= k < |msgs| ==> |msgs[k]| <= 255
    ensures |fs| == |msgs|
    ensures forall k :: 0 <= k < |msgs| ==> Ok(fs[k]) == UecpFrame(addr, msgs[k])
    ensures forall k :: 0 <= k < |msgs| ==> Parse(fs[k]) == Some(Decoded(addr, msgs[k]))
  {
    FramesParse(addr, msgs);
    seq(|msgs|, k requires 0 <= k < |msgs| => Seal(Header(addr, |msgs[k]|) + msgs[k]))
  }

  /** Each message of at most 255 bytes frames without error and reads
      back. */
  lemma FramesParse(addr: int, msgs: seq<seq<byte>>)
    requires 0 <= addr <= 0xFFFF
    requires forall k :: 0 <= k < |msgs| ==> |msgs[k]| <= 255
    ensures forall k :: 0 <= k < |msgs| ==>
      UecpFrame(addr, msgs[k]).Ok? && Parse(UecpFrame(addr, msgs[k]).value) == Some(Decoded(addr, msgs[k]))
  {
    forall k | 0 <= k < |msgs|
      ensures Parse(UecpFrame(addr, msgs[k]).value) == Some(Decoded(addr, msgs[k]))
    {
      UecpFrameParses(addr, msgs[k]);
    }
  }
}
