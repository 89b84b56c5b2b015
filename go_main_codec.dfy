/** The encoder half of the Go daemon program. Its group builder, frame
    builder, checksum, stuffing and AF code are the package's
    (`GoUecprds.BuildGroup`, `GoUecprds.BuildFrame`, `Crc.Crc16Ccitt`,
    `Stuffing.ByteStuff`, `AfCodes.EncodeAf`); what differs is the AF
    payload of long lists, the PI conversion and the clock message, which
    are modelled here. */
module GoMainCodec {
  import opened Bytes
  import opened Wrappers
  import opened Frame
  import opened Rds
  import opened GoText
  import opened AfCodes
  import Pkg = GoUecprds

  /** The single-frequency layout, built from the first code. */
  function BuildAfMethod05(codes: seq<byte>): (p: seq<byte>)
    requires |codes| >= 1
    ensures p == Layout(codes[..1])
  {
    [0x05, 0x00, 0x00, 0xE1] + [codes[0]] + [0x00, 0x60]
  }

  /** The short-list layout: count marker, codes, zero fill to three slots
      by a loop, then the trailer of the count. */
  method BuildAfMethod07(codes: seq<byte>) returns (p: seq<byte>)
    requires 2 <= |codes| <= 3
    ensures p == Layout(codes)
  {
    var n := |codes|;
    p := [0x07, 0x00, 0x00];
    p := p + [0xE0 + ByteOf(n)];
    p := p + codes;
    while |p| < 7
      invariant 4 + n <= |p| <= 7
      invariant p == [0x07, 0x00, 0x00, 0xE0 + ByteOf(n)] + codes + Zeros(|p| - 4 - n)
    {
      p := p + [0x00];
    }
    if n == 2 {
      p := p + [0x00, 0xD3];
    } else {
      p := p + [0x00, 0xEE];
    }
  }

  /** The long-list layout: the codes zero-filled to eleven slots by a loop,
      then 0x00 0xAC, always seventeen bytes. */
  method BuildAfMethod0F(codes: seq<byte>) returns (p: seq<byte>)
    requires 4 <= |codes| <= 11
    ensures p == Layout(codes)
  {
    var n := |codes|;
    p := [0x0F, 0x00, 0x00, 0xEB];
    p := p + codes;
    while |p| < 4 + 11
      invariant 4 + n <= |p| <= 15
      invariant p == [0x0F, 0x00, 0x00, 0xEB] + codes + Zeros(|p| - 4 - n)
    {
      p := p + [0x00];
    }
    p := p + [0x00, 0xAC];
  }

  /** Encodes each frequency, skips those out of band, and picks the layout
      by the number of codes left; none or more than eleven is an error that
      carries that number. Whatever is built reads back to the codes. */
  method BuildAfPayload(freqs: seq<int>) returns (r: Result<seq<byte>, nat>)
    ensures var codes := ValidCodes(freqs);
      && (r.Ok? <==> 1 <= |codes| <= 11)
      && (r.Ok? ==> r.value == Layout(codes) && Decode(r.value) == Some(codes))
      && (r.Err? ==> r.error == |codes|)
  {
    var enc: seq<byte> := [];
    var i := 0;
    while i < |freqs|
      invariant 0 <= i <= |freqs|
      invariant enc == ValidCodes(freqs[..i])
    {
      assert freqs[..i + 1][..i] == freqs[..i];
      var code := EncodeAf(freqs[i]);
      if code.Some? {
        enc := enc + [code.value];
      }
      i := i + 1;
    }
    assert freqs[..i] == freqs;
    var n := |enc|;
    if n == 1 {
      r := Ok(BuildAfMethod05(enc));
      assert enc[..1] == enc;
    } else if 2 <= n <= 3 {
      var p := BuildAfMethod07(enc);
      r := Ok(p);
    } else if 4 <= n <= 11 {
      var p := BuildAfMethod0F(enc);
      r := Ok(p);
    } else {
      r := Err(n);
    }
    if r.Ok? {
      DecodeLayout(enc);
    }
  }

  /** PI as `PutUint16(uint16(pi))`: wrapped to sixteen bits, high byte
      first. */
  function Uint16Be(v: int): (r: seq<byte>)
    ensures |r| == 2
  {
    var w := v % 0x10000;
    [LowByte(w / 256), LowByte(w)]
  }

  /** The program's PI bytes are the package's for every integer PI, so
      both read back as the PI modulo 0x10000. */
  lemma PiBytesAgree(pi: int)
    ensures Uint16Be(pi) == Pkg.PiData(pi)
    ensures Uint16Be(pi)[0] as int * 256 + Uint16Be(pi)[1] as int == pi % 0x10000
  {
    var w := pi % 0x10000;
    TwoDigits(pi);
    assert w / 256 == (pi / 256) % 256 && w % 256 == pi % 256;
    assert (w / 256) % 256 == (pi / 256) % 256;
  }

  /** The clock message, written out byte by byte instead of through the
      group builder: MEC 0x0D19, group type 0x06, day, hour, minute, second
      cut to a byte, then two zero bytes. */
  function CtMessage(day: int, hour: int, minute: int, second: int): (m: seq<byte>)
    ensures |m| == 9 && m[..3] == [0x0D, 0x19, 0x06] && m[7..] == [0x00, 0x00]
    ensures m[3..7] == [LowByte(day), LowByte(hour), LowByte(minute), LowByte(second)]
  {
    [0x0D, 0x19, 0x06, LowByte(day), LowByte(hour), LowByte(minute), LowByte(second), 0x00, 0x00]
  }

  /** A receiver reads MEC 0x0D19 from the clock message, but it is not any
      group the package builds for that MEC: the third byte is 0x06, not
      0x00, and year and month are not sent. */
  lemma CtMessageIsNotAGroup(day: int, hour: int, minute: int, second: int, data: seq<byte>)
    ensures Pkg.GroupMec(CtMessage(day, hour, minute, second)) == 0x0D19
    ensures CtMessage(day, hour, minute, second) != Pkg.BuildGroup(0x0D19, data)
  {
    var m := CtMessage(day, hour, minute, second);
    assert m[2] == 0x06;
    assert Pkg.BuildGroup(0x0D19, data)[2] == Pkg.BuildGroup(0x0D19, data)[..3][2];
  }

  /** The program's encoder. DI is packed from the four configuration flags
      when it is made; PTY is sent as `byte(pty)`, not masked. */
  class MainEncoder {
    var pi: int
    var pty: int
    var ms: bool
    var tp: bool
    var ta: bool
    var di: byte
    /** Every frame handed to the serial port so far, in order. */
    ghost var wire: seq<seq<byte>>

    constructor (pi: int, pty: int, ms: bool, tp: bool, ta: bool,
                 stereo: bool, artificialHead: bool, compressed: bool, dynamicPty: bool)
      ensures this.pi == pi && this.pty == pty && this.ms == ms
      ensures this.tp == tp && this.ta == ta
      ensures di == DiFlags(stereo, artificialHead, compressed, dynamicPty)
      ensures wire == []
    {
      this.pi := pi;
      this.pty := pty;
      this.ms := ms;
      this.tp := tp;
      this.ta := ta;
      di := DiFlags(stereo, artificialHead, compressed, dynamicPty);
      wire := [];
    }

    /** PS: the text cut to eight bytes, then a space appended until it has
        eight. */
    method SendPS(text: seq<byte>)
      modifies this`wire
      ensures wire == old(wire) + [Pkg.BuildFrame(Pkg.BuildGroup(0x02, PadRight(text, 8)))]
    {
      ghost var target := PadRight(text, 8);
      var ps := text;
      if |ps| > 8 {
        ps := ps[..8];
      }
      while |ps| < 8
        invariant |ps| <= 8 && ps == target[..|ps|]
        invariant |ps| >= |text| || |ps| == 8
      {
        ps := ps + [SPACE];
      }
      assert ps == target;
      wire := wire + [Pkg.BuildFrame(Pkg.BuildGroup(0x02, ps))];
    }

    /** RT: the text cut to 64 bytes, padded by a loop, behind 0x41 0x00. */
    method SendRT(text: seq<byte>)
      modifies this`wire
      ensures wire == old(wire) + [Pkg.BuildFrame(Pkg.BuildGroup(0x0A, Pkg.RtData(text)))]
    {
      ghost var target := PadRight(text, 64);
      var rt := text;
      if |rt| > 64 {
        rt := rt[..64];
      }
      while |rt| < 64
        invariant |rt| <= 64 && rt == target[..|rt|]
        invariant |rt| >= |text| || |rt| == 64
      {
        rt := rt + [SPACE];
      }
      assert rt == target;
      wire := wire + [Pkg.BuildFrame(Pkg.BuildGroup(0x0A, [0x41, 0x00] + rt))];
    }

    /** The clock message goes to the frame builder as it is. */
    method SendCTProfline(day: int, hour: int, minute: int, second: int)
      modifies this`wire
      ensures wire == old(wire) + [Pkg.BuildFrame(CtMessage(day, hour, minute, second))]
    {
      var ct: seq<byte> := [0x0D, 0x19, 0x06, LowByte(day), LowByte(hour), LowByte(minute), LowByte(second), 0x00, 0x00];
      wire := wire + [Pkg.BuildFrame(ct)];
    }

    method SendTPTA()
      modifies this`wire
      ensures wire == old(wire) + [Pkg.BuildFrame(Pkg.BuildGroup(0x03, [TpTaByte(tp, ta)]))]
    {
      wire := wire + [Pkg.BuildFrame(Pkg.BuildGroup(0x03, [TpTaByte(tp, ta)]))];
    }

    method SendPI()
      modifies this`wire
      ensures wire == old(wire) + [Pkg.BuildFrame(Pkg.BuildGroup(0x01, Uint16Be(pi)))]
    {
      wire := wire + [Pkg.BuildFrame(Pkg.BuildGroup(0x01, Uint16Be(pi)))];
    }

    method SendPTY()
      modifies this`wire
      ensures wire == old(wire) + [Pkg.BuildFrame(Pkg.BuildGroup(0x07, [LowByte(pty)]))]
    {
      wire := wire + [Pkg.BuildFrame(Pkg.BuildGroup(0x07, [LowByte(pty)]))];
    }

    method SendMS()
      modifies this`wire
      ensures wire == old(wire) + [Pkg.BuildFrame(Pkg.BuildGroup(0x05, [MsByte(ms)]))]
    {
      wire := wire + [Pkg.BuildFrame(Pkg.BuildGroup(0x05, [MsByte(ms)]))];
    }

    method SendDI()
      modifies this`wire
      ensures wire == old(wire) + [Pkg.BuildFrame(Pkg.BuildGroup(0x04, [di]))]
    {
      wire := wire + [Pkg.BuildFrame(Pkg.BuildGroup(0x04, [di]))];
    }

    /** TP/TA, PI, PTY, MS and DI, in that order. */
    method SendStaticInit()
      modifies this`wire
      ensures wire == old(wire) + [
        Pkg.BuildFrame(Pkg.BuildGroup(0x03, [TpTaByte(tp, ta)])),
        Pkg.BuildFrame(Pkg.BuildGroup(0x01, Uint16Be(pi))),
        Pkg.BuildFrame(Pkg.BuildGroup(0x07, [LowByte(pty)])),
        Pkg.BuildFrame(Pkg.BuildGroup(0x05, [MsByte(ms)])),
        Pkg.BuildFrame(Pkg.BuildGroup(0x04, [di]))]
    {
      ghost var w0 := wire;
      SendTPTA();
      ghost var w1, f0 := wire, Pkg.BuildFrame(Pkg.BuildGroup(0x03, [TpTaByte(tp, ta)]));
      SendPI();
      ghost var w2, f1 := wire, Pkg.BuildFrame(Pkg.BuildGroup(0x01, Uint16Be(pi)));
      SendPTY();
      ghost var w3, f2 := wire, Pkg.BuildFrame(Pkg.BuildGroup(0x07, [LowByte(pty)]));
      SendMS();
      ghost var w4, f3 := wire, Pkg.BuildFrame(Pkg.BuildGroup(0x05, [MsByte(ms)]));
      SendDI();
      ghost var f4 := Pkg.BuildFrame(Pkg.BuildGroup(0x04, [di]));
      FiveAppends(w0, w1, w2, w3, w4, wire, f0, f1, f2, f3, f4);
    }

    /** AF under MEC 0x13; a payload error is logged and nothing is sent. */
    method SendAF(freqs: seq<int>)
      modifies this`wire
      ensures var codes := ValidCodes(freqs);
        wire == old(wire) + if 1 <= |codes| <= 11 then [Pkg.BuildFrame(Pkg.BuildGroup(0x13, Layout(codes)))] else []
    {
      var payload := BuildAfPayload(freqs);
      if payload.Ok? {
        wire := wire + [Pkg.BuildFrame(Pkg.BuildGroup(0x13, payload.value))];
      }
    }
  }
}
