/** The Go encoder package: group and frame building, the AF payload and the
    element senders. Sending appends the finished frame to `wire`, the bytes
    the serial port would be given; opening, writing and flushing the port
    are not part of the model. */
module GoUecprds {
  import opened Bytes
  import opened Wrappers
  import opened Crc
  import opened Stuffing
  import opened Frame
  import opened Rds
  import opened GoText
  import opened AfCodes

  /** A message: the MEC (one byte, or two when it exceeds 0xFF), then 0x00
      bytes up to three header bytes, then the data. */
  function BuildGroup(mec: int, data: seq<byte>): (g: seq<byte>)
    ensures |g| == 3 + |data| && g[3..] == data
    ensures mec > 0xFF ==> g[..3] == [LowByte(mec / 256), LowByte(mec), 0]
    ensures mec <= 0xFF ==> g[..3] == [LowByte(mec), 0, 0]
  {
    if mec > 0xFF then [LowByte(mec / 256), LowByte(mec), 0] + data
    else [LowByte(mec), 0, 0] + data
  }

  /** How a receiver would read the MEC back: a zero second byte means a
      one-byte MEC. */
  function GroupMec(g: seq<byte>): int
    requires |g| >= 3
  {
    if g[1] == 0 then g[0] as int else g[0] as int * 256 + g[1] as int
  }

  /** The MEC reads back for every one-byte MEC and for every two-byte MEC
      whose low byte is not zero. */
  lemma GroupMecRoundTrip(mec: int, data: seq<byte>)
    requires 0 <= mec <= 0xFF || (0xFF < mec <= 0xFFFF && mec % 256 != 0)
    ensures GroupMec(BuildGroup(mec, data)) == mec
  {
    if mec <= 0xFF {
      OneByteMec(mec, data);
    } else {
      TwoByteMec(mec, data);
    }
  }

  lemma OneByteMec(mec: int, data: seq<byte>)
    requires 0 <= mec <= 0xFF
    ensures GroupMec(BuildGroup(mec, data)) == mec
  {
    var g := BuildGroup(mec, data);
    var b := LowByte(mec);
    assert g[..3] == [b, 0, 0];
    assert g[0] == g[..3][0] == b && g[1] == g[..3][1] == 0;
    ByteValue(b, mec);
    assert GroupMec(g) == b as int;
  }

  lemma TwoByteMec(mec: int, data: seq<byte>)
    requires 0xFF < mec <= 0xFFFF && mec % 256 != 0
    ensures GroupMec(BuildGroup(mec, data)) == mec
  {
    var g := BuildGroup(mec, data);
    var h, l := LowByte(mec / 256), LowByte(mec);
    assert g[..3] == [h, l, 0];
    assert g[0] == g[..3][0] == h && g[1] == g[..3][1] == l;
    ByteValue(h, mec / 256);
    ByteValue(l, mec % 256);
    NonZeroByte(l);
    assert GroupMec(g) == h as int * 256 + l as int;
  }

  /** The two header shapes collide: a two-byte MEC with a zero low byte is
      framed exactly like the one-byte MEC of its high byte. */
  lemma GroupMecAmbiguous(data: seq<byte>)
    ensures BuildGroup(0x0D00, data) == BuildGroup(0x0D, data)
  {
    LowByteIs(0x0D00 / 256, 0x0D);
    LowByteIs(0x0D00, 0);
    LowByteIs(0x0D, 0x0D);
    var a := BuildGroup(0x0D00, data);
    var b := BuildGroup(0x0D, data);
    assert a == a[..3] + a[3..];
    assert b == b[..3] + b[3..];
  }

  /** A frame with address 0: header `[0, 0, 0, len mod 256]`, checksum,
      stuffing, delimiters. The length byte is truncated, so only messages of
      at most 255 bytes read back. */
  function BuildFrame(msg: seq<byte>): (f: seq<byte>)
    ensures |f| >= |msg| + 8
    ensures f[0] == START && f[|f| - 1] == STOP
  {
    Seal(Header(0, |msg|) + msg)
  }

  /** A receiver gets back address 0 and the message exactly when the
      message fits the length byte. */
  lemma BuildFrameParses(msg: seq<byte>)
    ensures Parse(BuildFrame(msg)) == if |msg| <= 255 then Some(Decoded(0, msg)) else None
  {
    ParseSeal(0, msg);
  }

  /** The AF payload of the package, as written. One to three codes: the
      layouts a receiver expects. Four to eleven: marker 0xEB, the codes,
      then the codes again zero-filled to eleven slots, then 0x00 0xAC. None
      or more than eleven: nothing. */
  function PkgAfPayload(codes: seq<byte>): (r: Option<seq<byte>>)
    ensures r.Some? <==> 1 <= |codes| <= 11
  {
    var n := |codes|;
    if n == 0 || n > 11 then None
    else if n <= 3 then Some(Layout(codes))
    else Some([0x0F, 0x00, 0x00, 0xEB] + codes + codes + Zeros(11 - n) + [0x00, 0xAC])
  }

  /** Up to three codes, the package sends what a receiver expects, and the
      codes read back. */
  lemma PkgAfShortLists(codes: seq<byte>)
    requires 1 <= |codes| <= 3
    requires forall i :: 0 <= i < |codes| ==> IsCode(codes[i])
    ensures Decode(PkgAfPayload(codes).value) == Some(codes)
  {
    DecodeLayout(codes);
  }

  /** From four codes on, the package writes the codes twice: the payload is
      `n` bytes longer than the eleven-slot layout, agrees with it only up to
      the first copy of the codes, and does not read back. */
  lemma PkgAfLongLists(codes: seq<byte>)
    requires 4 <= |codes| <= 11
    requires forall i :: 0 <= i < |codes| ==> IsCode(codes[i])
    ensures var p := PkgAfPayload(codes).value;
      && |p| == |Layout(codes)| + |codes|
      && p[..4 + |codes|] == Layout(codes)[..4 + |codes|]
      && Decode(p) == None
  {
    var n := |codes|;
    var p := PkgAfPayload(codes).value;
    assert p[..4 + n] == [0x0F, 0x00, 0x00, 0xEB] + codes;
    assert Layout(codes)[..4 + n] == [0x0F, 0x00, 0x00, 0xEB] + codes;
  }

  /** The package's AF payload builder: encodes each frequency, skips the
      ones out of band, and lays out the codes (see `PkgAfPayload`). */
  method BuildAfPayload(freqs: seq<int>) returns (p: Option<seq<byte>>)
    ensures p == PkgAfPayload(ValidCodes(freqs))
  {
    var enc: seq<byte> := [];
    var i := 0;
    while i < |freqs|
      invariant 0 <= i <= |freqs|
      invariant enc == ValidCodes(freqs[..i])
    {
      assert freqs[..i + 1][..i] == freqs[..i];
      var code := EncodeAf(freqs[i]);
      if code.Some? {
        enc := enc + [code.value];
      }
      i := i + 1;
    }
    assert freqs[..i] == freqs;
    p := LayOutCodes(enc);
  }

  /** The switch on the number of codes that ends the package's AF payload
      builder (see `PkgAfPayload`). */
  method LayOutCodes(enc: seq<byte>) returns (p: Option<seq<byte>>)
    ensures p == PkgAfPayload(enc)
  {
    var n := |enc|;
    if n == 1 {
      p := Some([0x05, 0x00, 0x00, 0xE1, enc[0], 0x00, 0x60]);
      assert p.value == Layout(enc);
      assert p == PkgAfPayload(enc);
    } else if 2 <= n <= 3 {
      var q: seq<byte> := [0x07, 0x00, 0x00, 0xE0 + ByteOf(n)] + enc;
      while |q| < 4 + 3
        invariant 4 + n <= |q| <= 7
        invariant q == [0x07, 0x00, 0x00, 0xE0 + ByteOf(n)] + enc + Zeros(|q| - 4 - n)
      {
        q := q + [0x00];
      }
      if n == 2 {
        q := q + [0x00, 0xD3];
      } else {
        q := q + [0x00, 0xEE];
      }
      assert q == Layout(enc);
      p := Some(q);
      assert p == PkgAfPayload(enc);
    } else if 4 <= n <= 11 {
      var q: seq<byte> := [0x0F, 0x00, 0x00, 0xEB] + enc;
      var slots := enc;
      while |slots| < 11
        invariant n <= |slots| <= 11
        invariant slots == enc + Zeros(|slots| - n)
      {
        slots := slots + [0x00];
      }
      assert slots[|slots| - 11..] == slots;
      ghost var head := q;
      q := q + slots[|slots| - 11..];
      q := q + [0x00, 0xAC];
      assert slots == enc + Zeros(11 - n);
      assert head + slots == head + enc + Zeros(11 - n);
      p := Some(q);
      assert p == PkgAfPayload(enc);
    } else {
      p := None;
    }
  }

  /** Two-digit remainder as Go's `%` computes it: truncated toward zero. */
  function GoRem(a: int, b: int): (r: int)
    requires b > 0
    ensures -b < r < b
    ensures a >= 0 ==> r == a % b
  {
    if a >= 0 then a % b else -((-a) % b)
  }

  /** PI as two bytes, high byte first, from the low sixteen bits. */
  function PiData(pi: int): (r: seq<byte>)
    ensures |r| == 2
    ensures r[0] as int * 256 + r[1] as int == pi % 0x10000
  {
    TwoDigits(pi);
    [LowByte(pi / 256), LowByte(pi)]
  }

  /** RadioText data: the two control bytes 0x41 0x00, then the text cut or
      space-filled to exactly 64 bytes. */
  function RtData(text: seq<byte>): (r: seq<byte>)
    ensures |r| == 66 && r[..2] == [0x41, 0x00]
    ensures r[2..] == PadRight(text, 64)
  {
    [0x41, 0x00] + PadRight(text, 64)
  }

  /** Clock data of the package: two-digit year, month, day, hour, minute,
      second, each cut to a byte, then two zero bytes. */
  function CtData(year: int, month: int, day: int, hour: int, minute: int, second: int): (r: seq<byte>)
    ensures |r| == 8 && r[6..] == [0, 0]
    ensures r[0] as int == GoRem(year, 100) % 256
    ensures r[1..6] == [LowByte(month), LowByte(day), LowByte(hour), LowByte(minute), LowByte(second)]
  {
    [LowByte(GoRem(year, 100)), LowByte(month), LowByte(day), LowByte(hour), LowByte(minute), LowByte(second), 0, 0]
  }

  /** The encoder of the package with its station fields. PTY and DI are
      sent as given, without masking to five or four bits. */
  class Encoder {
    var pi: int
    var pty: int
    var ms: bool
    var tp: bool
    var ta: bool
    var di: byte
    /** Every frame handed to the serial port so far, in order. */
    ghost var wire: seq<seq<byte>>

    constructor (pi: int, pty: int, ms: bool, tp: bool, ta: bool, di: byte)
      ensures this.pi == pi && this.pty == pty && this.ms == ms
      ensures this.tp == tp && this.ta == ta && this.di == di
      ensures wire == []
    {
      this.pi := pi;
      this.pty := pty;
      this.ms := ms;
      this.tp := tp;
      this.ta := ta;
      this.di := di;
      wire := [];
    }

    /** PS: the text cut to eight bytes, then padded with spaces by a loop. */
    method SendPS(text: seq<byte>)
      modifies this`wire
      ensures wire == old(wire) + [BuildFrame(BuildGroup(0x02, PadRight(text, 8)))]
    {
      ghost var target := PadRight(text, 8);
      var ps := text;
      if |ps| > 8 {
        ps := ps[..8];
      }
      while |ps| < 8
        invariant |ps| <= 8 && ps == target[..|ps|]
        invariant |ps| >= |text| || |ps| == 8
      {
        ps := ps + [SPACE];
      }
      assert ps == target;
      wire := wire + [BuildFrame(BuildGroup(0x02, ps))];
    }

    /** RT: the text cut to 64 bytes, padded with spaces by a loop, behind
        the control bytes 0x41 0x00. */
    method SendRT(text: seq<byte>)
      modifies this`wire
      ensures wire == old(wire) + [BuildFrame(BuildGroup(0x0A, RtData(text)))]
    {
      ghost var target := PadRight(text, 64);
      var rt := text;
      if |rt| > 64 {
        rt := rt[..64];
      }
      while |rt| < 64
        invariant |rt| <= 64 && rt == target[..|rt|]
        invariant |rt| >= |text| || |rt| == 64
      {
        rt := rt + [SPACE];
      }
      assert rt == target;
      wire := wire + [BuildFrame(BuildGroup(0x0A, [0x41, 0x00] + rt))];
    }

    /** Clock time under the two-byte MEC 0x0D19. */
    method SendCTProfline(year: int, month: int, day: int, hour: int, minute: int, second: int)
      modifies this`wire
      ensures wire == old(wire) + [BuildFrame(BuildGroup(0x0D19, CtData(year, month, day, hour, minute, second)))]
    {
      wire := wire + [BuildFrame(BuildGroup(0x0D19, CtData(year, month, day, hour, minute, second)))];
    }

    method SendTPTA()
      modifies this`wire
      ensures wire == old(wire) + [BuildFrame(BuildGroup(0x03, [TpTaByte(tp, ta)]))]
    {
      wire := wire + [BuildFrame(BuildGroup(0x03, [TpTaByte(tp, ta)]))];
    }

    method SendPI()
      modifies this`wire
      ensures wire == old(wire) + [BuildFrame(BuildGroup(0x01, PiData(pi)))]
    {
      wire := wire + [BuildFrame(BuildGroup(0x01, PiData(pi)))];
    }

    /** PTY as `byte(pty)`: the low eight bits, not masked to five. */
    method SendPTY()
      modifies this`wire
      ensures wire == old(wire) + [BuildFrame(BuildGroup(0x07, [LowByte(pty)]))]
    {
      wire := wire + [BuildFrame(BuildGroup(0x07, [LowByte(pty)]))];
    }

    method SendMS()
      modifies this`wire
      ensures wire == old(wire) + [BuildFrame(BuildGroup(0x05, [MsByte(ms)]))]
    {
      wire := wire + [BuildFrame(BuildGroup(0x05, [MsByte(ms)]))];
    }

    method SendDI()
      modifies this`wire
      ensures wire == old(wire) + [BuildFrame(BuildGroup(0x04, [di]))]
    {
      wire := wire + [BuildFrame(BuildGroup(0x04, [di]))];
    }

    /** TP/TA, PI, PTY, MS and DI, in that order. */
    method SendStaticInit()
      modifies this`wire
      ensures wire == old(wire) + [
        BuildFrame(BuildGroup(0x03, [TpTaByte(tp, ta)])),
        BuildFrame(BuildGroup(0x01, PiData(pi))),
        BuildFrame(BuildGroup(0x07, [LowByte(pty)])),
        BuildFrame(BuildGroup(0x05, [MsByte(ms)])),
        BuildFrame(BuildGroup(0x04, [di]))]
    {
      ghost var w0 := wire;
      SendTPTA();
      ghost var w1, f0 := wire, BuildFrame(BuildGroup(0x03, [TpTaByte(tp, ta)]));
      SendPI();
      ghost var w2, f1 := wire, BuildFrame(BuildGroup(0x01, PiData(pi)));
      SendPTY();
      ghost var w3, f2 := wire, BuildFrame(BuildGroup(0x07, [LowByte(pty)]));
      SendMS();
      ghost var w4, f3 := wire, BuildFrame(BuildGroup(0x05, [MsByte(ms)]));
      SendDI();
      ghost var f4 := BuildFrame(BuildGroup(0x04, [di]));
      FiveAppends(w0, w1, w2, w3, w4, wire, f0, f1, f2, f3, f4);
    }

    /** AF under MEC 0x13; when no payload can be built nothing is sent and
        no error is reported. */
    method SendAF(freqs: seq<int>)
      modifies this`wire
      ensures wire == old(wire) + match PkgAfPayload(ValidCodes(freqs))
        case None => []
        case Some(p) => [BuildFrame(BuildGroup(0x13, p))]
    {
      var payload := BuildAfPayload(freqs);
      if payload.Some? {
        wire := wire + [BuildFrame(BuildGroup(0x13, payload.value))];
      }
    }
  }
}
