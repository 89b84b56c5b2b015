/** The literal frames the encoders are known to produce, each derived from
    the model: the checksum register is followed byte by byte, no byte of
    these frames needs an escape, and the payload builders give the bytes
    the frame carries. */
module Vectors {
  import opened Bytes
  import opened Wrappers
  import opened Crc
  import opened Stuffing
  import opened Frame
  import opened Rds
  import opened AfCodes
  import opened GoText
  import Pkg = GoUecprds

  /** Bytes none of which is reserved pass the escape rule unchanged. */
  lemma Unescaped(data: seq<byte>)
    requires forall i :: 0 <= i < |data| ==> !IsReserved(data[i])
    ensures Stuff(data) == data
  {
    CountReservedZero(data);
    StuffIsIdentity(data);
  }

  /** The frame of a message at address 0, given the register over its
      header and message, when no byte of the body needs an escape. */
  lemma FrameOf(msg: seq<byte>, payload: seq<byte>, reg: bv16, check: seq<byte>, frame: seq<byte>)
    requires payload == Header(0, |msg|) + msg
    requires Register(payload, INIT, POLY) == reg
    requires check == CrcBytes(reg ^ 0xFFFF)
    requires forall i :: 0 <= i < |payload| ==> !IsReserved(payload[i])
    requires !IsReserved(check[0]) && !IsReserved(check[1])
    requires frame == [START] + (payload + check) + [STOP]
    ensures Pkg.BuildFrame(msg) == frame
  {
    var body := payload + check;
    assert forall i :: 0 <= i < |body| ==> !IsReserved(body[i]) by {
      forall i | 0 <= i < |body|
        ensures !IsReserved(body[i])
      {
        if i < |payload| {
          assert body[i] == payload[i];
        } else if i == |payload| {
          assert body[i] == check[0];
        } else {
          assert body[i] == check[1];
        }
      }
    }
    Unescaped(body);
    assert Crc16(payload, POLY, INIT) == reg ^ 0xFFFF;
    assert Pkg.BuildFrame(msg) == Seal(payload);
    assert Seal(payload) == [START] + body + [STOP];
  }

  /** The same, with the checksum register followed over the two halves
      of the payload. */
  lemma FrameOfParts(msg: seq<byte>, p0: seq<byte>, p1: seq<byte>, mid: bv16, reg: bv16, check: seq<byte>, frame: seq<byte>)
    requires p0 + p1 == Header(0, |msg|) + msg
    requires Register(p0, INIT, POLY) == mid && Register(p1, mid, POLY) == reg
    requires check == CrcBytes(reg ^ 0xFFFF)
    requires forall i :: 0 <= i < |p0| ==> !IsReserved(p0[i])
    requires forall i :: 0 <= i < |p1| ==> !IsReserved(p1[i])
    requires !IsReserved(check[0]) && !IsReserved(check[1])
    requires frame == [START] + ((p0 + p1) + check) + [STOP]
    ensures Pkg.BuildFrame(msg) == frame
  {
    var payload := p0 + p1;
    RegisterAppend(p0, p1, INIT, POLY);
    forall i | 0 <= i < |payload|
      ensures !IsReserved(payload[i])
    {
      if i < |p0| {
        assert payload[i] == p0[i];
      } else {
        assert payload[i] == p1[i - |p0|];
      }
    }
    FrameOf(msg, payload, reg, check, frame);
  }

  /** The register takes one byte at a time from the front. */
  lemma RegisterCons(b: byte, rest: seq<byte>, crc: bv16)
    ensures Register([b] + rest, crc, POLY) == Register(rest, Feed(crc, b, POLY), POLY)
  {
    assert ([b] + rest)[1..] == rest;
  }

  lemma PsGroup()
    ensures Pkg.BuildGroup(0x02, [0x44, 0x45, 0x4D, 0x4F, 0x20, 0x20, 0x20, 0x20]) == [0x02, 0x00, 0x00, 0x44, 0x45, 0x4D, 0x4F, 0x20, 0x20, 0x20, 0x20]
  {
    LowByteIs(0x02, 0x02);
  }

  lemma TpGroup()
    ensures Pkg.BuildGroup(0x03, [0x02]) == [0x03, 0x00, 0x00, 0x02]
  {
    LowByteIs(0x03, 0x03);
  }

  lemma PiGroup()
    ensures Pkg.BuildGroup(0x01, [0x13, 0x37]) == [0x01, 0x00, 0x00, 0x13, 0x37]
  {
    LowByteIs(0x01, 0x01);
  }

  lemma PtyGroup()
    ensures Pkg.BuildGroup(0x07, [0x0F]) == [0x07, 0x00, 0x00, 0x0F]
  {
    LowByteIs(0x07, 0x07);
  }

  lemma MsGroup()
    ensures Pkg.BuildGroup(0x05, [0x01]) == [0x05, 0x00, 0x00, 0x01]
  {
    LowByteIs(0x05, 0x05);
  }

  lemma DiGroup()
    ensures Pkg.BuildGroup(0x04, [0x00]) == [0x04, 0x00, 0x00, 0x00]
  {
    LowByteIs(0x04, 0x04);
  }

  lemma AfGroup()
    ensures Pkg.BuildGroup(0x13, [0x05, 0x00, 0x00, 0xE1, 0x31, 0x00, 0x60]) == [0x13, 0x00, 0x00, 0x05, 0x00, 0x00, 0xE1, 0x31, 0x00, 0x60]
  {
    LowByteIs(0x13, 0x13);
  }

  lemma CtMecBytes()
    ensures LowByte(0x0D19 / 256) == 0x0D && LowByte(0x0D19) == 0x19
  {
    CtMecHigh();
    CtMecLow();
  }

  lemma CtMecHigh()
    ensures LowByte(0x0D19 / 256) == 0x0D
  {
    LowByteIs(0x0D19 / 256, 0x0D);
  }

  lemma CtMecLow()
    ensures LowByte(0x0D19) == 0x19
  {
    LowByteIs(0x0D19, 0x19);
  }

  lemma CtGroup(data: seq<byte>)
    requires data == [0x17, 0x08, 0x19, 0x0C, 0x22, 0x38, 0x00, 0x00]
    ensures Pkg.BuildGroup(0x0D19, data) == [0x0D, 0x19, 0x00] + data
  {
    CtMecBytes();
  }

  lemma PsRegister0()
    ensures Register([0x00, 0x00, 0x00, 0x0B, 0x02, 0x00, 0x00, 0x44], INIT, POLY) == 0x38E9
  {
    RegisterCons(0x00, [0x00, 0x00, 0x0B, 0x02, 0x00, 0x00, 0x44], 0xFFFF);
    RegisterCons(0x00, [0x00, 0x0B, 0x02, 0x00, 0x00, 0x44], 0xE1F0);
    RegisterCons(0x00, [0x0B, 0x02, 0x00, 0x00, 0x44], 0x1D0F);
    RegisterCons(0x0B, [0x02, 0x00, 0x00, 0x44], 0xCC9C);
    RegisterCons(0x02, [0x00, 0x00, 0x44], 0x35AB);
    RegisterCons(0x00, [0x00, 0x44], 0xEDB4);
    RegisterCons(0x00, [0x44], 0x9883);
    RegisterCons(0x44, [], 0x81B1);
  }

  lemma PsRegister1()
    ensures Register([0x45, 0x4D, 0x4F, 0x20, 0x20, 0x20, 0x20], 0x38E9, POLY) == 0x6E7F
  {
    RegisterCons(0x45, [0x4D, 0x4F, 0x20, 0x20, 0x20, 0x20], 0x38E9);
    RegisterCons(0x4D, [0x4F, 0x20, 0x20, 0x20, 0x20], 0x463A);
    RegisterCons(0x4F, [0x20, 0x20, 0x20, 0x20], 0x8B6B);
    RegisterCons(0x20, [0x20, 0x20, 0x20], 0xF2C8);
    RegisterCons(0x20, [0x20, 0x20], 0x233F);
    RegisterCons(0x20, [0x20], 0x0F63);
    RegisterCons(0x20, [], 0xB68D);
  }

  lemma PsCheck(check: seq<byte>)
    requires check == [0x91, 0x80]
    ensures check == CrcBytes(0x6E7F ^ 0xFFFF)
    ensures !IsReserved(check[0]) && !IsReserved(check[1])
  {
  }

  lemma PsLayout(msg: seq<byte>, p0: seq<byte>, p1: seq<byte>)
    requires msg == [0x02, 0x00, 0x00, 0x44, 0x45, 0x4D, 0x4F, 0x20, 0x20, 0x20, 0x20]
    requires p0 == [0x00, 0x00, 0x00, 0x0B, 0x02, 0x00, 0x00, 0x44]
    requires p1 == [0x45, 0x4D, 0x4F, 0x20, 0x20, 0x20, 0x20]
    ensures p0 + p1 == Header(0, |msg|) + msg
  {
    HeaderOf11();
  }

  lemma PsRegisters(p0: seq<byte>, p1: seq<byte>)
    requires p0 == [0x00, 0x00, 0x00, 0x0B, 0x02, 0x00, 0x00, 0x44]
    requires p1 == [0x45, 0x4D, 0x4F, 0x20, 0x20, 0x20, 0x20]
    ensures Register(p0, INIT, POLY) == 0x38E9 && Register(p1, 0x38E9, POLY) == 0x6E7F
  {
    PsRegister0();
    PsRegister1();
  }

  lemma PsUnreserved(p0: seq<byte>, p1: seq<byte>)
    requires p0 == [0x00, 0x00, 0x00, 0x0B, 0x02, 0x00, 0x00, 0x44]
    requires p1 == [0x45, 0x4D, 0x4F, 0x20, 0x20, 0x20, 0x20]
    ensures forall i :: 0 <= i < |p0| ==> !IsReserved(p0[i])
    ensures forall i :: 0 <= i < |p1| ==> !IsReserved(p1[i])
  {
  }

  lemma PsBytes(p0: seq<byte>, p1: seq<byte>, check: seq<byte>, frame: seq<byte>)
    requires p0 == [0x00, 0x00, 0x00, 0x0B, 0x02, 0x00, 0x00, 0x44]
    requires p1 == [0x45, 0x4D, 0x4F, 0x20, 0x20, 0x20, 0x20]
    requires check == [0x91, 0x80]
    requires frame == [0xFE, 0x00, 0x00, 0x00, 0x0B, 0x02, 0x00, 0x00, 0x44, 0x45, 0x4D, 0x4F, 0x20, 0x20, 0x20, 0x20, 0x91, 0x80, 0xFF]
    ensures frame == [START] + ((p0 + p1) + check) + [STOP]
  {
  }

  lemma PsPieces(msg: seq<byte>) returns (p0: seq<byte>, p1: seq<byte>, check: seq<byte>, frame: seq<byte>)
    requires msg == [0x02, 0x00, 0x00, 0x44, 0x45, 0x4D, 0x4F, 0x20, 0x20, 0x20, 0x20]
    ensures frame == [0xFE, 0x00, 0x00, 0x00, 0x0B, 0x02, 0x00, 0x00, 0x44, 0x45, 0x4D, 0x4F, 0x20, 0x20, 0x20, 0x20, 0x91, 0x80, 0xFF]
    ensures p0 + p1 == Header(0, |msg|) + msg
    ensures Register(p0, INIT, POLY) == 0x38E9 && Register(p1, 0x38E9, POLY) == 0x6E7F
    ensures check == CrcBytes(0x6E7F ^ 0xFFFF)
    ensures forall i :: 0 <= i < |p0| ==> !IsReserved(p0[i])
    ensures forall i :: 0 <= i < |p1| ==> !IsReserved(p1[i])
    ensures !IsReserved(check[0]) && !IsReserved(check[1])
    ensures frame == [START] + ((p0 + p1) + check) + [STOP]
  {
    p0, p1 := [0x00, 0x00, 0x00, 0x0B, 0x02, 0x00, 0x00, 0x44], [0x45, 0x4D, 0x4F, 0x20, 0x20, 0x20, 0x20];
    check := [0x91, 0x80];
    frame := [0xFE, 0x00, 0x00, 0x00, 0x0B, 0x02, 0x00, 0x00, 0x44, 0x45, 0x4D, 0x4F, 0x20, 0x20, 0x20, 0x20, 0x91, 0x80, 0xFF];
    PsRegisters(p0, p1);
    PsCheck(check);
    PsLayout(msg, p0, p1);
    PsUnreserved(p0, p1);
    PsBytes(p0, p1, check, frame);
  }

  /** The frame of the PS message at address 0. */
  lemma PsFrame(msg: seq<byte>)
    requires msg == [0x02, 0x00, 0x00, 0x44, 0x45, 0x4D, 0x4F, 0x20, 0x20, 0x20, 0x20]
    ensures Pkg.BuildFrame(msg)
      == [0xFE, 0x00, 0x00, 0x00, 0x0B, 0x02, 0x00, 0x00, 0x44, 0x45, 0x4D, 0x4F, 0x20, 0x20, 0x20, 0x20, 0x91, 0x80, 0xFF]
  {
    var p0, p1, check, frame := PsPieces(msg);
    FrameOfParts(msg, p0, p1, 0x38E9, 0x6E7F, check, frame);
  }

  lemma TpRegister0()
    ensures Register([0x00, 0x00, 0x00, 0x04], INIT, POLY) == 0xC444
  {
    RegisterCons(0x00, [0x00, 0x00, 0x04], 0xFFFF);
    RegisterCons(0x00, [0x00, 0x04], 0xE1F0);
    RegisterCons(0x00, [0x04], 0x1D0F);
    RegisterCons(0x04, [], 0xCC9C);
  }

  lemma TpRegister1()
    ensures Register([0x03, 0x00, 0x00, 0x02], 0xC444, POLY) == 0x03A6
  {
    RegisterCons(0x03, [0x00, 0x00, 0x02], 0xC444);
    RegisterCons(0x00, [0x00, 0x02], 0xEDAB);
    RegisterCons(0x00, [0x02], 0x8783);
    RegisterCons(0x02, [], 0x626F);
  }

  lemma TpCheck(check: seq<byte>)
    requires check == [0xFC, 0x59]
    ensures check == CrcBytes(0x03A6 ^ 0xFFFF)
    ensures !IsReserved(check[0]) && !IsReserved(check[1])
  {
  }

  lemma TpLayout(msg: seq<byte>, p0: seq<byte>, p1: seq<byte>)
    requires msg == [0x03, 0x00, 0x00, 0x02]
    requires p0 == [0x00, 0x00, 0x00, 0x04]
    requires p1 == [0x03, 0x00, 0x00, 0x02]
    ensures p0 + p1 == Header(0, |msg|) + msg
  {
    HeaderOf4();
  }

  lemma TpRegisters(p0: seq<byte>, p1: seq<byte>)
    requires p0 == [0x00, 0x00, 0x00, 0x04]
    requires p1 == [0x03, 0x00, 0x00, 0x02]
    ensures Register(p0, INIT, POLY) == 0xC444 && Register(p1, 0xC444, POLY) == 0x03A6
  {
    TpRegister0();
    TpRegister1();
  }

  lemma TpUnreserved(p0: seq<byte>, p1: seq<byte>)
    requires p0 == [0x00, 0x00, 0x00, 0x04]
    requires p1 == [0x03, 0x00, 0x00, 0x02]
    ensures forall i :: 0 <= i < |p0| ==> !IsReserved(p0[i])
    ensures forall i :: 0 <= i < |p1| ==> !IsReserved(p1[i])
  {
  }

  lemma TpBytes(p0: seq<byte>, p1: seq<byte>, check: seq<byte>, frame: seq<byte>)
    requires p0 == [0x00, 0x00, 0x00, 0x04]
    requires p1 == [0x03, 0x00, 0x00, 0x02]
    requires check == [0xFC, 0x59]
    requires frame == [0xFE, 0x00, 0x00, 0x00, 0x04, 0x03, 0x00, 0x00, 0x02, 0xFC, 0x59, 0xFF]
    ensures frame == [START] + ((p0 + p1) + check) + [STOP]
  {
  }

  lemma TpPieces(msg: seq<byte>) returns (p0: seq<byte>, p1: seq<byte>, check: seq<byte>, frame: seq<byte>)
    requires msg == [0x03, 0x00, 0x00, 0x02]
    ensures frame == [0xFE, 0x00, 0x00, 0x00, 0x04, 0x03, 0x00, 0x00, 0x02, 0xFC, 0x59, 0xFF]
    ensures p0 + p1 == Header(0, |msg|) + msg
    ensures Register(p0, INIT, POLY) == 0xC444 && Register(p1, 0xC444, POLY) == 0x03A6
    ensures check == CrcBytes(0x03A6 ^ 0xFFFF)
    ensures forall i :: 0 <= i < |p0| ==> !IsReserved(p0[i])
    ensures forall i :: 0 <= i < |p1| ==> !IsReserved(p1[i])
    ensures !IsReserved(check[0]) && !IsReserved(check[1])
    ensures frame == [START] + ((p0 + p1) + check) + [STOP]
  {
    p0, p1 := [0x00, 0x00, 0x00, 0x04], [0x03, 0x00, 0x00, 0x02];
    check := [0xFC, 0x59];
    frame := [0xFE, 0x00, 0x00, 0x00, 0x04, 0x03, 0x00, 0x00, 0x02, 0xFC, 0x59, 0xFF];
    TpRegisters(p0, p1);
    TpCheck(check);
    TpLayout(msg, p0, p1);
    TpUnreserved(p0, p1);
    TpBytes(p0, p1, check, frame);
  }

  /** The frame of the TP message at address 0. */
  lemma TpFrame(msg: seq<byte>)
    requires msg == [0x03, 0x00, 0x00, 0x02]
    ensures Pkg.BuildFrame(msg)
      == [0xFE, 0x00, 0x00, 0x00, 0x04, 0x03, 0x00, 0x00, 0x02, 0xFC, 0x59, 0xFF]
  {
    var p0, p1, check, frame := TpPieces(msg);
    FrameOfParts(msg, p0, p1, 0xC444, 0x03A6, check, frame);
  }

  lemma PiRegister0()
    ensures Register([0x00, 0x00, 0x00, 0x05, 0x01, 0x00, 0x00, 0x13], INIT, POLY) == 0x468F
  {
    RegisterCons(0x00, [0x00, 0x00, 0x05, 0x01, 0x00, 0x00, 0x13], 0xFFFF);
    RegisterCons(0x00, [0x00, 0x05, 0x01, 0x00, 0x00, 0x13], 0xE1F0);
    RegisterCons(0x00, [0x05, 0x01, 0x00, 0x00, 0x13], 0x1D0F);
    RegisterCons(0x05, [0x01, 0x00, 0x00, 0x13], 0xCC9C);
    RegisterCons(0x01, [0x00, 0x00, 0x13], 0xD465);
    RegisterCons(0x00, [0x00, 0x13], 0xFED8);
    RegisterCons(0x00, [0x13], 0xD6D1);
    RegisterCons(0x13, [], 0x7ABB);
  }

  lemma PiRegister1()
    ensures Register([0x37], 0x468F, POLY) == 0xE1B6
  {
    RegisterCons(0x37, [], 0x468F);
  }

  lemma PiCheck(check: seq<byte>)
    requires check == [0x1E, 0x49]
    ensures check == CrcBytes(0xE1B6 ^ 0xFFFF)
    ensures !IsReserved(check[0]) && !IsReserved(check[1])
  {
  }

  lemma PiLayout(msg: seq<byte>, p0: seq<byte>, p1: seq<byte>)
    requires msg == [0x01, 0x00, 0x00, 0x13, 0x37]
    requires p0 == [0x00, 0x00, 0x00, 0x05, 0x01, 0x00, 0x00, 0x13]
    requires p1 == [0x37]
    ensures p0 + p1 == Header(0, |msg|) + msg
  {
    HeaderOf5();
  }

  lemma PiRegisters(p0: seq<byte>, p1: seq<byte>)
    requires p0 == [0x00, 0x00, 0x00, 0x05, 0x01, 0x00, 0x00, 0x13]
    requires p1 == [0x37]
    ensures Register(p0, INIT, POLY) == 0x468F && Register(p1, 0x468F, POLY) == 0xE1B6
  {
    PiRegister0();
    PiRegister1();
  }

  lemma PiUnreserved(p0: seq<byte>, p1: seq<byte>)
    requires p0 == [0x00, 0x00, 0x00, 0x05, 0x01, 0x00, 0x00, 0x13]
    requires p1 == [0x37]
    ensures forall i :: 0 <= i < |p0| ==> !IsReserved(p0[i])
    ensures forall i :: 0 <= i < |p1| ==> !IsReserved(p1[i])
  {
  }

  lemma PiBytes(p0: seq<byte>, p1: seq<byte>, check: seq<byte>, frame: seq<byte>)
    requires p0 == [0x00, 0x00, 0x00, 0x05, 0x01, 0x00, 0x00, 0x13]
    requires p1 == [0x37]
    requires check == [0x1E, 0x49]
    requires frame == [0xFE, 0x00, 0x00, 0x00, 0x05, 0x01, 0x00, 0x00, 0x13, 0x37, 0x1E, 0x49, 0xFF]
    ensures frame == [START] + ((p0 + p1) + check) + [STOP]
  {
  }

  lemma PiPieces(msg: seq<byte>) returns (p0: seq<byte>, p1: seq<byte>, check: seq<byte>, frame: seq<byte>)
    requires msg == [0x01, 0x00, 0x00, 0x13, 0x37]
    ensures frame == [0xFE, 0x00, 0x00, 0x00, 0x05, 0x01, 0x00, 0x00, 0x13, 0x37, 0x1E, 0x49, 0xFF]
    ensures p0 + p1 == Header(0, |msg|) + msg
    ensures Register(p0, INIT, POLY) == 0x468F && Register(p1, 0x468F, POLY) == 0xE1B6
    ensures check == CrcBytes(0xE1B6 ^ 0xFFFF)
    ensures forall i :: 0 <= i < |p0| ==> !IsReserved(p0[i])
    ensures forall i :: 0 <= i < |p1| ==> !IsReserved(p1[i])
    ensures !IsReserved(check[0]) && !IsReserved(check[1])
    ensures frame == [START] + ((p0 + p1) + check) + [STOP]
  {
    p0, p1 := [0x00, 0x00, 0x00, 0x05, 0x01, 0x00, 0x00, 0x13], [0x37];
    check := [0x1E, 0x49];
    frame := [0xFE, 0x00, 0x00, 0x00, 0x05, 0x01, 0x00, 0x00, 0x13, 0x37, 0x1E, 0x49, 0xFF];
    PiRegisters(p0, p1);
    PiCheck(check);
    PiLayout(msg, p0, p1);
    PiUnreserved(p0, p1);
    PiBytes(p0, p1, check, frame);
  }

  /** The frame of the PI message at address 0. */
  lemma PiFrame(msg: seq<byte>)
    requires msg == [0x01, 0x00, 0x00, 0x13, 0x37]
    ensures Pkg.BuildFrame(msg)
      == [0xFE, 0x00, 0x00, 0x00, 0x05, 0x01, 0x00, 0x00, 0x13, 0x37, 0x1E, 0x49, 0xFF]
  {
    var p0, p1, check, frame := PiPieces(msg);
    FrameOfParts(msg, p0, p1, 0x468F, 0xE1B6, check, frame);
  }

  lemma PtyRegister0()
    ensures Register([0x00, 0x00, 0x00, 0x04], INIT, POLY) == 0xC444
  {
    RegisterCons(0x00, [0x00, 0x00, 0x04], 0xFFFF);
    RegisterCons(0x00, [0x00, 0x04], 0xE1F0);
    RegisterCons(0x00, [0x04], 0x1D0F);
    RegisterCons(0x04, [], 0xCC9C);
  }

  lemma PtyRegister1()
    ensures Register([0x07, 0x00, 0x00, 0x0F], 0xC444, POLY) == 0x18FA
  {
    RegisterCons(0x07, [0x00, 0x00, 0x0F], 0xC444);
    RegisterCons(0x00, [0x00, 0x0F], 0xAD2F);
    RegisterCons(0x00, [0x0F], 0x4B47);
    RegisterCons(0x0F, [], 0xBEAF);
  }

  lemma PtyCheck(check: seq<byte>)
    requires check == [0xE7, 0x05]
    ensures check == CrcBytes(0x18FA ^ 0xFFFF)
    ensures !IsReserved(check[0]) && !IsReserved(check[1])
  {
  }

  lemma PtyLayout(msg: seq<byte>, p0: seq<byte>, p1: seq<byte>)
    requires msg == [0x07, 0x00, 0x00, 0x0F]
    requires p0 == [0x00, 0x00, 0x00, 0x04]
    requires p1 == [0x07, 0x00, 0x00, 0x0F]
    ensures p0 + p1 == Header(0, |msg|) + msg
  {
    HeaderOf4();
  }

  lemma PtyRegisters(p0: seq<byte>, p1: seq<byte>)
    requires p0 == [0x00, 0x00, 0x00, 0x04]
    requires p1 == [0x07, 0x00, 0x00, 0x0F]
    ensures Register(p0, INIT, POLY) == 0xC444 && Register(p1, 0xC444, POLY) == 0x18FA
  {
    PtyRegister0();
    PtyRegister1();
  }

  lemma PtyUnreserved(p0: seq<byte>, p1: seq<byte>)
    requires p0 == [0x00, 0x00, 0x00, 0x04]
    requires p1 == [0x07, 0x00, 0x00, 0x0F]
    ensures forall i :: 0 <= i < |p0| ==> !IsReserved(p0[i])
    ensures forall i :: 0 <= i < |p1| ==> !IsReserved(p1[i])
  {
  }

  lemma PtyBytes(p0: seq<byte>, p1: seq<byte>, check: seq<byte>, frame: seq<byte>)
    requires p0 == [0x00, 0x00, 0x00, 0x04]
    requires p1 == [0x07, 0x00, 0x00, 0x0F]
    requires check == [0xE7, 0x05]
    requires frame == [0xFE, 0x00, 0x00, 0x00, 0x04, 0x07, 0x00, 0x00, 0x0F, 0xE7, 0x05, 0xFF]
    ensures frame == [START] + ((p0 + p1) + check) + [STOP]
  {
  }

  lemma PtyPieces(msg: seq<byte>) returns (p0: seq<byte>, p1: seq<byte>, check: seq<byte>, frame: seq<byte>)
    requires msg == [0x07, 0x00, 0x00, 0x0F]
    ensures frame == [0xFE, 0x00, 0x00, 0x00, 0x04, 0x07, 0x00, 0x00, 0x0F, 0xE7, 0x05, 0xFF]
    ensures p0 + p1 == Header(0, |msg|) + msg
    ensures Register(p0, INIT, POLY) == 0xC444 && Register(p1, 0xC444, POLY) == 0x18FA
    ensures check == CrcBytes(0x18FA ^ 0xFFFF)
    ensures forall i :: 0 <= i < |p0| ==> !IsReserved(p0[i])
    ensures forall i :: 0 <= i < |p1| ==> !IsReserved(p1[i])
    ensures !IsReserved(check[0]) && !IsReserved(check[1])
    ensures frame == [START] + ((p0 + p1) + check) + [STOP]
  {
    p0, p1 := [0x00, 0x00, 0x00, 0x04], [0x07, 0x00, 0x00, 0x0F];
    check := [0xE7, 0x05];
    frame := [0xFE, 0x00, 0x00, 0x00, 0x04, 0x07, 0x00, 0x00, 0x0F, 0xE7, 0x05, 0xFF];
    PtyRegisters(p0, p1);
    PtyCheck(check);
    PtyLayout(msg, p0, p1);
    PtyUnreserved(p0, p1);
    PtyBytes(p0, p1, check, frame);
  }

  /** The frame of the PTY message at address 0. */
  lemma PtyFrame(msg: seq<byte>)
    requires msg == [0x07, 0x00, 0x00, 0x0F]
    ensures Pkg.BuildFrame(msg)
      == [0xFE, 0x00, 0x00, 0x00, 0x04, 0x07, 0x00, 0x00, 0x0F, 0xE7, 0x05, 0xFF]
  {
    var p0, p1, check, frame := PtyPieces(msg);
    FrameOfParts(msg, p0, p1, 0xC444, 0x18FA, check, frame);
  }

  lemma MsRegister0()
    ensures Register([0x00, 0x00, 0x00, 0x04], INIT, POLY) == 0xC444
  {
    RegisterCons(0x00, [0x00, 0x00, 0x04], 0xFFFF);
    RegisterCons(0x00, [0x00, 0x04], 0xE1F0);
    RegisterCons(0x00, [0x04], 0x1D0F);
    RegisterCons(0x04, [], 0xCC9C);
  }

  lemma MsRegister1()
    ensures Register([0x05, 0x00, 0x00, 0x01], 0xC444, POLY) == 0x145C
  {
    RegisterCons(0x05, [0x00, 0x00, 0x01], 0xC444);
    RegisterCons(0x00, [0x00, 0x01], 0x8D6D);
    RegisterCons(0x00, [0x01], 0x2D25);
    RegisterCons(0x01, [], 0xD0CF);
  }

  lemma MsCheck(check: seq<byte>)
    requires check == [0xEB, 0xA3]
    ensures check == CrcBytes(0x145C ^ 0xFFFF)
    ensures !IsReserved(check[0]) && !IsReserved(check[1])
  {
  }

  lemma MsLayout(msg: seq<byte>, p0: seq<byte>, p1: seq<byte>)
    requires msg == [0x05, 0x00, 0x00, 0x01]
    requires p0 == [0x00, 0x00, 0x00, 0x04]
    requires p1 == [0x05, 0x00, 0x00, 0x01]
    ensures p0 + p1 == Header(0, |msg|) + msg
  {
    HeaderOf4();
  }

  lemma MsRegisters(p0: seq<byte>, p1: seq<byte>)
    requires p0 == [0x00, 0x00, 0x00, 0x04]
    requires p1 == [0x05, 0x00, 0x00, 0x01]
    ensures Register(p0, INIT, POLY) == 0xC444 && Register(p1, 0xC444, POLY) == 0x145C
  {
    MsRegister0();
    MsRegister1();
  }

  lemma MsUnreserved(p0: seq<byte>, p1: seq<byte>)
    requires p0 == [0x00, 0x00, 0x00, 0x04]
    requires p1 == [0x05, 0x00, 0x00, 0x01]
    ensures forall i :: 0 <= i < |p0| ==> !IsReserved(p0[i])
    ensures forall i :: 0 <= i < |p1| ==> !IsReserved(p1[i])
  {
  }

  lemma MsBytes(p0: seq<byte>, p1: seq<byte>, check: seq<byte>, frame: seq<byte>)
    requires p0 == [0x00, 0x00, 0x00, 0x04]
    requires p1 == [0x05, 0x00, 0x00, 0x01]
    requires check == [0xEB, 0xA3]
    requires frame == [0xFE, 0x00, 0x00, 0x00, 0x04, 0x05, 0x00, 0x00, 0x01, 0xEB, 0xA3, 0xFF]
    ensures frame == [START] + ((p0 + p1) + check) + [STOP]
  {
  }

  lemma MsPieces(msg: seq<byte>) returns (p0: seq<byte>, p1: seq<byte>, check: seq<byte>, frame: seq<byte>)
    requires msg == [0x05, 0x00, 0x00, 0x01]
    ensures frame == [0xFE, 0x00, 0x00, 0x00, 0x04, 0x05, 0x00, 0x00, 0x01, 0xEB, 0xA3, 0xFF]
    ensures p0 + p1 == Header(0, |msg|) + msg
    ensures Register(p0, INIT, POLY) == 0xC444 && Register(p1, 0xC444, POLY) == 0x145C
    ensures check == CrcBytes(0x145C ^ 0xFFFF)
    ensures forall i :: 0 <= i < |p0| ==> !IsReserved(p0[i])
    ensures forall i :: 0 <= i < |p1| ==> !IsReserved(p1[i])
    ensures !IsReserved(check[0]) && !IsReserved(check[1])
    ensures frame == [START] + ((p0 + p1) + check) + [STOP]
  {
    p0, p1 := [0x00, 0x00, 0x00, 0x04], [0x05, 0x00, 0x00, 0x01];
    check := [0xEB, 0xA3];
    frame := [0xFE, 0x00, 0x00, 0x00, 0x04, 0x05, 0x00, 0x00, 0x01, 0xEB, 0xA3, 0xFF];
    MsRegisters(p0, p1);
    MsCheck(check);
    MsLayout(msg, p0, p1);
    MsUnreserved(p0, p1);
    MsBytes(p0, p1, check, frame);
  }

  /** The frame of the MS message at address 0. */
  lemma MsFrame(msg: seq<byte>)
    requires msg == [0x05, 0x00, 0x00, 0x01]
    ensures Pkg.BuildFrame(msg)
      == [0xFE, 0x00, 0x00, 0x00, 0x04, 0x05, 0x00, 0x00, 0x01, 0xEB, 0xA3, 0xFF]
  {
    var p0, p1, check, frame := MsPieces(msg);
    FrameOfParts(msg, p0, p1, 0xC444, 0x145C, check, frame);
  }

  lemma DiRegister0()
    ensures Register([0x00, 0x00, 0x00, 0x04], INIT, POLY) == 0xC444
  {
    RegisterCons(0x00, [0x00, 0x00, 0x04], 0xFFFF);
    RegisterCons(0x00, [0x00, 0x04], 0xE1F0);
    RegisterCons(0x00, [0x04], 0x1D0F);
    RegisterCons(0x04, [], 0xCC9C);
  }

  lemma DiRegister1()
    ensures Register([0x04, 0x00, 0x00, 0x00], 0xC444, POLY) == 0x72C9
  {
    RegisterCons(0x04, [0x00, 0x00, 0x00], 0xC444);
    RegisterCons(0x00, [0x00, 0x00], 0x9D4C);
    RegisterCons(0x00, [0x00], 0x1E14);
    RegisterCons(0x00, [], 0xE7FF);
  }

  lemma DiCheck(check: seq<byte>)
    requires check == [0x8D, 0x36]
    ensures check == CrcBytes(0x72C9 ^ 0xFFFF)
    ensures !IsReserved(check[0]) && !IsReserved(check[1])
  {
  }

  lemma DiLayout(msg: seq<byte>, p0: seq<byte>, p1: seq<byte>)
    requires msg == [0x04, 0x00, 0x00, 0x00]
    requires p0 == [0x00, 0x00, 0x00, 0x04]
    requires p1 == [0x04, 0x00, 0x00, 0x00]
    ensures p0 + p1 == Header(0, |msg|) + msg
  {
    HeaderOf4();
  }

  lemma DiRegisters(p0: seq<byte>, p1: seq<byte>)
    requires p0 == [0x00, 0x00, 0x00, 0x04]
    requires p1 == [0x04, 0x00, 0x00, 0x00]
    ensures Register(p0, INIT, POLY) == 0xC444 && Register(p1, 0xC444, POLY) == 0x72C9
  {
    DiRegister0();
    DiRegister1();
  }

  lemma DiUnreserved(p0: seq<byte>, p1: seq<byte>)
    requires p0 == [0x00, 0x00, 0x00, 0x04]
    requires p1 == [0x04, 0x00, 0x00, 0x00]
    ensures forall i :: 0 <= i < |p0| ==> !IsReserved(p0[i])
    ensures forall i :: 0 <= i < |p1| ==> !IsReserved(p1[i])
  {
  }

  lemma DiBytes(p0: seq<byte>, p1: seq<byte>, check: seq<byte>, frame: seq<byte>)
    requires p0 == [0x00, 0x00, 0x00, 0x04]
    requires p1 == [0x04, 0x00, 0x00, 0x00]
    requires check == [0x8D, 0x36]
    requires frame == [0xFE, 0x00, 0x00, 0x00, 0x04, 0x04, 0x00, 0x00, 0x00, 0x8D, 0x36, 0xFF]
    ensures frame == [START] + ((p0 + p1) + check) + [STOP]
  {
  }

  lemma DiPieces(msg: seq<byte>) returns (p0: seq<byte>, p1: seq<byte>, check: seq<byte>, frame: seq<byte>)
    requires msg == [0x04, 0x00, 0x00, 0x00]
    ensures frame == [0xFE, 0x00, 0x00, 0x00, 0x04, 0x04, 0x00, 0x00, 0x00, 0x8D, 0x36, 0xFF]
    ensures p0 + p1 == Header(0, |msg|) + msg
    ensures Register(p0, INIT, POLY) == 0xC444 && Register(p1, 0xC444, POLY) == 0x72C9
    ensures check == CrcBytes(0x72C9 ^ 0xFFFF)
    ensures forall i :: 0 <= i < |p0| ==> !IsReserved(p0[i])
    ensures forall i :: 0 <= i < |p1| ==> !IsReserved(p1[i])
    ensures !IsReserved(check[0]) && !IsReserved(check[1])
    ensures frame == [START] + ((p0 + p1) + check) + [STOP]
  {
    p0, p1 := [0x00, 0x00, 0x00, 0x04], [0x04, 0x00, 0x00, 0x00];
    check := [0x8D, 0x36];
    frame := [0xFE, 0x00, 0x00, 0x00, 0x04, 0x04, 0x00, 0x00, 0x00, 0x8D, 0x36, 0xFF];
    DiRegisters(p0, p1);
    DiCheck(check);
    DiLayout(msg, p0, p1);
    DiUnreserved(p0, p1);
    DiBytes(p0, p1, check, frame);
  }

  /** The frame of the DI message at address 0. */
  lemma DiFrame(msg: seq<byte>)
    requires msg == [0x04, 0x00, 0x00, 0x00]
    ensures Pkg.BuildFrame(msg)
      == [0xFE, 0x00, 0x00, 0x00, 0x04, 0x04, 0x00, 0x00, 0x00, 0x8D, 0x36, 0xFF]
  {
    var p0, p1, check, frame := DiPieces(msg);
    FrameOfParts(msg, p0, p1, 0xC444, 0x72C9, check, frame);
  }

  lemma AfRegister0()
    ensures Register([0x00, 0x00, 0x00, 0x0A, 0x13, 0x00, 0x00, 0x05], INIT, POLY) == 0xA74E
  {
    RegisterCons(0x00, [0x00, 0x00, 0x0A, 0x13, 0x00, 0x00, 0x05], 0xFFFF);
    RegisterCons(0x00, [0x00, 0x0A, 0x13, 0x00, 0x00, 0x05], 0xE1F0);
    RegisterCons(0x00, [0x0A, 0x13, 0x00, 0x00, 0x05], 0x1D0F);
    RegisterCons(0x0A, [0x13, 0x00, 0x00, 0x05], 0xCC9C);
    RegisterCons(0x13, [0x00, 0x00, 0x05], 0x258A);
    RegisterCons(0x00, [0x00, 0x05], 0xDC95);
    RegisterCons(0x00, [0x05], 0x9FF1);
    RegisterCons(0x05, [], 0x8356);
  }

  lemma AfRegister1()
    ensures Register([0x00, 0x00, 0xE1, 0x31, 0x00, 0x60], 0xA74E, POLY) == 0x9BC4
  {
    RegisterCons(0x00, [0x00, 0xE1, 0x31, 0x00, 0x60], 0xA74E);
    RegisterCons(0x00, [0xE1, 0x31, 0x00, 0x60], 0x8B0D);
    RegisterCons(0xE1, [0x31, 0x00, 0x60], 0x2DE3);
    RegisterCons(0x31, [0x00, 0x60], 0xFBC0);
    RegisterCons(0x00, [0x60], 0xB806);
    RegisterCons(0x60, [], 0x20D3);
  }

  lemma AfCheck(check: seq<byte>)
    requires check == [0x64, 0x3B]
    ensures check == CrcBytes(0x9BC4 ^ 0xFFFF)
    ensures !IsReserved(check[0]) && !IsReserved(check[1])
  {
  }

  lemma AfLayout(msg: seq<byte>, p0: seq<byte>, p1: seq<byte>)
    requires msg == [0x13, 0x00, 0x00, 0x05, 0x00, 0x00, 0xE1, 0x31, 0x00, 0x60]
    requires p0 == [0x00, 0x00, 0x00, 0x0A, 0x13, 0x00, 0x00, 0x05]
    requires p1 == [0x00, 0x00, 0xE1, 0x31, 0x00, 0x60]
    ensures p0 + p1 == Header(0, |msg|) + msg
  {
    HeaderOf10();
  }

  lemma AfRegisters(p0: seq<byte>, p1: seq<byte>)
    requires p0 == [0x00, 0x00, 0x00, 0x0A, 0x13, 0x00, 0x00, 0x05]
    requires p1 == [0x00, 0x00, 0xE1, 0x31, 0x00, 0x60]
    ensures Register(p0, INIT, POLY) == 0xA74E && Register(p1, 0xA74E, POLY) == 0x9BC4
  {
    AfRegister0();
    AfRegister1();
  }

  lemma AfUnreserved(p0: seq<byte>, p1: seq<byte>)
    requires p0 == [0x00, 0x00, 0x00, 0x0A, 0x13, 0x00, 0x00, 0x05]
    requires p1 == [0x00, 0x00, 0xE1, 0x31, 0x00, 0x60]
    ensures forall i :: 0 <= i < |p0| ==> !IsReserved(p0[i])
    ensures forall i :: 0 <= i < |p1| ==> !IsReserved(p1[i])
  {
  }

  lemma AfBytes(p0: seq<byte>, p1: seq<byte>, check: seq<byte>, frame: seq<byte>)
    requires p0 == [0x00, 0x00, 0x00, 0x0A, 0x13, 0x00, 0x00, 0x05]
    requires p1 == [0x00, 0x00, 0xE1, 0x31, 0x00, 0x60]
    requires check == [0x64, 0x3B]
    requires frame == [0xFE, 0x00, 0x00, 0x00, 0x0A, 0x13, 0x00, 0x00, 0x05, 0x00, 0x00, 0xE1, 0x31, 0x00, 0x60, 0x64, 0x3B, 0xFF]
    ensures frame == [START] + ((p0 + p1) + check) + [STOP]
  {
  }

  lemma AfPieces(msg: seq<byte>) returns (p0: seq<byte>, p1: seq<byte>, check: seq<byte>, frame: seq<byte>)
    requires msg == [0x13, 0x00, 0x00, 0x05, 0x00, 0x00, 0xE1, 0x31, 0x00, 0x60]
    ensures frame == [0xFE, 0x00, 0x00, 0x00, 0x0A, 0x13, 0x00, 0x00, 0x05, 0x00, 0x00, 0xE1, 0x31, 0x00, 0x60, 0x64, 0x3B, 0xFF]
    ensures p0 + p1 == Header(0, |msg|) + msg
    ensures Register(p0, INIT, POLY) == 0xA74E && Register(p1, 0xA74E, POLY) == 0x9BC4
    ensures check == CrcBytes(0x9BC4 ^ 0xFFFF)
    ensures forall i :: 0 <= i < |p0| ==> !IsReserved(p0[i])
    ensures forall i :: 0 <= i < |p1| ==> !IsReserved(p1[i])
    ensures !IsReserved(check[0]) && !IsReserved(check[1])
    ensures frame == [START] + ((p0 + p1) + check) + [STOP]
  {
    p0, p1 := [0x00, 0x00, 0x00, 0x0A, 0x13, 0x00, 0x00, 0x05], [0x00, 0x00, 0xE1, 0x31, 0x00, 0x60];
    check := [0x64, 0x3B];
    frame := [0xFE, 0x00, 0x00, 0x00, 0x0A, 0x13, 0x00, 0x00, 0x05, 0x00, 0x00, 0xE1, 0x31, 0x00, 0x60, 0x64, 0x3B, 0xFF];
    AfRegisters(p0, p1);
    AfCheck(check);
    AfLayout(msg, p0, p1);
    AfUnreserved(p0, p1);
    AfBytes(p0, p1, check, frame);
  }

  /** The frame of the AF message at address 0. */
  lemma AfFrame(msg: seq<byte>)
    requires msg == [0x13, 0x00, 0x00, 0x05, 0x00, 0x00, 0xE1, 0x31, 0x00, 0x60]
    ensures Pkg.BuildFrame(msg)
      == [0xFE, 0x00, 0x00, 0x00, 0x0A, 0x13, 0x00, 0x00, 0x05, 0x00, 0x00, 0xE1, 0x31, 0x00, 0x60, 0x64, 0x3B, 0xFF]
  {
    var p0, p1, check, frame := AfPieces(msg);
    FrameOfParts(msg, p0, p1, 0xA74E, 0x9BC4, check, frame);
  }

  lemma CtRegister0()
    ensures Register([0x00, 0x00, 0x00, 0x0B, 0x0D, 0x19, 0x00, 0x17], INIT, POLY) == 0x5B63
  {
    RegisterCons(0x00, [0x00, 0x00, 0x0B, 0x0D, 0x19, 0x00, 0x17], 0xFFFF);
    RegisterCons(0x00, [0x00, 0x0B, 0x0D, 0x19, 0x00, 0x17], 0xE1F0);
    RegisterCons(0x00, [0x0B, 0x0D, 0x19, 0x00, 0x17], 0x1D0F);
    RegisterCons(0x0B, [0x0D, 0x19, 0x00, 0x17], 0xCC9C);
    RegisterCons(0x0D, [0x19, 0x00, 0x17], 0x35AB);
    RegisterCons(0x19, [0x00, 0x17], 0x1C5B);
    RegisterCons(0x00, [0x17], 0x0BA5);
    RegisterCons(0x17, [], 0x146B);
  }

  lemma CtRegister1()
    ensures Register([0x08, 0x19, 0x0C, 0x22, 0x38, 0x00, 0x00], 0x5B63, POLY) == 0xCC82
  {
    RegisterCons(0x08, [0x19, 0x0C, 0x22, 0x38, 0x00, 0x00], 0x5B63);
    RegisterCons(0x19, [0x0C, 0x22, 0x38, 0x00, 0x00], 0x0996);
    RegisterCons(0x0C, [0x22, 0x38, 0x00, 0x00], 0x8431);
    RegisterCons(0x22, [0x38, 0x00, 0x00], 0x2180);
    RegisterCons(0x38, [0x00, 0x00], 0xB063);
    RegisterCons(0x00, [0x00], 0x7380);
    RegisterCons(0x00, [], 0xCEF4);
  }

  lemma CtCheck(check: seq<byte>)
    requires check == [0x33, 0x7D]
    ensures check == CrcBytes(0xCC82 ^ 0xFFFF)
    ensures !IsReserved(check[0]) && !IsReserved(check[1])
  {
  }

  lemma CtLayout(msg: seq<byte>, p0: seq<byte>, p1: seq<byte>)
    requires msg == [0x0D, 0x19, 0x00, 0x17, 0x08, 0x19, 0x0C, 0x22, 0x38, 0x00, 0x00]
    requires p0 == [0x00, 0x00, 0x00, 0x0B, 0x0D, 0x19, 0x00, 0x17]
    requires p1 == [0x08, 0x19, 0x0C, 0x22, 0x38, 0x00, 0x00]
    ensures p0 + p1 == Header(0, |msg|) + msg
  {
    HeaderOf11();
  }

  lemma CtRegisters(p0: seq<byte>, p1: seq<byte>)
    requires p0 == [0x00, 0x00, 0x00, 0x0B, 0x0D, 0x19, 0x00, 0x17]
    requires p1 == [0x08, 0x19, 0x0C, 0x22, 0x38, 0x00, 0x00]
    ensures Register(p0, INIT, POLY) == 0x5B63 && Register(p1, 0x5B63, POLY) == 0xCC82
  {
    CtRegister0();
    CtRegister1();
  }

  lemma CtUnreserved(p0: seq<byte>, p1: seq<byte>)
    requires p0 == [0x00, 0x00, 0x00, 0x0B, 0x0D, 0x19, 0x00, 0x17]
    requires p1 == [0x08, 0x19, 0x0C, 0x22, 0x38, 0x00, 0x00]
    ensures forall i :: 0 <= i < |p0| ==> !IsReserved(p0[i])
    ensures forall i :: 0 <= i < |p1| ==> !IsReserved(p1[i])
  {
  }

  lemma CtBytes(p0: seq<byte>, p1: seq<byte>, check: seq<byte>, frame: seq<byte>)
    requires p0 == [0x00, 0x00, 0x00, 0x0B, 0x0D, 0x19, 0x00, 0x17]
    requires p1 == [0x08, 0x19, 0x0C, 0x22, 0x38, 0x00, 0x00]
    requires check == [0x33, 0x7D]
    requires frame == [0xFE, 0x00, 0x00, 0x00, 0x0B, 0x0D, 0x19, 0x00, 0x17, 0x08, 0x19, 0x0C, 0x22, 0x38, 0x00, 0x00, 0x33, 0x7D, 0xFF]
    ensures frame == [START] + ((p0 + p1) + check) + [STOP]
  {
  }

  lemma CtPieces(msg: seq<byte>) returns (p0: seq<byte>, p1: seq<byte>, check: seq<byte>, frame: seq<byte>)
    requires msg == [0x0D, 0x19, 0x00, 0x17, 0x08, 0x19, 0x0C, 0x22, 0x38, 0x00, 0x00]
    ensures frame == [0xFE, 0x00, 0x00, 0x00, 0x0B, 0x0D, 0x19, 0x00, 0x17, 0x08, 0x19, 0x0C, 0x22, 0x38, 0x00, 0x00, 0x33, 0x7D, 0xFF]
    ensures p0 + p1 == Header(0, |msg|) + msg
    ensures Register(p0, INIT, POLY) == 0x5B63 && Register(p1, 0x5B63, POLY) == 0xCC82
    ensures check == CrcBytes(0xCC82 ^ 0xFFFF)
    ensures forall i :: 0 <= i < |p0| ==> !IsReserved(p0[i])
    ensures forall i :: 0 <= i < |p1| ==> !IsReserved(p1[i])
    ensures !IsReserved(check[0]) && !IsReserved(check[1])
    ensures frame == [START] + ((p0 + p1) + check) + [STOP]
  {
    p0, p1 := [0x00, 0x00, 0x00, 0x0B, 0x0D, 0x19, 0x00, 0x17], [0x08, 0x19, 0x0C, 0x22, 0x38, 0x00, 0x00];
    check := [0x33, 0x7D];
    frame := [0xFE, 0x00, 0x00, 0x00, 0x0B, 0x0D, 0x19, 0x00, 0x17, 0x08, 0x19, 0x0C, 0x22, 0x38, 0x00, 0x00, 0x33, 0x7D, 0xFF];
    CtRegisters(p0, p1);
    CtCheck(check);
    CtLayout(msg, p0, p1);
    CtUnreserved(p0, p1);
    CtBytes(p0, p1, check, frame);
  }

  /** The frame of the CT message at address 0. */
  lemma CtFrame(msg: seq<byte>)
    requires msg == [0x0D, 0x19, 0x00, 0x17, 0x08, 0x19, 0x0C, 0x22, 0x38, 0x00, 0x00]
    ensures Pkg.BuildFrame(msg)
      == [0xFE, 0x00, 0x00, 0x00, 0x0B, 0x0D, 0x19, 0x00, 0x17, 0x08, 0x19, 0x0C, 0x22, 0x38, 0x00, 0x00, 0x33, 0x7D, 0xFF]
  {
    var p0, p1, check, frame := CtPieces(msg);
    FrameOfParts(msg, p0, p1, 0x5B63, 0xCC82, check, frame);
  }

  lemma HeaderOf4()
    ensures Header(0, 4) == [0x00, 0x00, 0x00, 0x04]
  {
    LowByteIs(0, 0);
    LowByteIs(4, 4);
  }

  lemma HeaderOf5()
    ensures Header(0, 5) == [0x00, 0x00, 0x00, 0x05]
  {
    LowByteIs(0, 0);
    LowByteIs(5, 5);
  }

  lemma HeaderOf10()
    ensures Header(0, 10) == [0x00, 0x00, 0x00, 0x0A]
  {
    LowByteIs(0, 0);
    LowByteIs(10, 10);
  }

  lemma HeaderOf11()
    ensures Header(0, 11) == [0x00, 0x00, 0x00, 0x0B]
  {
    LowByteIs(0, 0);
    LowByteIs(11, 11);
  }
  /** "DEMO" padded to the eight PS characters. */
  lemma DemoPadded()
    ensures PadRight([0x44, 0x45, 0x4D, 0x4F], 8) == [0x44, 0x45, 0x4D, 0x4F, 0x20, 0x20, 0x20, 0x20]
  {
    assert Repeat(SPACE, 4) == [0x20, 0x20, 0x20, 0x20];
  }

  /** 92.4 MHz is AF code 0x31, sent in the single-frequency layout. */
  lemma AfOfDemo()
    ensures ValidCodes([924]) == [0x31]
    ensures Pkg.PkgAfPayload([0x31]) == Some([0x05, 0x00, 0x00, 0xE1, 0x31, 0x00, 0x60])
  {
    assert [924][..0] == [];
    LowByteIs(49, 0x31);
  }

  /** PI 0x1337 is sent high byte first. */
  lemma PiOfDemo()
    ensures Pkg.PiData(0x1337) == [0x13, 0x37]
  {
    LowByteIs(0x1337 / 256, 0x13);
    LowByteIs(0x1337, 0x37);
  }

  /** 25 August 2023, 12:34:56, as the package's clock data. */
  lemma CtOfDemo()
    ensures Pkg.CtData(2023, 8, 25, 12, 34, 56) == [0x17, 0x08, 0x19, 0x0C, 0x22, 0x38, 0x00, 0x00]
  {
    assert Pkg.GoRem(2023, 100) == 23;
    DateBytes();
    TimeBytes();
  }

  lemma DateBytes()
    ensures LowByte(23) == 0x17 && LowByte(8) == 0x08 && LowByte(25) == 0x19
  {
    LowByteIs(23, 23);
    LowByteIs(8, 8);
    LowByteIs(25, 25);
  }

  lemma TimeBytes()
    ensures LowByte(12) == 0x0C && LowByte(34) == 0x22 && LowByte(56) == 0x38
  {
    LowByteIs(12, 12);
    LowByteIs(34, 34);
    LowByteIs(56, 56);
  }

  /** The PS frame of a station named "DEMO" at address 0. */
  lemma PsVector()
    ensures Pkg.BuildFrame(Pkg.BuildGroup(0x02, PadRight([0x44, 0x45, 0x4D, 0x4F], 8)))
      == [0xFE, 0x00, 0x00, 0x00, 0x0B, 0x02, 0x00, 0x00, 0x44, 0x45, 0x4D, 0x4F, 0x20, 0x20, 0x20, 0x20, 0x91, 0x80, 0xFF]
  {
    DemoPadded();
    PsGroup();
    PsFrame([0x02, 0x00, 0x00, 0x44, 0x45, 0x4D, 0x4F, 0x20, 0x20, 0x20, 0x20]);
  }

  /** The TP/TA frame with traffic programme on and announcement off. */
  lemma TpVector()
    ensures Pkg.BuildFrame(Pkg.BuildGroup(0x03, [TpTaByte(true, false)]))
      == [0xFE, 0x00, 0x00, 0x00, 0x04, 0x03, 0x00, 0x00, 0x02, 0xFC, 0x59, 0xFF]
  {
    assert TpTaByte(true, false) == 0x02;
    TpGroup();
    TpFrame([0x03, 0x00, 0x00, 0x02]);
  }

  /** The PI frame of PI 0x1337. */
  lemma PiVector()
    ensures Pkg.BuildFrame(Pkg.BuildGroup(0x01, Pkg.PiData(0x1337)))
      == [0xFE, 0x00, 0x00, 0x00, 0x05, 0x01, 0x00, 0x00, 0x13, 0x37, 0x1E, 0x49, 0xFF]
  {
    PiOfDemo();
    PiGroup();
    PiFrame([0x01, 0x00, 0x00, 0x13, 0x37]);
  }

  /** The PTY frame of programme type 15. */
  lemma PtyVector()
    ensures Pkg.BuildFrame(Pkg.BuildGroup(0x07, [LowByte(15)]))
      == [0xFE, 0x00, 0x00, 0x00, 0x04, 0x07, 0x00, 0x00, 0x0F, 0xE7, 0x05, 0xFF]
  {
    LowByteIs(15, 15);
    PtyGroup();
    PtyFrame([0x07, 0x00, 0x00, 0x0F]);
  }

  /** The music/speech frame for music. */
  lemma MsVector()
    ensures Pkg.BuildFrame(Pkg.BuildGroup(0x05, [MsByte(true)]))
      == [0xFE, 0x00, 0x00, 0x00, 0x04, 0x05, 0x00, 0x00, 0x01, 0xEB, 0xA3, 0xFF]
  {
    MsGroup();
    MsFrame([0x05, 0x00, 0x00, 0x01]);
  }

  /** The DI frame with no decoder flag set. */
  lemma DiVector()
    ensures Pkg.BuildFrame(Pkg.BuildGroup(0x04, [DiFlags(false, false, false, false)]))
      == [0xFE, 0x00, 0x00, 0x00, 0x04, 0x04, 0x00, 0x00, 0x00, 0x8D, 0x36, 0xFF]
  {
    assert DiFlags(false, false, false, false) == 0x00;
    DiGroup();
    DiFrame([0x04, 0x00, 0x00, 0x00]);
  }

  /** The AF frame of the list holding 92.4 MHz only. */
  lemma AfVector()
    ensures Pkg.PkgAfPayload(ValidCodes([924])).Some?
    ensures Pkg.BuildFrame(Pkg.BuildGroup(0x13, Pkg.PkgAfPayload(ValidCodes([924])).value))
      == [0xFE, 0x00, 0x00, 0x00, 0x0A, 0x13, 0x00, 0x00, 0x05, 0x00, 0x00, 0xE1, 0x31, 0x00, 0x60, 0x64, 0x3B, 0xFF]
  {
    AfOfDemo();
    AfGroup();
    AfFrame([0x13, 0x00, 0x00, 0x05, 0x00, 0x00, 0xE1, 0x31, 0x00, 0x60]);
  }

  /** The clock frame of 25 August 2023, 12:34:56. */
  lemma CtVector()
    ensures Pkg.BuildFrame(Pkg.BuildGroup(0x0D19, Pkg.CtData(2023, 8, 25, 12, 34, 56)))
      == [0xFE, 0x00, 0x00, 0x00, 0x0B, 0x0D, 0x19, 0x00, 0x17, 0x08, 0x19, 0x0C, 0x22, 0x38, 0x00, 0x00, 0x33, 0x7D, 0xFF]
  {
    var data := [0x17, 0x08, 0x19, 0x0C, 0x22, 0x38, 0x00, 0x00];
    CtOfDemo();
    CtGroup(data);
    CtFrame([0x0D, 0x19, 0x00] + data);
  }
}
