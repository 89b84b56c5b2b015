/** Alternative Frequencies: the code of one frequency and the three payload
    layouts a receiver expects for a list of one, two or three, and four to
    eleven codes. Frequencies are whole tenths of a MHz (924 is 92.4 MHz). */
module AfCodes {
  import opened Bytes
  import opened Wrappers

  /** A code of the RDS AF table: 1 (87.6 MHz) to 204 (107.9 MHz). Zero is
      the filler byte and never a code. */
  predicate IsCode(b: byte)
  {
    1 <= b as int <= 204
  }

  /** The frequency, in tenths of a MHz, that an AF code stands for. */
  function AfTenths(code: byte): int
  {
    875 + code as int
  }

  /** The AF code of a frequency; anything outside the band is refused. The
      second range test of the source can no longer fail once the band test
      has passed, and is kept as written. */
  function EncodeAf(tenths: int): (r: Option<byte>)
    ensures r.Some? <==> 876 <= tenths <= 1079
    ensures r.Some? ==> IsCode(r.value) && AfTenths(r.value) == tenths
  {
    if tenths < 876 || tenths > 1079 then None
    else
      var code := tenths - 875;
      if code < 1 || code > 204 then None else Some(LowByte(code))
  }

  /** Every code of the table is the encoding of its frequency. */
  lemma EncodeAfOnto(code: byte)
    requires IsCode(code)
    ensures EncodeAf(AfTenths(code)) == Some(code)
  {
  }

  /** The codes of the in-band frequencies, in list order; out-of-band
      frequencies are skipped one by one. */
  function ValidCodes(freqs: seq<int>): (codes: seq<byte>)
    ensures |codes| <= |freqs|
    ensures forall i :: 0 <= i < |codes| ==> IsCode(codes[i])
  {
    if freqs == [] then []
    else
      var rest := ValidCodes(freqs[..|freqs| - 1]);
      match EncodeAf(freqs[|freqs| - 1])
      case Some(c) => rest + [c]
      case None => rest
  }

  /** When every frequency is in the band nothing is skipped, and each code
      stands for the frequency at its position. */
  lemma {:induction false} ValidCodesInBand(freqs: seq<int>)
    requires forall i :: 0 <= i < |freqs| ==> 876 <= freqs[i] <= 1079
    ensures |ValidCodes(freqs)| == |freqs|
    ensures forall i :: 0 <= i < |freqs| ==> AfTenths(ValidCodes(freqs)[i]) == freqs[i]
  {
    if freqs != [] {
      var init := freqs[..|freqs| - 1];
      ValidCodesInBand(init);
      assert forall i :: 0 <= i < |init| ==> init[i] == freqs[i];
    }
  }

  /** An out-of-band frequency anywhere in the list contributes nothing. */
  lemma {:induction false} ValidCodesSkips(a: seq<int>, f: int, b: seq<int>)
    requires f < 876 || f > 1079
    ensures ValidCodes(a + [f] + b) == ValidCodes(a + b)
    decreases |b|
  {
    if b == [] {
      assert (a + [f] + b)[..|a + [f] + b| - 1] == a;
      assert a + b == a;
    } else {
      var b' := b[..|b| - 1];
      ValidCodesSkips(a, f, b');
      assert (a + [f] + b)[..|a + [f] + b| - 1] == a + [f] + b';
      assert (a + b)[..|a + b| - 1] == a + b';
    }
  }

  /** The payload a receiver expects for one to eleven codes. One code: the
      single-frequency layout `05 00 00 E1 code 00 60`. Two or three: the
      count marker `E0 + n`, the codes, zero fill to three slots and a
      trailer that depends on the count. Four to eleven: marker `EB`, the
      codes zero-filled to eleven slots, trailer `00 AC`. */
  function Layout(codes: seq<byte>): (p: seq<byte>)
    requires 1 <= |codes| <= 11
    ensures |p| == if |codes| == 1 then 7 else if |codes| <= 3 then 9 else 17
  {
    var n := |codes|;
    if n == 1 then [0x05, 0x00, 0x00, 0xE1, codes[0], 0x00, 0x60]
    else if n <= 3 then
      [0x07, 0x00, 0x00, 0xE0 + ByteOf(n)] + codes + Zeros(3 - n) + [0x00, ShortTrailer(n)]
    else [0x0F, 0x00, 0x00, 0xEB] + codes + Zeros(11 - n) + [0x00, 0xAC]
  }

  /** The last byte of the short-list layout. */
  function ShortTrailer(n: nat): byte
  {
    if n == 2 then 0xD3 else 0xEE
  }

  /** How many slots, from the first, hold codes. */
  function LeadingCodes(slots: seq<byte>): (k: nat)
    ensures k <= |slots|
    ensures forall i :: 0 <= i < k ==> IsCode(slots[i])
    ensures k < |slots| ==> !IsCode(slots[k])
  {
    if slots == [] || !IsCode(slots[0]) then 0 else 1 + LeadingCodes(slots[1..])
  }

  /** Codes followed by zero fill are counted exactly. */
  lemma {:induction false} LeadingCodesOfFilled(codes: seq<byte>, m: nat)
    requires forall i :: 0 <= i < |codes| ==> IsCode(codes[i])
    ensures LeadingCodes(codes + Zeros(m)) == |codes|
  {
    if codes == [] {
      assert codes + Zeros(m) == Zeros(m);
    } else {
      assert (codes + Zeros(m))[1..] == codes[1..] + Zeros(m);
      LeadingCodesOfFilled(codes[1..], m);
    }
  }

  /** Reads the codes back from an AF payload; any byte that does not fit
      one of the three layouts makes it `None`. */
  function Decode(p: seq<byte>): (r: Option<seq<byte>>)
    ensures r.Some? ==> 1 <= |r.value| <= 11
    ensures r.Some? ==> forall i :: 0 <= i < |r.value| ==> IsCode(r.value[i])
  {
    if |p| == 7 && p[..4] == [0x05, 0x00, 0x00, 0xE1] && IsCode(p[4]) && p[5..] == [0x00, 0x60] then
      Some([p[4]])
    else if |p| == 9 && p[..3] == [0x07, 0x00, 0x00] && (p[3] == 0xE2 || p[3] == 0xE3) then
      var n := (p[3] - 0xE0) as int;
      var slots := p[4..7];
      if LeadingCodes(slots) == n && slots[n..] == Zeros(3 - n) && p[7..] == [0x00, ShortTrailer(n)]
      then Some(slots[..n]) else None
    else if |p| == 17 && p[..4] == [0x0F, 0x00, 0x00, 0xEB] && p[15..] == [0x00, 0xAC] then
      var slots := p[4..15];
      var n := LeadingCodes(slots);
      if n >= 4 && slots[n..] == Zeros(11 - n) then Some(slots[..n]) else None
    else None
  }

  /** Every list of one to eleven codes reads back from its layout. */
  lemma DecodeLayout(codes: seq<byte>)
    requires 1 <= |codes| <= 11
    requires forall i :: 0 <= i < |codes| ==> IsCode(codes[i])
    ensures Decode(Layout(codes)) == Some(codes)
  {
    var n := |codes|;
    if n == 1 {
      var p := Layout(codes);
      assert p[..4] == [0x05, 0x00, 0x00, 0xE1] && p[4] == codes[0] && p[5..] == [0x00, 0x60];
      assert [codes[0]] == codes;
    } else if n <= 3 {
      DecodeShortLayout(codes);
    } else {
      DecodeLongLayout(codes);
    }
  }

  /** Two or three codes read back from their layout. */
  lemma DecodeShortLayout(codes: seq<byte>)
    requires 2 <= |codes| <= 3
    requires forall i :: 0 <= i < |codes| ==> IsCode(codes[i])
    ensures Decode(Layout(codes)) == Some(codes)
  {
    var n := |codes|;
    var p := Layout(codes);
    var marker := 0xE0 + ByteOf(n);
    assert p[..3] == [0x07, 0x00, 0x00] && p[3] == marker;
    assert (marker - 0xE0) as int == n && (marker == 0xE2 || marker == 0xE3);
    var slots := p[4..7];
    assert slots == codes + Zeros(3 - n);
    LeadingCodesOfFilled(codes, 3 - n);
    assert slots[..n] == codes && slots[n..] == Zeros(3 - n);
    assert p[7..] == [0x00, ShortTrailer(n)];
  }

  /** Four to eleven codes read back from their layout. */
  lemma DecodeLongLayout(codes: seq<byte>)
    requires 4 <= |codes| <= 11
    requires forall i :: 0 <= i < |codes| ==> IsCode(codes[i])
    ensures Decode(Layout(codes)) == Some(codes)
  {
    var n := |codes|;
    var p := Layout(codes);
    assert p[..4] == [0x0F, 0x00, 0x00, 0xEB] && p[15..] == [0x00, 0xAC];
    var slots := p[4..15];
    assert slots == codes + Zeros(11 - n);
    LeadingCodesOfFilled(codes, 11 - n);
    assert slots[..n] == codes && slots[n..] == Zeros(11 - n);
  }

  /** Every payload that reads back is the layout of what it reads back to,
      so `Layout` and `Decode` are inverse on valid code lists. */
  lemma LayoutDecode(p: seq<byte>)
    requires Decode(p).Some?
    ensures Layout(Decode(p).value) == p
  {
    if |p| == 7 && p[..4] == [0x05, 0x00, 0x00, 0xE1] && IsCode(p[4]) && p[5..] == [0x00, 0x60] {
      assert Decode(p).value == [p[4]];
      assert p == p[..4] + [p[4]] + p[5..];
    } else if |p| == 9 && p[..3] == [0x07, 0x00, 0x00] && (p[3] == 0xE2 || p[3] == 0xE3) {
      ShortLayoutDecode(p);
    } else {
      LongLayoutDecode(p);
    }
  }

  /** The two- and three-code layout read back and laid out again. */
  lemma ShortLayoutDecode(p: seq<byte>)
    requires |p| == 9 && p[..3] == [0x07, 0x00, 0x00] && (p[3] == 0xE2 || p[3] == 0xE3)
    requires Decode(p).Some?
    ensures Layout(Decode(p).value) == p
  {
    var n := if p[3] == 0xE2 then 2 else 3;
    assert (p[3] - 0xE0) as int == n;
    var slots := p[4..7];
    var codes := slots[..n];
    assert Decode(p) == Some(codes);
    assert slots[n..] == Zeros(3 - n) && p[7..] == [0x00, ShortTrailer(n)];
    assert 0xE0 + ByteOf(n) == p[3];
    assert slots == codes + Zeros(3 - n);
    assert p == [0x07, 0x00, 0x00, p[3]] + slots + p[7..];
  }

  /** The four-to-eleven-code layout read back and laid out again. */
  lemma LongLayoutDecode(p: seq<byte>)
    requires !(|p| == 9 && p[..3] == [0x07, 0x00, 0x00] && (p[3] == 0xE2 || p[3] == 0xE3))
    requires !(|p| == 7 && p[..4] == [0x05, 0x00, 0x00, 0xE1] && IsCode(p[4]) && p[5..] == [0x00, 0x60])
    requires Decode(p).Some?
    ensures Layout(Decode(p).value) == p
  {
    assert |p| == 17 && p[..4] == [0x0F, 0x00, 0x00, 0xEB] && p[15..] == [0x00, 0xAC];
    var slots := p[4..15];
    var n := LeadingCodes(slots);
    var codes := slots[..n];
    assert Decode(p) == Some(codes);
    assert slots == codes + Zeros(11 - n);
    assert p == p[..4] + slots + p[15..];
  }
}
