/** The escape rule of the frame body: after every 0xFE or 0xFF byte an 0xFD
    byte is inserted. Nothing is substituted; the reserved byte itself stays. */
module Stuffing {
  import opened Bytes
  import opened Wrappers

  const START: byte := 0xFE
  const STOP: byte := 0xFF
  const ESCAPE: byte := 0xFD

  /** The two values that delimit a frame. */
  predicate IsReserved(b: byte)
  {
    b == START || b == STOP
  }

  /** How many reserved bytes `data` holds. */
  function CountReserved(data: seq<byte>): (n: nat)
    ensures n <= |data|
  {
    if data == [] then 0
    else (if IsReserved(data[0]) then 1 else 0) + CountReserved(data[1..])
  }

  /** The count is zero exactly when no byte is reserved. */
  lemma {:induction false} CountReservedZero(data: seq<byte>)
    ensures CountReserved(data) == 0 <==> forall i :: 0 <= i < |data| ==> !IsReserved(data[i])
  {
    if data != [] {
      CountReservedZero(data[1..]);
      assert forall i :: 1 <= i < |data| ==> data[i] == data[1..][i - 1];
    }
  }

  /** What one input byte becomes. */
  function Escaped(b: byte): seq<byte>
  {
    if IsReserved(b) then [b, ESCAPE] else [b]
  }

  /** The stuffed form of `data`: every byte in order, each reserved one
      followed by an inserted escape byte. */
  function Stuff(data: seq<byte>): (r: seq<byte>)
    ensures |r| == |data| + CountReserved(data)
    ensures |r| > 0 ==> r[0] == data[0]
  {
    if data == [] then [] else Escaped(data[0]) + Stuff(data[1..])
  }

  /** The stuffing loop as the source writes it. */
  method ByteStuff(data: seq<byte>) returns (out: seq<byte>)
    ensures out == Stuff(data)
  {
    out := [];
    var i := 0;
    while i < |data|
      invariant 0 <= i <= |data|
      invariant out == Stuff(data[..i])
    {
      StuffSnoc(data, i);
      ghost var before := out;
      out := out + [data[i]];
      if data[i] == START || data[i] == STOP {
        out := out + [ESCAPE];
        AppendPair(before, data[i], ESCAPE);
      }
      i := i + 1;
    }
    assert data[..i] == data;
  }

  /** A receiver's view: drop the escape byte after each reserved byte, and
      refuse input where a reserved byte is not followed by one. */
  function Unstuff(s: seq<byte>): Option<seq<byte>>
    decreases |s|
  {
    if s == [] then Some([])
    else if IsReserved(s[0]) then
      if |s| >= 2 && s[1] == ESCAPE then
        match Unstuff(s[2..])
        case Some(rest) => Some([s[0]] + rest)
        case None => None
      else None
    else
      match Unstuff(s[1..])
      case Some(rest) => Some([s[0]] + rest)
      case None => None
  }

  /** Every reserved byte of the stuffed form is immediately followed by an
      escape byte (which is not itself reserved). */
  lemma {:induction false} StuffEscapesReserved(data: seq<byte>, i: nat)
    requires i < |Stuff(data)| && IsReserved(Stuff(data)[i])
    ensures i + 1 < |Stuff(data)| && Stuff(data)[i + 1] == ESCAPE
  {
    var e := Escaped(data[0]);
    if i >= |e| {
      assert Stuff(data)[i] == Stuff(data[1..])[i - |e|];
      StuffEscapesReserved(data[1..], i - |e|);
    }
  }

  /** Removing the inserted escape bytes gives back the input. */
  lemma {:induction false} UnstuffStuff(data: seq<byte>)
    ensures Unstuff(Stuff(data)) == Some(data)
  {
    if data != [] {
      var s := Stuff(data);
      UnstuffStuff(data[1..]);
      if IsReserved(data[0]) {
        assert s[2..] == Stuff(data[1..]);
      } else {
        assert s[1..] == Stuff(data[1..]);
      }
      assert [data[0]] + data[1..] == data;
    }
  }

  /** Conversely, whatever unstuffs to `data` is exactly the stuffed form of
      `data`: the escape rule has one encoding per input. */
  lemma {:induction false} StuffUnstuff(s: seq<byte>, data: seq<byte>)
    requires Unstuff(s) == Some(data)
    ensures Stuff(data) == s
    decreases |s|
  {
    if s != [] {
      if IsReserved(s[0]) {
        StuffUnstuff(s[2..], data[1..]);
        assert s == [s[0], s[1]] + s[2..];
      } else {
        StuffUnstuff(s[1..], data[1..]);
        assert s == [s[0]] + s[1..];
      }
    }
  }

  /** Stuffing changes nothing exactly when there is nothing to escape. */
  lemma {:induction false} StuffIsIdentity(data: seq<byte>)
    ensures Stuff(data) == data <==> CountReserved(data) == 0
  {
    if data != [] && CountReserved(data) == 0 {
      StuffIsIdentity(data[1..]);
      assert CountReserved(data[1..]) == 0;
    }
  }

  /** Stuffing distributes over concatenation. */
  lemma {:induction false} StuffAppend(a: seq<byte>, b: seq<byte>)
    ensures Stuff(a + b) == Stuff(a) + Stuff(b)
    decreases |a|
  {
    if a == [] {
      assert a + b == b;
    } else {
      assert (a + b)[1..] == a[1..] + b;
      StuffAppend(a[1..], b);
    }
  }

  /** One more input byte adds its escaped form to the stuffed prefix. */
  lemma StuffSnoc(data: seq<byte>, i: nat)
    requires i < |data|
    ensures Stuff(data[..i + 1]) == Stuff(data[..i]) + Escaped(data[i])
  {
    assert data[..i + 1] == data[..i] + [data[i]];
    StuffAppend(data[..i], [data[i]]);
    assert [data[i]][1..] == [];
  }
}
