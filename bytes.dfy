/** Bytes and the small sequence helpers shared by every module of the model. */
module Bytes {

  /** One octet on the serial line. */
  type byte = bv8

  /** The ASCII space, used as padding by every text field. */
  const SPACE: byte := 0x20

  /** `n` copies of `x`. */
  function Repeat<T>(x: T, n: nat): (r: seq<T>)
    ensures |r| == n
    ensures forall i :: 0 <= i < n ==> r[i] == x
  {
    if n == 0 then [] else [x] + Repeat(x, n - 1)
  }

  /** Where item `k` starts when `ws` is written out with one separator
      after each item: the lengths of the items before it, plus one each. */
  function Offset<T>(ws: seq<seq<T>>, k: nat): nat
    requires k <= |ws|
  {
    if k == 0 then 0 else |ws[0]| + 1 + Offset(ws[1..], k - 1)
  }

  /** `r` is the items of `ws` in order with exactly one `sep` between
      neighbours and nothing else: each item at its offset, the separator
      right after every item but the last, and no byte beyond the last item. */
  ghost predicate JoinedBy<T>(ws: seq<seq<T>>, sep: T, r: seq<T>)
  {
    && (ws == [] ==> r == [])
    && (ws != [] ==> |r| + 1 == Offset(ws, |ws|))
    && (forall k :: 0 <= k < |ws| ==>
          Offset(ws, k) + |ws[k]| <= |r| && r[Offset(ws, k)..Offset(ws, k) + |ws[k]|] == ws[k])
    && (forall k :: 0 <= k < |ws| - 1 ==>
          Offset(ws, k) + |ws[k]| < |r| && r[Offset(ws, k) + |ws[k]|] == sep)
  }

  /** Putting an item and a separator in front of a joined tail joins the
      whole list. */
  lemma JoinedByCons<T>(ws: seq<seq<T>>, sep: T, rest: seq<T>)
    requires |ws| >= 2
    requires JoinedBy(ws[1..], sep, rest)
    ensures JoinedBy(ws, sep, ws[0] + ([sep] + rest))
  {
    ConsItems(ws, sep, rest);
    ConsSeparators(ws, sep, rest);
  }

  /** Every item sits at its offset after the item and separator put in
      front. */
  lemma ConsItems<T>(ws: seq<seq<T>>, sep: T, rest: seq<T>)
    requires |ws| >= 2
    requires JoinedBy(ws[1..], sep, rest)
    ensures var r := ws[0] + ([sep] + rest);
      forall k :: 0 <= k < |ws| ==>
        Offset(ws, k) + |ws[k]| <= |r| && r[Offset(ws, k)..Offset(ws, k) + |ws[k]|] == ws[k]
  {
    var w, t := ws[0], ws[1..];
    var r := w + ([sep] + rest);
    forall k | 0 <= k < |ws|
      ensures Offset(ws, k) + |ws[k]| <= |r| && r[Offset(ws, k)..Offset(ws, k) + |ws[k]|] == ws[k]
    {
      if k == 0 {
        assert r[..|w|] == w;
      } else {
        assert ws[k] == t[k - 1];
        ShiftedSlice(w, sep, rest, Offset(t, k - 1), t[k - 1]);
      }
    }
  }

  /** A slice of the tail reappears `|w| + 1` further on once `w` and a
      separator are put in front. */
  lemma ShiftedSlice<T>(w: seq<T>, sep: T, rest: seq<T>, o: nat, x: seq<T>)
    requires o + |x| <= |rest| && rest[o..o + |x|] == x
    ensures var r := w + ([sep] + rest);
      |w| + 1 + o + |x| <= |r| && r[|w| + 1 + o..|w| + 1 + o + |x|] == x
  {
    var r := w + ([sep] + rest);
    assert r[|w| + 1..] == rest;
    assert r[|w| + 1 + o..|w| + 1 + o + |x|] == r[|w| + 1..][o..o + |x|];
  }

  /** The separator put in front follows the first item, and the tail's
      separators follow the other items. */
  lemma ConsSeparators<T>(ws: seq<seq<T>>, sep: T, rest: seq<T>)
    requires |ws| >= 2
    requires JoinedBy(ws[1..], sep, rest)
    ensures var r := ws[0] + ([sep] + rest);
      && |r| + 1 == Offset(ws, |ws|)
      && forall k :: 0 <= k < |ws| - 1 ==>
        Offset(ws, k) + |ws[k]| < |r| && r[Offset(ws, k) + |ws[k]|] == sep
  {
    var w, t := ws[0], ws[1..];
    var r := w + ([sep] + rest);
    forall k | 0 <= k < |ws| - 1
      ensures Offset(ws, k) + |ws[k]| < |r| && r[Offset(ws, k) + |ws[k]|] == sep
    {
      if k > 0 {
        assert ws[k] == t[k - 1];
        ShiftedIndex(w, sep, rest, Offset(t, k - 1) + |t[k - 1]|);
      }
    }
  }

  /** An index of the tail moves `|w| + 1` further on once `w` and a
      separator are put in front. */
  lemma ShiftedIndex<T>(w: seq<T>, sep: T, rest: seq<T>, j: nat)
    requires j < |rest|
    ensures var r := w + ([sep] + rest);
      |w| + 1 + j < |r| && r[|w| + 1 + j] == rest[j]
  {
  }

  /** A list of one item joins to that item. */
  lemma JoinedBySingle<T>(w: seq<T>, sep: T)
    ensures JoinedBy([w], sep, w)
  {
    assert Offset([w], 1) == |w| + 1 + Offset([w][1..], 0);
  }

  /** `n` zero bytes, as used to fill unused AF slots. */
  function Zeros(n: nat): (r: seq<byte>)
    ensures |r| == n
    ensures forall i :: 0 <= i < n ==> r[i] == 0
  {
    Repeat(0 as byte, n)
  }

  /** The low eight bits of an integer, as a Go `byte(x)` conversion or a
      two's-complement truncation gives them (Dafny's `%` is Euclidean, so
      this is right for negative `x` too). */
  function LowByte(x: int): (r: byte)
    ensures r as int == x % 256
  {
    ByteOf(x % 256)
  }

  /** The byte of value `n`, built from its two hexadecimal digits so that
      the solver never has to convert a wide integer to a bit-vector. */
  function ByteOf(n: nat): (r: byte)
    requires n < 256
    ensures r as int == n
  {
    var hi := Nibble(n / 16);
    var lo := Nibble(n % 16);
    Digits(hi, lo);
    (hi << 4) | lo
  }

  /** Two hexadecimal digits put side by side make the byte of their
      base-16 value. */
  lemma Digits(hi: byte, lo: byte)
    requires hi < 16 && lo < 16
    ensures ((hi << 4) | lo) as int == 16 * (hi as int) + lo as int
  {
  }

  /** Two appends one after the other add the two items in order. */
  lemma AppendPair<T>(w: seq<T>, a: T, b: T)
    ensures w + [a] + [b] == w + [a, b]
  {
  }

  /** Four pieces concatenated group the same either way. */
  lemma Regroup<T>(x: seq<T>, y: seq<T>, z: seq<T>, w: seq<T>)
    ensures x + (y + z + w) == x + y + z + w
  {
  }

  /** Five appends one after the other add the five items in order. */
  lemma FiveAppends<T>(w0: seq<T>, w1: seq<T>, w2: seq<T>, w3: seq<T>, w4: seq<T>, w5: seq<T>, a: T, b: T, c: T, d: T, e: T)
    requires w1 == w0 + [a] && w2 == w1 + [b] && w3 == w2 + [c] && w4 == w3 + [d] && w5 == w4 + [e]
    ensures w5 == w0 + [a, b, c, d, e]
  {
  }

  /** Six appends to the empty sequence make the six-item sequence. */
  lemma SixAppends<T>(a: T, b: T, c: T, d: T, e: T, f: T)
    ensures [] + [a] + [b] + [c] + [d] + [e] + [f] == [a, b, c, d, e, f]
  {
  }

  /** A byte whose value is known in `int` terms. */
  lemma ByteValue(b: byte, n: int)
    requires 0 <= n < 256 && b as int == n % 256
    ensures b as int == n
  {
  }

  /** A byte with a non-zero value is not the zero byte. */
  lemma NonZeroByte(b: byte)
    requires b as int != 0
    ensures b != 0
  {
  }

  /** A value below 16 as a byte, counted up from zero. */
  function Nibble(n: nat): (r: byte)
    requires n < 16
    ensures r as int == n
  {
    if n == 0 then 0 else Nibble(n - 1) + 1
  }

  /** The two low base-256 digits of `x`, high first, make up `x` modulo
      0x10000. */
  lemma TwoDigits(x: int)
    ensures ((x / 256) % 256) * 256 + x % 256 == x % 0x10000
  {
    var q := x / 0x10000;
    var w := x % 0x10000;
    assert x == 0x10000 * q + w;
    var h := w / 256;
    var l := w % 256;
    assert w == 256 * h + l && 0 <= h < 256;
    assert x == 256 * (256 * q + h) + l;
    assert x / 256 == 256 * q + h;
    assert x % 256 == l;
    assert (x / 256) % 256 == h;
  }

  /** `LowByte` of a constant is the byte of its remainder, which the
      verifier then evaluates digit by digit. */
  lemma LowByteIs(x: int, n: nat)
    requires n < 256 && x % 256 == n
    ensures LowByte(x) == ByteOf(n)
  {
  }
}
