/** The Python string operations the daemon and the encoder rely on,
    restricted to what they do on ASCII white space: `strip`, `split` with
    `" ".join`, `ljust`, `center`, and the `latin-1`/`ascii` encoders with
    their error handlers. A Python `str` is a sequence of code points. */
module PyText {
  import opened Bytes

  /** The ASCII characters `str.isspace` accepts: tab, line feed, vertical
      tab, form feed, carriage return, the four separators 0x1C to 0x1F,
      and space. */
  predicate IsWs(c: char)
  {
    c == ' ' || (0x09 <= c as int <= 0x0D) || (0x1C <= c as int <= 0x1F)
  }

  /** How many white-space characters open `s`. */
  function LeadingWs(s: string): (n: nat)
    ensures n <= |s|
    ensures forall i :: 0 <= i < n ==> IsWs(s[i])
    ensures n < |s| ==> !IsWs(s[n])
  {
    if s == [] || !IsWs(s[0]) then 0 else 1 + LeadingWs(s[1..])
  }

  /** How many white-space characters close `s`. */
  function TrailingWs(s: string): (n: nat)
    ensures n <= |s|
    ensures forall i :: |s| - n <= i < |s| ==> IsWs(s[i])
    ensures n < |s| ==> !IsWs(s[|s| - n - 1])
  {
    if s == [] || !IsWs(s[|s| - 1]) then 0 else 1 + TrailingWs(s[..|s| - 1])
  }

  /** `str.strip()`: the slice between the leading and the trailing white
      space. */
  function Strip(s: string): (r: string)
    ensures LeadingWs(s) + |r| <= |s|
    ensures r == s[LeadingWs(s)..LeadingWs(s) + |r|]
    ensures r != [] ==> !IsWs(r[0]) && !IsWs(r[|r| - 1])
    ensures r == [] <==> forall i :: 0 <= i < |s| ==> IsWs(s[i])
  {
    var rest := s[LeadingWs(s)..];
    assert rest != [] ==> rest[0] == s[LeadingWs(s)];
    rest[..|rest| - TrailingWs(rest)]
  }

  /** Length of the word that opens `s`. */
  function WordLen(s: string): (n: nat)
    ensures n <= |s|
    ensures forall i :: 0 <= i < n ==> !IsWs(s[i])
    ensures n < |s| ==> IsWs(s[n])
  {
    if s == [] || IsWs(s[0]) then 0 else 1 + WordLen(s[1..])
  }

  /** A non-empty run of characters without white space. */
  predicate IsWord(w: string)
  {
    w != [] && forall i :: 0 <= i < |w| ==> !IsWs(w[i])
  }

  /** `s` without its white space. */
  function NonWs(s: string): string
  {
    if s == [] then [] else (if IsWs(s[0]) then [] else [s[0]]) + NonWs(s[1..])
  }

  /** The items of `ws` one after another. */
  function Concat<T>(ws: seq<seq<T>>): seq<T>
  {
    if ws == [] then [] else ws[0] + Concat(ws[1..])
  }

  /** Dropping white space from a string that opens with `n` white-space
      characters drops them too. */
  lemma {:induction false} NonWsSkipsLeading(s: string, n: nat)
    requires n <= |s|
    requires forall i :: 0 <= i < n ==> IsWs(s[i])
    ensures NonWs(s) == NonWs(s[n..])
  {
    if n > 0 {
      NonWsSkipsLeading(s[1..], n - 1);
      assert s[1..][n - 1..] == s[n..];
    }
  }

  /** A string that opens with a word of `n` characters keeps that word
      whole in front of the rest. */
  lemma {:induction false} NonWsKeepsWord(s: string, n: nat)
    requires n <= |s|
    requires forall i :: 0 <= i < n ==> !IsWs(s[i])
    ensures NonWs(s) == s[..n] + NonWs(s[n..])
  {
    if n > 0 {
      NonWsKeepsWord(s[1..], n - 1);
      assert s[1..][n - 1..] == s[n..];
      assert [s[0]] + s[1..][..n - 1] == s[..n];
    }
  }

  /** `str.split()`: the maximal runs of non-white-space characters, which
      put back together are exactly the non-white-space characters of `s`,
      in order. */
  function Split(s: string): (ws: seq<string>)
    ensures forall k :: 0 <= k < |ws| ==> IsWord(ws[k])
    ensures Concat(ws) == NonWs(s)
    decreases |s|
  {
    var lead := LeadingWs(s);
    var t := s[lead..];
    NonWsSkipsLeading(s, lead);
    if t == [] then []
    else
      var n := WordLen(t);
      NonWsKeepsWord(t, n);
      var ws := [t[..n]] + Split(t[n..]);
      assert ws[1..] == Split(t[n..]);
      ws
  }

  /** `" ".join(ws)`: the items in order, one space between neighbours. */
  function JoinSpace(ws: seq<string>): (r: string)
    ensures JoinedBy(ws, ' ', r)
  {
    if ws == [] then []
    else if |ws| == 1 then
      assert ws == [ws[0]];
      JoinedBySingle(ws[0], ' ');
      ws[0]
    else
      var rest := JoinSpace(ws[1..]);
      JoinedByCons(ws, ' ', rest);
      ws[0] + (" " + rest)
  }

  /** Splitting never looks at the white space in front of the first word. */
  lemma SplitFromFirstWord(s: string)
    ensures Split(s) == Split(s[LeadingWs(s)..])
  {
    var t := s[LeadingWs(s)..];
    assert LeadingWs(t) == 0;
    assert t[0..] == t;
  }

  /** A word splits into itself. */
  lemma SplitWord(w: string)
    requires IsWord(w)
    ensures Split(w) == [w]
  {
    assert LeadingWs(w) == 0 by {
      assert !IsWs(w[0]);
    }
    assert w[0..] == w;
    assert WordLen(w) == |w|;
    assert w[..|w|] == w && w[|w|..] == [];
  }

  /** A word followed by white space splits into that word and the words
      after it. */
  lemma SplitWordThenWs(w: string, tail: string)
    requires IsWord(w) && tail != [] && IsWs(tail[0])
    ensures Split(w + tail) == [w] + Split(tail)
  {
    var s := w + tail;
    assert LeadingWs(s) == 0 by {
      assert s[0] == w[0];
    }
    assert s[0..] == s;
    assert WordLen(s) == |w| by {
      assert s[|w|] == tail[0];
      assert forall i :: 0 <= i < |w| ==> s[i] == w[i];
    }
    assert s[..|w|] == w && s[|w|..] == tail;
  }

  /** A space in front of a word does not change the split. */
  lemma SplitDropsSpace(rest: string)
    requires rest != [] && !IsWs(rest[0])
    ensures Split(" " + rest) == Split(rest)
  {
    var tail := " " + rest;
    assert LeadingWs(tail) == 1 by {
      assert tail[1] == rest[0];
    }
    SplitFromFirstWord(tail);
    assert tail[1..] == rest;
  }

  /** A word, a space and a text that opens with a word split into that
      word and the words of the text. */
  lemma SplitWordThen(w: string, rest: string)
    requires IsWord(w) && rest != [] && !IsWs(rest[0])
    ensures Split(w + (" " + rest)) == [w] + Split(rest)
  {
    SplitWordThenWs(w, " " + rest);
    SplitDropsSpace(rest);
  }

  /** Splitting words joined by single spaces gives the words back. */
  lemma {:induction false} SplitJoinSpace(ws: seq<string>)
    requires forall k :: 0 <= k < |ws| ==> IsWord(ws[k])
    ensures Split(JoinSpace(ws)) == ws
  {
    if |ws| == 1 {
      SplitWord(ws[0]);
    } else if |ws| > 1 {
      var t := ws[1..];
      var rest := JoinSpace(t);
      SplitJoinSpace(t);
      JoinSpaceOpensWord(t);
      SplitWordThen(ws[0], rest);
      assert [ws[0]] + t == ws;
    }
  }

  /** Words joined by spaces open with the first character of the first
      word. */
  lemma JoinSpaceOpensWord(ws: seq<string>)
    requires ws != [] && IsWord(ws[0])
    ensures JoinSpace(ws) != [] && JoinSpace(ws)[0] == ws[0][0]
  {
    if |ws| > 1 {
      assert JoinSpace(ws) == ws[0] + (" " + JoinSpace(ws[1..]));
    }
  }

  /** `" ".join(s.split())`: white-space runs become one space, and the ends
      are trimmed. */
  function Collapse(s: string): string
  {
    JoinSpace(Split(s))
  }

  /** A string whose only white space is single spaces between words. */
  predicate Collapsed(s: string)
  {
    && (s != [] ==> !IsWs(s[0]) && !IsWs(s[|s| - 1]))
    && (forall i :: 0 <= i < |s| ==> IsWs(s[i]) ==> s[i] == ' ')
    && (forall i :: 0 <= i < |s| - 1 ==> !(IsWs(s[i]) && IsWs(s[i + 1])))
  }

  /** Joining words with single spaces gives a collapsed string. */
  lemma {:induction false} JoinWordsCollapsed(ws: seq<string>)
    requires forall k :: 0 <= k < |ws| ==> IsWord(ws[k])
    ensures Collapsed(JoinSpace(ws))
  {
    if |ws| > 1 {
      JoinWordsCollapsed(ws[1..]);
      var w := ws[0];
      var rest := JoinSpace(ws[1..]);
      var r := w + (" " + rest);
      assert rest != [] by {
        assert ws[1..][0] == ws[1];
        if |ws[1..]| > 1 {
          assert JoinSpace(ws[1..]) == ws[1] + (" " + JoinSpace(ws[2..])) by {
            assert ws[1..][1..] == ws[2..];
          }
        }
      }
      forall i | 0 <= i < |r| - 1
        ensures !(IsWs(r[i]) && IsWs(r[i + 1]))
      {
        if i < |w| - 1 {
        } else if i == |w| - 1 {
        } else if i == |w| {
          assert r[i + 1] == rest[0];
        } else {
          assert r[i] == rest[i - |w| - 1] && r[i + 1] == rest[i - |w|];
        }
      }
      forall i | 0 <= i < |r| && IsWs(r[i])
        ensures r[i] == ' '
      {
        if i > |w| {
          assert r[i] == rest[i - |w| - 1];
        }
      }
      assert r[|r| - 1] == rest[|rest| - 1];
    }
  }

  /** The scroll text normalisation yields a collapsed string with the
      same words as `s`, so the same non-white-space characters in order. */
  lemma CollapseIsCollapsed(s: string)
    ensures Collapsed(Collapse(s))
    ensures Split(Collapse(s)) == Split(s)
    ensures NonWs(Collapse(s)) == NonWs(s)
  {
    JoinWordsCollapsed(Split(s));
    SplitJoinSpace(Split(s));
  }

  /** `s.ljust(width, fill)`: never cuts; fills on the right up to `width`. */
  function Ljust<T>(s: seq<T>, width: nat, fill: T): (r: seq<T>)
    ensures |s| >= width ==> r == s
    ensures |s| < width ==> |r| == width && r[..|s|] == s && forall i :: |s| <= i < width ==> r[i] == fill
  {
    if |s| >= width then s else s + Repeat(fill, width - |s|)
  }

  /** `s.center(width)`, by CPython's rule: of the `m` fill spaces, the left
      side gets `m / 2`, plus one when both `m` and `width` are odd. */
  function Center(s: string, width: nat): (r: string)
    ensures |s| >= width ==> r == s
    ensures |s| < width ==>
      var m := width - |s|;
      var left := m / 2 + (if m % 2 == 1 && width % 2 == 1 then 1 else 0);
      && |r| == width
      && r[left..left + |s|] == s
      && (forall i :: 0 <= i < left ==> r[i] == ' ')
      && (forall i :: left + |s| <= i < width ==> r[i] == ' ')
  {
    if |s| >= width then s
    else
      var m := width - |s|;
      var left := m / 2 + (if m % 2 == 1 && width % 2 == 1 then 1 else 0);
      Repeat(' ', left) + s + Repeat(' ', m - left)
  }

  /** An odd fill of an odd width puts the extra space on the left. */
  lemma CenterOddLeansLeft()
    ensures Center("ab", 5) == "  ab "
  {
    assert Repeat(' ', 2) == "  " && Repeat(' ', 1) == " ";
  }

  /** `s.encode("latin-1", "replace")`: one byte per character, and `?` for
      a character above 0xFF. */
  function Latin1Replace(s: string): (r: seq<byte>)
    ensures |r| == |s|
    ensures forall i :: 0 <= i < |s| ==> r[i] as int == (if s[i] as int <= 0xFF then s[i] as int else 0x3F)
  {
    if s == [] then []
    else [if s[0] as int <= 0xFF then ByteOf(s[0] as int) else 0x3F] + Latin1Replace(s[1..])
  }

  /** Every character of `s` is ASCII. */
  predicate IsAscii(s: string)
  {
    forall i :: 0 <= i < |s| ==> s[i] as int < 0x80
  }

  /** What one character adds to an `ascii`/`ignore` encoding: its code when
      it is ASCII, nothing otherwise. */
  function AsciiOf(c: char): (r: seq<byte>)
    ensures c as int < 0x80 ==> |r| == 1 && r[0] as int == c as int
    ensures c as int >= 0x80 ==> r == []
  {
    if c as int < 0x80 then [ByteOf(c as int)] else []
  }

  /** `s.encode("ascii", "ignore")`: non-ASCII characters are dropped, so
      every byte is ASCII, and an ASCII string gives its own codes. */
  function AsciiIgnore(s: string): (r: seq<byte>)
    ensures |r| <= |s|
    ensures forall i :: 0 <= i < |r| ==> r[i] < 0x80
    ensures IsAscii(s) ==> |r| == |s| && forall i :: 0 <= i < |s| ==> r[i] as int == s[i] as int
  {
    if s == [] then [] else AsciiOf(s[0]) + AsciiIgnore(s[1..])
  }

  /** Nothing is dropped only when every character is ASCII. */
  lemma {:induction false} AsciiIgnoreKeepsAll(s: string)
    ensures |AsciiIgnore(s)| == |s| <==> IsAscii(s)
  {
    if s != [] {
      AsciiIgnoreKeepsAll(s[1..]);
      assert forall i :: 1 <= i < |s| ==> s[1..][i - 1] == s[i];
    }
  }

  /** Encoding a concatenation encodes each part. */
  lemma {:induction false} AsciiIgnoreAppend(a: string, b: string)
    ensures AsciiIgnore(a + b) == AsciiIgnore(a) + AsciiIgnore(b)
  {
    if a == [] {
      assert a + b == b;
      assert AsciiIgnore(a) == [];
    } else {
      var ab := a + b;
      assert ab != [] && ab[0] == a[0] && ab[1..] == a[1..] + b;
      var x, y, z := AsciiOf(a[0]), AsciiIgnore(a[1..]), AsciiIgnore(b);
      assert AsciiIgnore(ab) == x + AsciiIgnore(a[1..] + b);
      AsciiIgnoreAppend(a[1..], b);
      assert AsciiIgnore(a) == x + y;
      Regroup(x, y, z, []);
      assert x + y + z + [] == x + y + z && y + z + [] == y + z;
    }
  }

  /** Each character contributes its own code at its own place when it is
      ASCII, and nothing when it is not: the result is the ASCII characters
      of `s`, in order. */
  lemma {:induction false} AsciiIgnoreAt(s: string, i: nat)
    requires i < |s|
    ensures AsciiIgnore(s) == AsciiIgnore(s[..i]) + AsciiOf(s[i]) + AsciiIgnore(s[i + 1..])
  {
    if i == 0 {
      assert s[..0] == [];
      assert s[1..] == s[i + 1..];
    } else {
      var t := s[1..];
      AsciiIgnoreAt(t, i - 1);
      var x, y, z, w := AsciiOf(s[0]), AsciiIgnore(t[..i - 1]), AsciiOf(s[i]), AsciiIgnore(s[i + 1..]);
      assert t[i - 1] == s[i] && t[i..] == s[i + 1..];
      assert AsciiIgnore(t) == y + z + w;
      var pre := s[..i];
      assert pre[0] == s[0] && pre[1..] == t[..i - 1];
      assert AsciiIgnore(pre) == x + y;
      assert AsciiIgnore(s) == x + (y + z + w);
      Regroup(x, y, z, w);
    }
  }
}
