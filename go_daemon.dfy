/** The display scheduler of the Go daemon program, without goroutines or
    timers: the PS scroll frames computed once at start, and the rounds of
    the PS and RT workers run one after another. Each worker returns the
    texts it hands to the encoder, in order. */
module GoDaemon {
  import opened Bytes
  import opened Wrappers
  import opened GoText

  /** The white space `strings.TrimSpace` removes, restricted to ASCII:
      tab, line feed, vertical tab, form feed, carriage return, space. */
  predicate IsSpace(b: byte)
  {
    b == SPACE || 0x09 <= b <= 0x0D
  }

  /** `strings.Join(names, " ")`: the names in order, one space between
      neighbours. */
  function JoinWith(names: seq<seq<byte>>): (r: seq<byte>)
    ensures JoinedBy(names, SPACE, r)
    ensures |names| == 1 ==> r == names[0]
  {
    if names == [] then []
    else if |names| == 1 then
      assert names == [names[0]];
      JoinedBySingle(names[0], SPACE);
      names[0]
    else
      var rest := JoinWith(names[1..]);
      JoinedByCons(names, SPACE, rest);
      names[0] + ([SPACE] + rest)
  }

  /** How many white-space bytes open `s`. */
  function LeadingSpaces(s: seq<byte>): (n: nat)
    ensures n <= |s|
    ensures forall i :: 0 <= i < n ==> IsSpace(s[i])
    ensures n < |s| ==> !IsSpace(s[n])
  {
    if s == [] || !IsSpace(s[0]) then 0 else 1 + LeadingSpaces(s[1..])
  }

  /** How many white-space bytes close `s`. */
  function TrailingSpaces(s: seq<byte>): (n: nat)
    ensures n <= |s|
    ensures forall i :: |s| - n <= i < |s| ==> IsSpace(s[i])
    ensures n < |s| ==> !IsSpace(s[|s| - n - 1])
  {
    if s == [] || !IsSpace(s[|s| - 1]) then 0 else 1 + TrailingSpaces(s[..|s| - 1])
  }

  /** `strings.TrimSpace`: the slice of `s` between its leading and its
      trailing white space; it neither starts nor ends with white space. */
  function TrimSpace(s: seq<byte>): (r: seq<byte>)
    ensures LeadingSpaces(s) + |r| <= |s|
    ensures r == s[LeadingSpaces(s)..LeadingSpaces(s) + |r|]
    ensures r != [] ==> !IsSpace(r[0]) && !IsSpace(r[|r| - 1])
    ensures r == [] <==> forall i :: 0 <= i < |s| ==> IsSpace(s[i])
  {
    var rest := s[LeadingSpaces(s)..];
    assert rest != [] ==> rest[0] == s[LeadingSpaces(s)];
    rest[..|rest| - TrailingSpaces(rest)]
  }

  /** `strings.ReplaceAll(s, "  ", " ")`: one left-to-right pass that turns
      each non-overlapping pair of spaces into one space. */
  function ReplaceDoubleSpaces(s: seq<byte>): (r: seq<byte>)
    ensures |r| <= |s|
  {
    if |s| >= 2 && s[0] == SPACE && s[1] == SPACE then [SPACE] + ReplaceDoubleSpaces(s[2..])
    else if s == [] then []
    else [s[0]] + ReplaceDoubleSpaces(s[1..])
  }

  /** `s` without its spaces. */
  function NonSpaces(s: seq<byte>): seq<byte>
  {
    if s == [] then [] else (if s[0] == SPACE then [] else [s[0]]) + NonSpaces(s[1..])
  }

  /** Replacing double spaces drops only spaces: every other byte is kept,
      in order. */
  lemma {:induction false} ReplaceKeepsText(s: seq<byte>)
    ensures NonSpaces(ReplaceDoubleSpaces(s)) == NonSpaces(s)
  {
    if |s| >= 2 && s[0] == SPACE && s[1] == SPACE {
      ReplaceKeepsText(s[2..]);
      assert NonSpaces(s) == NonSpaces(s[1..]);
      assert s[1..][1..] == s[2..];
    } else if s != [] {
      ReplaceKeepsText(s[1..]);
    }
  }

  /** Text without a double space passes unchanged. */
  lemma {:induction false} ReplaceFixesSingleSpaced(s: seq<byte>)
    requires forall i :: 0 <= i < |s| - 1 ==> !(s[i] == SPACE && s[i + 1] == SPACE)
    ensures ReplaceDoubleSpaces(s) == s
  {
    if s != [] {
      ReplaceFixesSingleSpaced(s[1..]);
      assert [s[0]] + s[1..] == s;
    }
  }

  /** One pass does not collapse every run: three spaces become two. */
  lemma TripleSpaceSurvives()
    ensures ReplaceDoubleSpaces([SPACE, SPACE, SPACE]) == [SPACE, SPACE]
  {
    assert [SPACE, SPACE, SPACE][2..] == [SPACE];
    assert ReplaceDoubleSpaces([SPACE]) == [SPACE] + ReplaceDoubleSpaces([]);
  }

  /** The scroll text: the PS names joined by spaces, trimmed, with double
      spaces replaced once. */
  function ScrollText(names: seq<seq<byte>>): seq<byte>
  {
    ReplaceDoubleSpaces(TrimSpace(JoinWith(names)))
  }

  /** The PS display width. */
  const WIDTH: nat := 8

  /** Where the `k`-th bidirectional window starts: forward from 0 to
      `len - 8`, then backward from `len - 9` to 0. */
  function BiStart(len: nat, k: nat): (s: nat)
    requires len > WIDTH && k < 2 * len - 15
    ensures s + WIDTH <= len
  {
    if k <= len - WIDTH then k else 2 * len - 16 - k
  }

  /** The scroll frames of a text: none when scrolling is off or the text
      fits the display; otherwise the `len + 1` windows of the text, a space
      and its first seven bytes, or the forward then backward windows of the
      text itself. */
  function ScrollFrames(text: seq<byte>, scrollEnabled: bool, bidirectional: bool): seq<seq<byte>>
  {
    if !scrollEnabled || |text| <= WIDTH then []
    else if !bidirectional then
      var data := text + [SPACE] + text[..WIDTH - 1];
      seq(|text| + 1, k requires 0 <= k < |text| + 1 => data[k..k + WIDTH])
    else
      seq(2 * |text| - 15, k requires 0 <= k < 2 * |text| - 15 => text[BiStart(|text|, k)..BiStart(|text|, k) + WIDTH])
  }

  /** Computes the scroll frames with the loops of the program. */
  method GeneratePSScroll(names: seq<seq<byte>>, scrollEnabled: bool, bidirectional: bool)
    returns (frames: seq<seq<byte>>)
    ensures frames == ScrollFrames(ScrollText(names), scrollEnabled, bidirectional)
  {
    var text := JoinWith(names);
    text := TrimSpace(text);
    text := ReplaceDoubleSpaces(text);
    if !scrollEnabled || |text| <= WIDTH {
      return [];
    }
    frames := ScrollWindows(text, bidirectional);
  }

  /** The window loops of the scroll generator, for a text longer than the
      display. */
  method ScrollWindows(text: seq<byte>, bidirectional: bool) returns (frames: seq<seq<byte>>)
    requires |text| > WIDTH
    ensures frames == ScrollFrames(text, true, bidirectional)
  {
    frames := [];
    if !bidirectional {
      var data := text + [SPACE] + text[..WIDTH - 1];
      var i := 0;
      while i <= |data| - WIDTH
        invariant 0 <= i <= |data| - WIDTH + 1
        invariant |frames| == i
        invariant forall k :: 0 <= k < i ==> frames[k] == data[k..k + WIDTH]
      {
        frames := frames + [data[i..i + WIDTH]];
        i := i + 1;
      }
    } else {
      var i := 0;
      while i <= |text| - WIDTH
        invariant 0 <= i <= |text| - WIDTH + 1
        invariant |frames| == i
        invariant forall k :: 0 <= k < i ==> frames[k] == text[k..k + WIDTH]
      {
        frames := frames + [text[i..i + WIDTH]];
        i := i + 1;
      }
      var j := |text| - WIDTH - 1;
      while j >= 0
        invariant -1 <= j <= |text| - WIDTH - 1
        invariant |frames| == 2 * |text| - 16 - j
        invariant forall k :: 0 <= k < |frames| ==>
          frames[k] == text[BiStart(|text|, k)..BiStart(|text|, k) + WIDTH]
      {
        frames := frames + [text[j..j + WIDTH]];
        j := j - 1;
      }
    }
  }

  /** Every frame is exactly eight bytes. */
  lemma {:induction false} ScrollFramesWidth(text: seq<byte>, scrollEnabled: bool, bidirectional: bool, k: nat)
    requires k < |ScrollFrames(text, scrollEnabled, bidirectional)|
    ensures |ScrollFrames(text, scrollEnabled, bidirectional)[k]| == WIDTH
  {
  }

  /** Frame counts: none, `len + 1` one way, `2 len - 15` both ways. */
  lemma ScrollFramesCount(text: seq<byte>, scrollEnabled: bool, bidirectional: bool)
    ensures |ScrollFrames(text, scrollEnabled, bidirectional)| ==
      if !scrollEnabled || |text| <= WIDTH then 0
      else if !bidirectional then |text| + 1
      else 2 * |text| - 15
  {
  }

  /** One way, the frames are the windows of the text read as a loop with
      one space between its end and its start: byte `m` of frame `k` is byte
      `(k + m) mod (len + 1)` of the text followed by a space. */
  lemma UniFramesWrap(text: seq<byte>, k: nat, m: nat)
    requires |text| > WIDTH && k <= |text| && m < WIDTH
    ensures ScrollFrames(text, true, false)[k][m] == (text + [SPACE])[(k + m) % (|text| + 1)]
  {
    var n := |text|;
    var data := text + [SPACE] + text[..WIDTH - 1];
    var loop := text + [SPACE];
    assert ScrollFrames(text, true, false)[k] == data[k..k + WIDTH];
    assert data[k..k + WIDTH][m] == data[k + m];
    if k + m <= n {
      WrapIndex(k + m, n + 1, k + m);
      assert data[k + m] == loop[k + m];
    } else {
      WrapIndex(k + m, n + 1, k + m - n - 1);
      assert data[k + m] == text[k + m - n - 1] == loop[k + m - n - 1];
    }
  }

  /** An index below twice the length reduces to itself or itself minus
      the length. */
  lemma WrapIndex(i: nat, len: nat, r: nat)
    requires 0 < len && i < 2 * len
    requires r == if i < len then i else i - len
    ensures i % len == r
  {
  }

  /** Both ways, the list ends on the frame it starts with, so cycling it
      shows that frame twice in a row. */
  lemma BiFramesReturn(text: seq<byte>)
    requires |text| > WIDTH
    ensures var f := ScrollFrames(text, true, true);
      f[|f| - 1] == f[0] == text[..WIDTH]
  {
    var f := ScrollFrames(text, true, true);
    assert BiStart(|text|, |f| - 1) == 0;
  }

  /** How the PS and RT workers fit a text to its width. */
  function Fit(s: seq<byte>, center: bool, width: nat): (r: seq<byte>)
    ensures |r| == width
  {
    if center then CenterString(s, width) else PadRight(s, width)
  }

  /** Every text fitted to the PS width, in order. */
  function FitAll(texts: seq<seq<byte>>, center: bool): (r: seq<seq<byte>>)
    ensures |r| == |texts|
  {
    seq(|texts|, i requires 0 <= i < |texts| => Fit(texts[i], center, WIDTH))
  }

  /** `xs` repeated `r` times. */
  function Rounds<T>(xs: seq<T>, r: nat): (ys: seq<T>)
    ensures |ys| == r * |xs|
  {
    if r == 0 then [] else Rounds(xs, r - 1) + xs
  }

  /** `rounds` passes of the PS worker loop. With scroll frames, each pass
      sends the next frame, cycling by an index that only grows. Without,
      each pass sends every PS name in list order; with no names it sends
      nothing. */
  method PsWorker(frames: seq<seq<byte>>, texts: seq<seq<byte>>, center: bool, rounds: nat)
    returns (sent: seq<seq<byte>>)
    ensures frames != [] ==> |sent| == rounds
    ensures frames != [] ==> forall j :: 0 <= j < rounds ==> sent[j] == Fit(frames[j % |frames|], center, WIDTH)
    ensures frames == [] ==> sent == Rounds(FitAll(texts, center), rounds)
  {
    sent := [];
    var idx := 0;
    var r := 0;
    while r < rounds
      invariant 0 <= r <= rounds
      invariant frames != [] ==> idx == r && |sent| == r
      invariant frames != [] ==> forall j :: 0 <= j < |sent| ==> sent[j] == Fit(frames[j % |frames|], center, WIDTH)
      invariant frames == [] ==> sent == Rounds(FitAll(texts, center), r)
    {
      if |frames| > 0 {
        var frame := frames[idx % |frames|];
        idx := idx + 1;
        sent := sent + [Fit(frame, center, WIDTH)];
      } else {
        ghost var all := FitAll(texts, center);
        var t := 0;
        while t < |texts|
          invariant 0 <= t <= |texts|
          invariant sent == Rounds(all, r) + all[..t]
        {
          sent := sent + [Fit(texts[t], center, WIDTH)];
          t := t + 1;
        }
        assert all[..t] == all;
      }
      r := r + 1;
    }
  }

  /** What one RT round sees of the file system: whether the file exists
      before it is read, what reading it gives (`None` for a read error), and
      whether it exists when the fallback is chosen. */
  datatype RtProbe = RtProbe(existsBefore: bool, read: Option<seq<byte>>, existsAfter: bool)

  /** The fallback texts. */
  const NO_RT: seq<byte> := [0x4E, 0x4F, 0x20, 0x52, 0x54, 0x20, 0x46, 0x49, 0x4C, 0x45, 0x20, 0x4F, 0x52,
                             0x20, 0x4D, 0x45, 0x53, 0x53, 0x41, 0x47, 0x45, 0x53]
  const RADIO_TEXT: seq<byte> := [0x52, 0x41, 0x44, 0x49, 0x4F, 0x20, 0x54, 0x45, 0x58, 0x54]

  /** The text of one RT round and the next list index. The file wins when
      it is configured and exists; its trimmed content is used, or the first
      message when reading fails or the content is blank. Otherwise the
      messages cycle and only then does the index advance. An empty result
      becomes "NO RT FILE OR MESSAGES" when the file is configured but gone,
      else "RADIO TEXT". */
  function SelectRt(fileConfigured: bool, msgs: seq<seq<byte>>, idx: nat, probe: RtProbe): (r: (seq<byte>, nat))
    ensures r.0 != []
    ensures r.1 == if (fileConfigured && probe.existsBefore) || msgs == [] then idx else idx + 1
    ensures !(fileConfigured && probe.existsBefore) && msgs != [] && msgs[idx % |msgs|] != [] ==>
      r.0 == msgs[idx % |msgs|]
    ensures fileConfigured && probe.existsBefore && probe.read.Some? && TrimSpace(probe.read.value) != [] ==>
      r.0 == TrimSpace(probe.read.value)
    ensures fileConfigured && probe.existsBefore && (probe.read.None? || TrimSpace(probe.read.value) == []) ==>
      r.0 == if msgs != [] && msgs[0] != [] then msgs[0]
             else if !probe.existsAfter then NO_RT
             else RADIO_TEXT
    ensures !(fileConfigured && probe.existsBefore) && (msgs == [] || msgs[idx % |msgs|] == []) ==>
      r.0 == if fileConfigured && !probe.existsAfter then NO_RT else RADIO_TEXT
  {
    var (current, next) :=
      if fileConfigured && probe.existsBefore then
        match probe.read
        case None => (if |msgs| > 0 then msgs[0] else [], idx)
        case Some(content) =>
          var trimmed := TrimSpace(content);
          (if trimmed == [] && |msgs| > 0 then msgs[0] else trimmed, idx)
      else if |msgs| > 0 then (msgs[idx % |msgs|], idx + 1)
      else ([], idx);
    if current != [] then (current, next)
    else if fileConfigured && !probe.existsAfter then (NO_RT, next)
    else (RADIO_TEXT, next)
  }

  /** The texts of successive RT rounds, one per probe, from list index
      `idx`. */
  function RunRt(fileConfigured: bool, msgs: seq<seq<byte>>, idx: nat, probes: seq<RtProbe>): (texts: seq<seq<byte>>)
    ensures |texts| == |probes|
    decreases |probes|
  {
    if probes == [] then []
    else
      var (text, next) := SelectRt(fileConfigured, msgs, idx, probes[0]);
      [text] + RunRt(fileConfigured, msgs, next, probes[1..])
  }

  /** No RT round ever sends an empty text. */
  lemma {:induction false} RunRtNeverEmpty(fileConfigured: bool, msgs: seq<seq<byte>>, idx: nat, probes: seq<RtProbe>)
    ensures forall j :: 0 <= j < |probes| ==> RunRt(fileConfigured, msgs, idx, probes)[j] != []
    decreases |probes|
  {
    if probes != [] {
      var (text, next) := SelectRt(fileConfigured, msgs, idx, probes[0]);
      RunRtNeverEmpty(fileConfigured, msgs, next, probes[1..]);
    }
  }

  /** Without the file, the rounds walk the message list in order and wrap
      around, whenever the messages are not empty. */
  lemma {:induction false} RunRtCycles(fileConfigured: bool, msgs: seq<seq<byte>>, idx: nat, probes: seq<RtProbe>)
    requires forall j :: 0 <= j < |probes| ==> !(fileConfigured && probes[j].existsBefore)
    requires forall m :: 0 <= m < |msgs| ==> msgs[m] != []
    requires msgs != []
    ensures forall j :: 0 <= j < |probes| ==> RunRt(fileConfigured, msgs, idx, probes)[j] == msgs[(idx + j) % |msgs|]
    decreases |probes|
  {
    if probes != [] {
      RunRtCycles(fileConfigured, msgs, idx + 1, probes[1..]);
      var texts := RunRt(fileConfigured, msgs, idx, probes);
      forall j | 0 <= j < |probes|
        ensures texts[j] == msgs[(idx + j) % |msgs|]
      {
        if j > 0 {
          assert texts[j] == RunRt(fileConfigured, msgs, idx + 1, probes[1..])[j - 1];
          assert idx + 1 + (j - 1) == idx + j;
        }
      }
    }
  }

  /** The RT worker loop, one round per probe: each round sends the chosen
      text fitted to 64 bytes. */
  method RtWorker(fileConfigured: bool, msgs: seq<seq<byte>>, center: bool, probes: seq<RtProbe>)
    returns (sent: seq<seq<byte>>)
    ensures |sent| == |probes|
    ensures forall j :: 0 <= j < |sent| ==> sent[j] == Fit(RunRt(fileConfigured, msgs, 0, probes)[j], center, 64)
  {
    ghost var texts := RunRt(fileConfigured, msgs, 0, probes);
    sent := [];
    var idx := 0;
    var i := 0;
    while i < |probes|
      invariant 0 <= i <= |probes|
      invariant |sent| == i
      invariant forall j :: 0 <= j < i ==> sent[j] == Fit(texts[j], center, 64)
      invariant texts[i..] == RunRt(fileConfigured, msgs, idx, probes[i..])
    {
      var (text, next) := SelectRt(fileConfigured, msgs, idx, probes[i]);
      RunRtUnfold(fileConfigured, msgs, idx, probes, i, texts);
      sent := sent + [Fit(text, center, 64)];
      idx := next;
      i := i + 1;
    }
  }

  /** One round off the front of the remaining rounds. */
  lemma RunRtUnfold(fileConfigured: bool, msgs: seq<seq<byte>>, idx: nat, probes: seq<RtProbe>, i: nat, texts: seq<seq<byte>>)
    requires i < |probes| && i <= |texts|
    requires texts[i..] == RunRt(fileConfigured, msgs, idx, probes[i..])
    ensures texts[i] == SelectRt(fileConfigured, msgs, idx, probes[i]).0
    ensures texts[i + 1..] == RunRt(fileConfigured, msgs, SelectRt(fileConfigured, msgs, idx, probes[i]).1, probes[i + 1..])
  {
    assert probes[i..][1..] == probes[i + 1..];
    assert texts[i] == texts[i..][0];
    assert texts[i + 1..] == texts[i..][1..];
  }
}
