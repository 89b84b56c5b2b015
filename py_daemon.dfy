/** The display scheduler of the Python daemon, without threads or clocks:
    the PS scroll frames computed at start, the PS and RT worker loops run
    tick by tick over what each tick observes, the stop check in front of
    every send, and the DI value packed from the configuration. Texts are
    Python strings; a send is recorded as the text handed over. */
module PyDaemon {
  import opened Bytes
  import opened Wrappers
  import opened Rds
  import opened PyText

  /** The PS display width. */
  const WIDTH: nat := 8

  /** The scroll text: the names joined by spaces and stripped, then every
      white-space run made one space. */
  function ScrollText(names: seq<string>): string
  {
    Collapse(Strip(JoinSpace(names)))
  }

  /** Where the `k`-th bidirectional window starts: forward from 0 to
      `len - 8`, then backward from `len - 9` down to 1. */
  function BiStart(len: nat, k: nat): (s: nat)
    requires len > WIDTH && k < 2 * len - 16
    ensures 1 <= s || k == 0
    ensures s + WIDTH <= len
  {
    if k <= len - WIDTH then k else 2 * len - 16 - k
  }

  /** The windows before duplicates are dropped: the `len + 1` windows of
      the text, a space and its first seven characters, or the forward then
      backward windows of the text. */
  function RawFrames(text: string, bidirectional: bool): (frames: seq<string>)
    requires |text| > WIDTH
    ensures |frames| == if bidirectional then 2 * |text| - 16 else |text| + 1
    ensures forall k :: 0 <= k < |frames| ==> |frames[k]| == WIDTH
  {
    if !bidirectional then
      var data := text + " " + text[..WIDTH - 1];
      seq(|text| + 1, k requires 0 <= k < |text| + 1 => data[k..k + WIDTH])
    else
      seq(2 * |text| - 16, k requires 0 <= k < 2 * |text| - 16 => text[BiStart(|text|, k)..BiStart(|text|, k) + WIDTH])
  }

  /** The items that differ from the item before them; the first is always
      kept. */
  function Dedup<T(==)>(xs: seq<T>): (ys: seq<T>)
    ensures |ys| <= |xs|
    ensures xs != [] ==> ys != [] && ys[0] == xs[0] && ys[|ys| - 1] == xs[|xs| - 1]
  {
    if |xs| <= 1 then xs
    else
      var init := Dedup(xs[..|xs| - 1]);
      if xs[|xs| - 1] == xs[|xs| - 2] then init else init + [xs[|xs| - 1]]
  }

  /** No two neighbours are equal. */
  predicate NoAdjacentDuplicates<T(==)>(xs: seq<T>)
  {
    forall i :: 0 <= i < |xs| - 1 ==> xs[i] != xs[i + 1]
  }

  /** `xs` is `ys` with some items left out, order kept. */
  predicate Subsequence<T(==)>(xs: seq<T>, ys: seq<T>)
    decreases |ys|
  {
    if xs == [] then true
    else if ys == [] then false
    else if xs[|xs| - 1] == ys[|ys| - 1] then Subsequence(xs[..|xs| - 1], ys[..|ys| - 1])
    else Subsequence(xs, ys[..|ys| - 1])
  }

  /** The scroll frames: none when scrolling is off or the text fits the
      display, else the raw windows with repeated neighbours dropped. */
  function ScrollFrames(text: string, scrollEnabled: bool, bidirectional: bool): seq<string>
  {
    if !scrollEnabled || |text| <= WIDTH then [] else Dedup(RawFrames(text, bidirectional))
  }

  /** Computes the scroll frames as the daemon does at start: the one-way
      windows in one go, the two-way windows by two loops, then the
      neighbour filter. */
  method GenerateScrollFrames(names: seq<string>, scrollEnabled: bool, bidirectional: bool)
    returns (frames: seq<string>)
    ensures frames == ScrollFrames(ScrollText(names), scrollEnabled, bidirectional)
  {
    var text := Strip(JoinSpace(names));
    text := JoinSpace(Split(text));
    if !scrollEnabled || |text| <= WIDTH {
      return [];
    }
    var raw: seq<string>;
    if !bidirectional {
      var data := text + " " + text[..WIDTH - 1];
      raw := seq(|data| - WIDTH + 1, i requires 0 <= i < |data| - WIDTH + 1 => data[i..i + WIDTH]);
      assert raw == RawFrames(text, false);
    } else {
      raw := BiWindows(text);
    }
    frames := Dedup(raw);
  }

  /** The two loops of the two-way scroll: the windows forward from the
      start, then backward down to the second. */
  method BiWindows(text: string) returns (raw: seq<string>)
    requires |text| > WIDTH
    ensures raw == RawFrames(text, true)
  {
    raw := [];
    var i := 0;
    while i < |text| - WIDTH + 1
      invariant 0 <= i <= |text| - WIDTH + 1
      invariant |raw| == i
      invariant forall k :: 0 <= k < i ==> raw[k] == text[k..k + WIDTH]
    {
      raw := raw + [text[i..i + WIDTH]];
      i := i + 1;
    }
    var j := |text| - WIDTH - 1;
    while j > 0
      invariant 0 <= j <= |text| - WIDTH - 1
      invariant |raw| == 2 * |text| - 16 - j
      invariant forall k :: 0 <= k < |raw| ==>
        raw[k] == text[BiStart(|text|, k)..BiStart(|text|, k) + WIDTH]
    {
      raw := raw + [text[j..j + WIDTH]];
      j := j - 1;
    }
  }

  /** The filter leaves no two equal neighbours. */
  lemma {:induction false} DedupNoAdjacent<T>(xs: seq<T>)
    ensures NoAdjacentDuplicates(Dedup(xs))
  {
    if |xs| > 1 {
      var init := xs[..|xs| - 1];
      DedupNoAdjacent(init);
      assert init[|init| - 1] == xs[|xs| - 2];
    }
  }

  /** The filter only leaves items out, in order. */
  lemma {:induction false} DedupSubsequence<T>(xs: seq<T>)
    ensures Subsequence(Dedup(xs), xs)
  {
    if |xs| > 1 {
      var init := xs[..|xs| - 1];
      DedupSubsequence(init);
      SubsequenceExtend(Dedup(init), init, xs[|xs| - 1]);
      if xs[|xs| - 1] != xs[|xs| - 2] {
        var ys := Dedup(init) + [xs[|xs| - 1]];
        assert ys[..|ys| - 1] == Dedup(init);
      }
    } else {
      SubsequenceRefl(xs);
    }
  }

  /** Every sequence is a subsequence of itself. */
  lemma {:induction false} SubsequenceRefl<T>(xs: seq<T>)
    ensures Subsequence(xs, xs)
    decreases |xs|
  {
    if xs != [] {
      SubsequenceRefl(xs[..|xs| - 1]);
    }
  }

  /** Adding an item at the end of the longer list keeps a subsequence. */
  lemma {:induction false} SubsequenceExtend<T>(xs: seq<T>, ys: seq<T>, y: T)
    requires Subsequence(xs, ys)
    ensures Subsequence(xs, ys + [y])
    decreases |ys|, 1
  {
    var zs := ys + [y];
    assert zs[..|zs| - 1] == ys;
    if xs != [] && xs[|xs| - 1] == y {
      SubsequenceDropLast(xs, ys);
    }
  }

  /** A subsequence without its last item is still one. */
  lemma {:induction false} SubsequenceDropLast<T>(xs: seq<T>, ys: seq<T>)
    requires xs != [] && Subsequence(xs, ys)
    ensures Subsequence(xs[..|xs| - 1], ys)
    decreases |ys|, 0
  {
    var ys' := ys[..|ys| - 1];
    assert ys' + [ys[|ys| - 1]] == ys;
    if xs[|xs| - 1] == ys[|ys| - 1] {
      SubsequenceExtend(xs[..|xs| - 1], ys', ys[|ys| - 1]);
    } else {
      SubsequenceDropLast(xs, ys');
      SubsequenceExtend(xs[..|xs| - 1], ys', ys[|ys| - 1]);
    }
  }

  /** The filter keeps a list without equal neighbours as it is. */
  lemma {:induction false} DedupIdentity<T>(xs: seq<T>)
    requires NoAdjacentDuplicates(xs)
    ensures Dedup(xs) == xs
  {
    if |xs| > 1 {
      var init := xs[..|xs| - 1];
      assert NoAdjacentDuplicates(init) by {
        forall i | 0 <= i < |init| - 1
          ensures init[i] != init[i + 1]
        {
          assert init[i] == xs[i] && init[i + 1] == xs[i + 1];
        }
      }
      DedupIdentity(init);
      assert xs[|xs| - 2] != xs[|xs| - 1];
      assert init + [xs[|xs| - 1]] == xs;
    }
  }

  /** Filtering twice is filtering once. */
  lemma DedupIdempotent<T>(xs: seq<T>)
    ensures Dedup(Dedup(xs)) == Dedup(xs)
  {
    DedupNoAdjacent(xs);
    DedupIdentity(Dedup(xs));
  }

  /** Every item of the raw list survives somewhere: the filter drops only
      copies of the item just before. */
  lemma {:induction false} DedupKeepsEveryItem<T>(xs: seq<T>, i: nat)
    requires i < |xs|
    ensures xs[i] in Dedup(xs)
  {
    if |xs| > 1 {
      var init := xs[..|xs| - 1];
      if i < |xs| - 1 {
        DedupKeepsEveryItem(init, i);
        assert init[i] == xs[i];
      } else if xs[|xs| - 1] == xs[|xs| - 2] {
        DedupKeepsEveryItem(init, i - 1);
        assert init[i - 1] == xs[i];
      }
    }
  }

  /** The scroll frames: none when scrolling is off or the text fits; else
      eight-character windows, none equal to the next, the first raw window
      first, and each one a window of the raw list. */
  lemma ScrollFramesShape(text: string, scrollEnabled: bool, bidirectional: bool)
    ensures var f := ScrollFrames(text, scrollEnabled, bidirectional);
      && (f == [] <==> !scrollEnabled || |text| <= WIDTH)
      && (forall k :: 0 <= k < |f| ==> |f[k]| == WIDTH)
      && NoAdjacentDuplicates(f)
      && (f != [] ==> f[0] == text[..WIDTH])
      && (f != [] ==> Subsequence(f, RawFrames(text, bidirectional)))
  {
    var f := ScrollFrames(text, scrollEnabled, bidirectional);
    if scrollEnabled && |text| > WIDTH {
      var raw := RawFrames(text, bidirectional);
      DedupNoAdjacent(raw);
      DedupSubsequence(raw);
      forall k | 0 <= k < |f|
        ensures |f[k]| == WIDTH
      {
        SubsequenceItem(f, raw, k);
      }
      if !bidirectional {
        assert raw[0] == (text + " " + text[..WIDTH - 1])[0..WIDTH];
      }
    } else {
      DedupNoAdjacent<string>([]);
    }
  }

  /** Each item of a subsequence is an item of the longer list. */
  lemma {:induction false} SubsequenceItem<T>(xs: seq<T>, ys: seq<T>, k: nat)
    requires Subsequence(xs, ys) && k < |xs|
    ensures xs[k] in ys
    decreases |ys|
  {
    if xs[|xs| - 1] == ys[|ys| - 1] {
      if k < |xs| - 1 {
        SubsequenceItem(xs[..|xs| - 1], ys[..|ys| - 1], k);
      }
    } else {
      SubsequenceItem(xs, ys[..|ys| - 1], k);
    }
  }

  /** One way, the windows read the text as a loop with one space between
      its end and its start: past the space, reading goes on from the start
      of the text. */
  lemma UniFramesWrap(text: string, k: nat, m: nat)
    requires |text| > WIDTH && k <= |text| && m < WIDTH
    ensures RawFrames(text, false)[k][m] ==
      if k + m < |text| then text[k + m]
      else if k + m == |text| then ' '
      else text[k + m - |text| - 1]
  {
    var data := text + " " + text[..WIDTH - 1];
    assert RawFrames(text, false)[k][m] == data[k + m];
  }

  /** Both ways, the raw list starts at the first window and ends at the
      second, so cycling it does not show the first window twice. */
  lemma BiFramesEnd(text: string)
    requires |text| > WIDTH
    ensures var f := RawFrames(text, true);
      f[0] == text[..WIDTH] && f[|f| - 1] == text[1..WIDTH + 1]
  {
    var f := RawFrames(text, true);
    assert BiStart(|text|, |f| - 1) == 1;
  }

  /** How the PS worker fits a text: centred or left-aligned in eight
      characters; a longer text is passed on whole. */
  function FitPs(s: string, center: bool): (r: string)
    ensures |s| >= WIDTH ==> r == s
    ensures |s| < WIDTH ==> |r| == WIDTH
  {
    if center then Center(s, WIDTH) else Ljust(s, WIDTH, ' ')
  }

  /** What the worker waits after a tick: the scroll speed, the display
      delay, or a fixed number of seconds. */
  datatype Dwell = ScrollSpeed | DisplayDelay | Seconds(n: nat)

  /** The wait after each PS tick: the scroll speed with frames; without,
      the display delay for several names, a minute for one, and a second
      when there are none. */
  function PsDwell(frames: seq<string>, names: seq<string>): Dwell
  {
    if frames != [] then ScrollSpeed
    else if names == [] then Seconds(1)
    else if |names| > 1 then DisplayDelay
    else Seconds(60)
  }

  /** `ticks` passes of the PS worker loop. With scroll frames each pass
      sends the next frame; without, the next PS name; with no names, it
      only waits a second. The index only grows, so the texts cycle. */
  method PsWorker(frames: seq<string>, names: seq<string>, center: bool, ticks: nat)
    returns (sent: seq<string>, dwells: seq<Dwell>)
    ensures var src := if frames != [] then frames else names;
      && |sent| == (if src == [] then 0 else ticks)
      && (forall j :: 0 <= j < |sent| ==> sent[j] == FitPs(src[j % |src|], center))
    ensures |dwells| == ticks
    ensures forall j :: 0 <= j < ticks ==> dwells[j] == PsDwell(frames, names)
  {
    ghost var src := if frames != [] then frames else names;
    ghost var dwell := PsDwell(frames, names);
    sent := [];
    dwells := [];
    var idx := 0;
    var t := 0;
    while t < ticks
      invariant 0 <= t <= ticks
      invariant |dwells| == t && forall j :: 0 <= j < t ==> dwells[j] == dwell
      invariant idx == |sent| == (if src == [] then 0 else t)
      invariant forall j :: 0 <= j < |sent| ==> sent[j] == FitPs(src[j % |src|], center)
    {
      if |frames| > 0 {
        var frame := frames[idx % |frames|];
        idx := idx + 1;
        sent := sent + [FitPs(frame, center)];
        dwells := dwells + [ScrollSpeed];
      } else if |names| == 0 {
        dwells := dwells + [Seconds(1)];
      } else {
        var name := names[idx % |names|];
        idx := idx + 1;
        sent := sent + [FitPs(name, center)];
        dwells := dwells + [if |names| > 1 then DisplayDelay else Seconds(60)];
      }
      t := t + 1;
    }
  }

  /** A scroll frame is sent as it is: it already fills the display. */
  lemma ScrollFramesSentAsIs(text: string, scrollEnabled: bool, bidirectional: bool, center: bool, k: nat)
    requires k < |ScrollFrames(text, scrollEnabled, bidirectional)|
    ensures FitPs(ScrollFrames(text, scrollEnabled, bidirectional)[k], center)
      == ScrollFrames(text, scrollEnabled, bidirectional)[k]
  {
    ScrollFramesShape(text, scrollEnabled, bidirectional);
  }

  /** How the RT worker fits a text: centred or left-aligned in 64
      characters. */
  function FitRt(s: string, center: bool): (r: string)
    ensures |s| >= 64 ==> r == s
    ensures |s| < 64 ==> |r| == 64
  {
    if center then Center(s, 64) else Ljust(s, 64, ' ')
  }

  /** The RT settings: whether a file is configured, the message list, the
      alignment and the list interval in ticks. */
  datatype RtConfig = RtConfig(fileConfigured: bool, msgs: seq<string>, center: bool, interval: int)

  /** What one tick of the RT worker observes: whether the file is a regular
      file, its modification time (`None` when `stat` raises), its content
      (`None` when reading raises) and the clock. */
  datatype RtObs = RtObs(isFile: bool, mtime: Option<int>, content: Option<string>, now: int)

  /** The worker's state between ticks: the list cursor, when the list last
      moved on, and the modification time last seen. */
  datatype RtCursor = RtCursor(idx: nat, lastListTs: int, lastMtime: Option<int>)

  /** The file branch is taken when a file is configured and is a regular
      file at that tick. */
  predicate UsesFile(cfg: RtConfig, obs: RtObs)
  {
    cfg.fileConfigured && obs.isFile
  }

  /** The file has changed since it was last seen: never seen, or a strictly
      newer modification time. */
  predicate Newer(cur: RtCursor, mtime: int)
  {
    cur.lastMtime.None? || mtime > cur.lastMtime.value
  }

  /** One tick of the polling loop: what it sends and the next state. The
      file branch sends the stripped content, blank or not, when the file
      is newer; the time is recorded before the read, so a failed read
      sends nothing and is not retried until the file changes again. The
      list branch sends the next message once the interval has passed. */
  function RtTick(cfg: RtConfig, cur: RtCursor, obs: RtObs): (r: (Option<string>, RtCursor))
    ensures UsesFile(cfg, obs) ==> r.1.idx == cur.idx
    ensures UsesFile(cfg, obs) ==>
      (r.0.Some? <==> obs.mtime.Some? && Newer(cur, obs.mtime.value) && obs.content.Some?)
    ensures UsesFile(cfg, obs) && r.0.Some? ==> r.0.value == FitRt(Strip(obs.content.value), cfg.center)
    ensures UsesFile(cfg, obs) ==>
      r.1.lastMtime == (if obs.mtime.Some? && Newer(cur, obs.mtime.value) then obs.mtime else cur.lastMtime)
    ensures !UsesFile(cfg, obs) ==> r.1.lastMtime == cur.lastMtime
    ensures !UsesFile(cfg, obs) ==>
      (r.0.Some? <==> obs.now - cur.lastListTs >= cfg.interval && cfg.msgs != [])
    ensures !UsesFile(cfg, obs) && r.0.Some? ==>
      r.0.value == FitRt(cfg.msgs[cur.idx % |cfg.msgs|], cfg.center) && r.1.idx == cur.idx + 1
    ensures !UsesFile(cfg, obs) && r.0.None? ==> r.1 == cur
    ensures r.0.Some? ==> r.1.lastListTs == obs.now
    ensures r.0.None? ==> r.1.lastListTs == cur.lastListTs
  {
    if UsesFile(cfg, obs) then
      match obs.mtime
      case None => (None, cur)
      case Some(m) =>
        if Newer(cur, m) then
          var seen := cur.(lastMtime := Some(m));
          match obs.content
          case None => (None, seen)
          case Some(c) => (Some(FitRt(Strip(c), cfg.center)), seen.(lastListTs := obs.now))
        else (None, cur)
    else if obs.now - cur.lastListTs >= cfg.interval && |cfg.msgs| > 0 then
      var text := cfg.msgs[cur.idx % |cfg.msgs|];
      (Some(FitRt(text, cfg.center)), cur.(idx := cur.idx + 1, lastListTs := obs.now))
    else (None, cur)
  }

  /** The initial send: from the file when it is a regular file, else from
      the list, and only when the text is not empty. `None` when `stat` or
      the read raises, which ends the worker. */
  function RtStart(cfg: RtConfig, obs: RtObs): (r: Option<(Option<string>, RtCursor)>)
    ensures r.None? <==> UsesFile(cfg, obs) && (obs.mtime.None? || obs.content.None?)
    ensures r.Some? ==> r.value.0.Some? ==> |r.value.0.value| >= 64
    ensures r.Some? && !UsesFile(cfg, obs) ==>
      r.value.1 == RtCursor(if cfg.msgs == [] then 0 else 1, obs.now, None)
    ensures r.Some? && !UsesFile(cfg, obs) ==>
      (r.value.0.Some? <==> cfg.msgs != [] && cfg.msgs[0] != [])
    ensures r.Some? && UsesFile(cfg, obs) ==>
      r.value.1 == RtCursor(0, obs.now, obs.mtime)
      && (r.value.0.Some? <==> Strip(obs.content.value) != [])
    ensures r.Some? && r.value.0.Some? ==>
      r.value.0.value == FitRt(if UsesFile(cfg, obs) then Strip(obs.content.value) else cfg.msgs[0], cfg.center)
  {
    var start := RtCursor(0, obs.now, None);
    if UsesFile(cfg, obs) then
      match obs.mtime
      case None => None
      case Some(m) =>
        match obs.content
        case None => None
        case Some(c) =>
          var text := Strip(c);
          Some((if text != [] then Some(FitRt(text, cfg.center)) else None, start.(lastMtime := Some(m))))
    else if |cfg.msgs| > 0 then
      var text := cfg.msgs[0];
      Some((if text != [] then Some(FitRt(text, cfg.center)) else None, start.(idx := 1)))
    else Some((None, start))
  }

  /** The list of an optional item. */
  function Sends(o: Option<string>): (r: seq<string>)
    ensures |r| <= 1
  {
    if o.Some? then [o.value] else []
  }

  /** The texts sent by successive ticks, and the state after them. */
  function RunRt(cfg: RtConfig, cur: RtCursor, ticks: seq<RtObs>): (r: (seq<string>, RtCursor))
    ensures |r.0| <= |ticks|
    decreases |ticks|
  {
    if ticks == [] then ([], cur)
    else
      var step := RtTick(cfg, cur, ticks[0]);
      var rest := RunRt(cfg, step.1, ticks[1..]);
      (Sends(step.0) + rest.0, rest.1)
  }

  /** The texts of a whole worker run: the initial send, then the ticks; a
      start that raises sends nothing. */
  function RtRun(cfg: RtConfig, first: RtObs, ticks: seq<RtObs>): seq<string>
  {
    match RtStart(cfg, first)
    case None => []
    case Some(s) => Sends(s.0) + RunRt(cfg, s.1, ticks).0
  }

  /** The initial send of the RT worker: the stripped file content when the
      file is a regular file, else the first message; sent only when not
      empty. `None` when `stat` or the read raises. */
  method RtInitialSend(cfg: RtConfig, first: RtObs) returns (r: Option<(Option<string>, RtCursor)>)
    ensures r == RtStart(cfg, first)
  {
    var idx := 0;
    var lastListTs := first.now;
    var lastMtime: Option<int> := None;
    var text: string := [];
    if cfg.fileConfigured && first.isFile {
      if first.mtime.None? {
        return None;
      }
      lastMtime := first.mtime;
      if first.content.None? {
        return None;
      }
      text := Strip(first.content.value);
    } else if |cfg.msgs| > 0 {
      text := cfg.msgs[idx % |cfg.msgs|];
      idx := idx + 1;
      lastListTs := first.now;
    }
    var out: Option<string> := None;
    if text != [] {
      out := Some(FitRt(text, cfg.center));
    }
    r := Some((out, RtCursor(idx, lastListTs, lastMtime)));
  }

  /** One pass of the polling loop, on the worker's locals. */
  method RtPoll(cfg: RtConfig, cur: RtCursor, obs: RtObs) returns (out: Option<string>, next: RtCursor)
    ensures (out, next) == RtTick(cfg, cur, obs)
  {
    var idx := cur.idx;
    var lastListTs := cur.lastListTs;
    var lastMtime := cur.lastMtime;
    out := None;
    if cfg.fileConfigured && obs.isFile {
      if obs.mtime.Some? {
        var m := obs.mtime.value;
        if lastMtime.None? || m > lastMtime.value {
          lastMtime := Some(m);
          if obs.content.Some? {
            var text := Strip(obs.content.value);
            out := Some(FitRt(text, cfg.center));
            lastListTs := obs.now;
          }
        }
      }
    } else if obs.now - lastListTs >= cfg.interval && |cfg.msgs| > 0 {
      var text := cfg.msgs[idx % |cfg.msgs|];
      idx := idx + 1;
      lastListTs := obs.now;
      out := Some(FitRt(text, cfg.center));
    }
    next := RtCursor(idx, lastListTs, lastMtime);
  }

  /** The RT worker with its loop: the initial send, then one pass per
      tick until the ticks run out (the stop request). */
  method RtWorker(cfg: RtConfig, first: RtObs, ticks: seq<RtObs>) returns (sent: seq<string>)
    ensures sent == RtRun(cfg, first, ticks)
  {
    var start := RtInitialSend(cfg, first);
    if start.None? {
      return [];
    }
    var (out, cursor) := start.value;
    sent := [];
    if out.Some? {
      sent := sent + [out.value];
    }
    assert sent == Sends(out);
    var rest := RtLoop(cfg, cursor, ticks);
    sent := sent + rest;
  }

  /** The polling loop of the RT worker, one pass per tick. */
  method RtLoop(cfg: RtConfig, cursor: RtCursor, ticks: seq<RtObs>) returns (sent: seq<string>)
    ensures sent == RunRt(cfg, cursor, ticks).0
  {
    var cur := cursor;
    sent := [];
    assert ticks[0..] == ticks;
    var i := 0;
    while i < |ticks|
      invariant 0 <= i <= |ticks|
      invariant RunRt(cfg, cursor, ticks).0 == sent + RunRt(cfg, cur, ticks[i..]).0
    {
      ghost var before := sent;
      var sendNow, next := RtPoll(cfg, cur, ticks[i]);
      RunRtStep(RunRt(cfg, cursor, ticks).0, before, cfg, cur, ticks, i);
      if sendNow.Some? {
        sent := sent + [sendNow.value];
      }
      assert sent == before + Sends(sendNow);
      cur := next;
      i := i + 1;
    }
  }

  /** One tick of a run: its sends, then those of the remaining ticks from
      the state it leaves. */
  lemma RunRtUnfold(cfg: RtConfig, cur: RtCursor, ticks: seq<RtObs>)
    requires ticks != []
    ensures RunRt(cfg, cur, ticks).0
      == Sends(RtTick(cfg, cur, ticks[0]).0) + RunRt(cfg, RtTick(cfg, cur, ticks[0]).1, ticks[1..]).0
  {
  }

  /** The invariant of the worker loop carried over one tick. */
  lemma RunRtStep(total: seq<string>, sent: seq<string>, cfg: RtConfig, cur: RtCursor, ticks: seq<RtObs>, i: nat)
    requires i < |ticks| && total == sent + RunRt(cfg, cur, ticks[i..]).0
    ensures var step := RtTick(cfg, cur, ticks[i]);
      total == (sent + Sends(step.0)) + RunRt(cfg, step.1, ticks[i + 1..]).0
  {
    RunRtUnfold(cfg, cur, ticks[i..]);
    assert ticks[i..][1..] == ticks[i + 1..];
  }

  /** The modification time the worker remembers never goes back. */
  lemma {:induction false} RunRtMtimeMonotone(cfg: RtConfig, cur: RtCursor, ticks: seq<RtObs>)
    requires cur.lastMtime.Some?
    ensures var fin := RunRt(cfg, cur, ticks).1;
      fin.lastMtime.Some? && fin.lastMtime.value >= cur.lastMtime.value
    decreases |ticks|
  {
    if ticks != [] {
      RunRtMtimeMonotone(cfg, RtTick(cfg, cur, ticks[0]).1, ticks[1..]);
    }
  }

  /** While the file is there and its modification time is not newer than
      the one last seen, nothing is sent and nothing changes. */
  lemma {:induction false} RunRtSilentWhileUnchanged(cfg: RtConfig, cur: RtCursor, ticks: seq<RtObs>)
    requires cur.lastMtime.Some?
    requires forall j :: 0 <= j < |ticks| ==> UsesFile(cfg, ticks[j])
    requires forall j :: 0 <= j < |ticks| ==>
      ticks[j].mtime.None? || ticks[j].mtime.value <= cur.lastMtime.value
    ensures RunRt(cfg, cur, ticks) == ([], cur)
    decreases |ticks|
  {
    if ticks != [] {
      assert RtTick(cfg, cur, ticks[0]) == (None, cur);
      RunRtSilentWhileUnchanged(cfg, cur, ticks[1..]);
    }
  }

  /** Without the file, every send is the next message of the list, the
      cursor advancing by one per send and wrapping around. */
  lemma {:induction false} RunRtCycles(cfg: RtConfig, cur: RtCursor, ticks: seq<RtObs>)
    requires cfg.msgs != []
    requires forall j :: 0 <= j < |ticks| ==> !UsesFile(cfg, ticks[j])
    ensures var (out, fin) := RunRt(cfg, cur, ticks);
      && fin.idx == cur.idx + |out|
      && forall j :: 0 <= j < |out| ==> out[j] == FitRt(cfg.msgs[(cur.idx + j) % |cfg.msgs|], cfg.center)
    decreases |ticks|
  {
    if ticks != [] {
      var step := RtTick(cfg, cur, ticks[0]);
      RunRtCycles(cfg, step.1, ticks[1..]);
      var rest := RunRt(cfg, step.1, ticks[1..]);
      var out := Sends(step.0) + rest.0;
      if step.0.Some? {
        forall j | 0 <= j < |out|
          ensures out[j] == FitRt(cfg.msgs[(cur.idx + j) % |cfg.msgs|], cfg.center)
        {
          if j > 0 {
            assert out[j] == rest.0[j - 1];
            assert step.1.idx + (j - 1) == cur.idx + j;
          }
        }
      }
    }
  }

  /** Unlike the Go worker, a blank file sends a blank RT: 64 spaces. */
  lemma BlankFileSendsSpaces(cfg: RtConfig, cur: RtCursor, obs: RtObs)
    requires UsesFile(cfg, obs) && obs.mtime.Some? && Newer(cur, obs.mtime.value)
    requires obs.content == Some(" ")
    ensures RtTick(cfg, cur, obs).0 == Some(Repeat(' ', 64))
  {
    assert Strip(" ") == [];
    var r := RtTick(cfg, cur, obs).0.value;
    assert |r| == 64 && forall i :: 0 <= i < 64 ==> r[i] == ' ';
    assert r == Repeat(' ', 64);
  }

  /** What a send carries. */
  datatype Sent = PsSent(text: string) | RtSent(text: string)

  /** The single path to the encoder, shared by both workers. */
  class Transmitter {
    /** The stop request. */
    var stopped: bool
    /** Every send that reached the encoder, in order. */
    ghost var sent: seq<Sent>

    constructor ()
      ensures !stopped && sent == []
    {
      stopped := false;
      sent := [];
    }

    /** Nothing is sent once stop is requested; `"ps"` selects PS, any
        other kind RT. */
    method SafeSend(kind: string, msg: string)
      modifies this`sent
      ensures sent == old(sent) + if stopped then [] else [if kind == "ps" then PsSent(msg) else RtSent(msg)]
    {
      if stopped {
        return;
      }
      if kind == "ps" {
        sent := sent + [PsSent(msg)];
      } else {
        sent := sent + [RtSent(msg)];
      }
    }

    method Stop()
      modifies this`stopped
      ensures stopped
    {
      stopped := true;
    }
  }

  /** The DI value: stereo in bit 0, artificial head in bit 1, compressed in
      bit 2, dynamic PTY in bit 3; the same value as the encoders' DI byte. */
  function PyDi(stereo: bool, artificialHead: bool, compressed: bool, dynamicPty: bool): (r: int)
    ensures 0 <= r < 16
    ensures r == DiFlags(stereo, artificialHead, compressed, dynamicPty) as int
  {
    (if stereo then 1 else 0) + (if artificialHead then 2 else 0)
    + (if compressed then 4 else 0) + (if dynamicPty then 8 else 0)
  }
}
