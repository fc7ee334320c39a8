/**
 * The playback loop of the hybrid printer driver (`main`, the `while` over
 * `gcodeStream.readLine()`), as a function from the lines of the G-code entry
 * to the trace of effects it has on the printer's serial stream, the clock and
 * the screen.  Each line is classified once; directives update the driver's
 * settings or drive the screen, every other line goes to the printer verbatim.
 * A directive whose number `Integer.parseInt` rejects, or a slice directive
 * before any slice count, ends the loop.
 */
module Playback {
  import opened Wrappers
  import opened Text
  import opened Directives
  import opened Entries

  /** One observable effect of the loop, in the order the loop causes them. */
  datatype Event =
    | Write(data: string)                      // printerOutput.write(line.getBytes())
    | WriteLineSeparator                       // printerOutput.write(lineSeparator)
    | Sleep(ms: nat)                           // Thread.sleep(ms)
    | OpenFullScreenWindow                     // new JFrame, full screen, its graphics become current
    | SetDisplayMode(width: nat, height: nat)  // device.setDisplayMode
    | ClearToBlack                             // black background, clearRect over the window
    | DrawImage(image: ImageRef, x: nat, y: nat) // drawImage of the PNG read from `image.Name()`

  /**
   * What the loop is given: the archive's base name `baseName`, which is
   * `Entries.BaseName(file.getName()).value` (line 109); the EOL flag; and
   * `displayChangeSupported`, the answer of `device.isDisplayChangeSupported()`,
   * taken to be the same on every resolution line of the run.
   */
  datatype Config = Config(baseName: string, useEols: bool, displayChangeSupported: bool)

  /**
   * The loop's variables: `sliceCount`, the two slots of `xyResolutionFound`
   * and of `xyPixelOffsetFound` (None is a null slot), and whether
   * `graphicsContext` is set.
   */
  datatype State = State(
    sliceCount: Option<nat>,
    xResolution: Option<nat>,
    yResolution: Option<nat>,
    xOffset: Option<nat>,
    yOffset: Option<nat>,
    hasGraphics: bool)

  /** Every variable null, as before the first line is read. */
  const Start: State := State(None, None, None, None, None, false)

  /** Why the loop ends early: the IllegalArgumentException, or a NumberFormatException. */
  datatype Failure = MissingSliceCount | NumberFormat

  datatype StepResult = StepResult(state: State, events: seq<Event>, failure: Option<Failure>)

  /** A null offset slot draws at 0. */
  function OrZero(v: Option<nat>): nat {
    if v.Some? then v.value else 0
  }

  /** `[OpenFullScreenWindow]` exactly when no graphics context exists yet. */
  function WindowIfNone(st: State): seq<Event> {
    if st.hasGraphics then [] else [OpenFullScreenWindow]
  }

  /** The separator written after a raw line, if the driver writes one. */
  function Separator(cfg: Config): seq<Event> {
    if cfg.useEols then [WriteLineSeparator] else []
  }

  /** A slice directive, shown or blank (the branch at the slice pattern). */
  function SliceStep(cfg: Config, st: State, d: Directive): StepResult
    requires d.ShowSlice? || d.BlankSlice?
  {
    if st.sliceCount.None? then
      StepResult(st, [], Some(MissingSliceCount))
    else
      var window := WindowIfNone(st);
      var st' := st.(hasGraphics := true);
      if d.BlankSlice? then
        StepResult(st', window + [ClearToBlack], None)
      else if d.index > MaxInt then
        StepResult(st', window, Some(NumberFormat))
      else
        var image := ImageRef(cfg.baseName, st.sliceCount.value, d.index);
        StepResult(st', window + [DrawImage(image, OrZero(st.xOffset), OrZero(st.yOffset))], None)
  }

  /** A resolution directive: store the slot, then switch mode once both slots are set. */
  function ResolutionStep(cfg: Config, st: State, a: Axis, px: nat): StepResult {
    if px > MaxInt then
      StepResult(st, [], Some(NumberFormat))
    else
      var st' := if a == X then st.(xResolution := Some(px)) else st.(yResolution := Some(px));
      if st'.xResolution.Some? && st'.yResolution.Some? && cfg.displayChangeSupported then
        StepResult(st'.(hasGraphics := true),
                   [SetDisplayMode(st'.xResolution.value, st'.yResolution.value), OpenFullScreenWindow], None)
      else
        StepResult(st', [], None)
  }

  /** A line of the G-code entry together with the directive it spells. */
  datatype Line = Line(text: string, directive: Directive)

  /** The lines as the loop sees them: each one classified by the five patterns in turn. */
  function ReadLines(texts: seq<string>): (ls: seq<Line>)
    ensures |ls| == |texts|
    ensures forall i :: 0 <= i < |texts| ==> ls[i].text == texts[i] && ls[i].directive == Classify(texts[i])
    ensures forall i :: 0 <= i < |texts| ==> Spells(texts[i], ls[i].directive)
  {
    ClassifyEverySpells(texts);
    seq(|texts|, i requires 0 <= i < |texts| => Line(texts[i], Classify(texts[i])))
  }

  /** Every line spells the directive it is classified as. */
  lemma ClassifyEverySpells(texts: seq<string>)
    ensures forall i :: 0 <= i < |texts| ==> Spells(texts[i], Classify(texts[i]))
  {
    forall i | 0 <= i < |texts| {
      ClassifySpells(texts[i]);
    }
  }

  /** One pass of the loop body on `line`. */
  function Step(cfg: Config, st: State, line: Line): StepResult {
    match line.directive
    case ShowSlice(_) => SliceStep(cfg, st, line.directive)
    case BlankSlice => SliceStep(cfg, st, BlankSlice)
    case Delay(ms) =>
      if ms > MaxInt then StepResult(st, [], Some(NumberFormat)) else StepResult(st, [Sleep(ms)], None)
    case SliceCount(n) =>
      if n > MaxInt then StepResult(st, [], Some(NumberFormat))
      else StepResult(st.(sliceCount := Some(n)), [], None)
    case Resolution(a, px) => ResolutionStep(cfg, st, a, px)
    case PixelOffset(a, px) =>
      if px > MaxInt then StepResult(st, [], Some(NumberFormat))
      else if a == X then StepResult(st.(xOffset := Some(px)), [], None)
      else StepResult(st.(yOffset := Some(px)), [], None)
    case Gcode => StepResult(st, [Write(line.text)] + Separator(cfg), None)
  }

  /** The loop ended at line `line` (0-based) for `failure`. */
  datatype Stop = Stop(line: nat, failure: Failure)

  datatype RunResult = RunResult(state: State, events: seq<Event>, stop: Option<Stop>)

  function Shift(stop: Option<Stop>, k: nat): Option<Stop> {
    match stop
    case None => None
    case Some(s) => Some(Stop(s.line + k, s.failure))
  }

  /** The whole loop over `lines`, from state `st`, up to the end or the first failure. */
  function Run(cfg: Config, st: State, lines: seq<Line>): RunResult
    decreases |lines|
  {
    if lines == [] then RunResult(st, [], None)
    else
      var s := Step(cfg, st, lines[0]);
      match s.failure
      case Some(f) => RunResult(s.state, s.events, Some(Stop(0, f)))
      case None =>
        var r := Run(cfg, s.state, lines[1..]);
        RunResult(r.state, s.events + r.events, Shift(r.stop, 1))
  }

  // ---------------------------------------------------------------------------
  // The loop is a fold over the lines

  lemma ShiftShift(stop: Option<Stop>, i: nat, j: nat)
    ensures Shift(Shift(stop, i), j) == Shift(stop, i + j)
  {
  }

  /** Running `a + b` is running `a`, then, unless `a` stopped, running `b` from where `a` left off. */
  lemma {:induction false} RunAppend(cfg: Config, st: State, a: seq<Line>, b: seq<Line>)
    ensures var ra := Run(cfg, st, a);
      var rb := Run(cfg, ra.state, b);
      Run(cfg, st, a + b) ==
        if ra.stop.Some? then ra else RunResult(rb.state, ra.events + rb.events, Shift(rb.stop, |a|))
    decreases |a|
  {
    if a == [] {
      assert a + b == b;
      var rb := Run(cfg, st, b);
      assert Shift(rb.stop, 0) == rb.stop;
    } else {
      assert (a + b)[0] == a[0];
      assert (a + b)[1..] == a[1..] + b;
      var s := Step(cfg, st, a[0]);
      if s.failure.None? {
        RunAppend(cfg, s.state, a[1..], b);
        var ra' := Run(cfg, s.state, a[1..]);
        if ra'.stop.None? {
          var rb := Run(cfg, ra'.state, b);
          assert s.events + (ra'.events + rb.events) == (s.events + ra'.events) + rb.events;
          ShiftShift(rb.stop, |a| - 1, 1);
        }
      }
    }
  }

  /** Once the loop has stopped, no later line has any effect. */
  lemma NothingAfterStop(cfg: Config, st: State, lines: seq<Line>, more: seq<Line>)
    requires Run(cfg, st, lines).stop.Some?
    ensures Run(cfg, st, lines + more) == Run(cfg, st, lines)
  {
    RunAppend(cfg, st, lines, more);
  }

  /** How a run ends: every line before the stop ran cleanly, and the stopping line's step failed. */
  lemma {:induction false} StopIsFirstFailure(cfg: Config, st: State, lines: seq<Line>)
    requires Run(cfg, st, lines).stop.Some?
    ensures var k := Run(cfg, st, lines).stop.value.line;
      && k < |lines|
      && Run(cfg, st, lines[..k]).stop.None?
      && var s := Step(cfg, Run(cfg, st, lines[..k]).state, lines[k]);
      && s.failure == Some(Run(cfg, st, lines).stop.value.failure)
      && Run(cfg, st, lines) ==
           RunResult(s.state, Run(cfg, st, lines[..k]).events + s.events, Run(cfg, st, lines).stop)
    decreases |lines|
  {
    var s := Step(cfg, st, lines[0]);
    if s.failure.Some? {
      assert lines[..0] == [];
    } else {
      var rest := lines[1..];
      var r := Run(cfg, s.state, rest);
      assert Run(cfg, st, lines) == RunResult(r.state, s.events + r.events, Shift(r.stop, 1));
      StopIsFirstFailure(cfg, s.state, rest);
      var k := r.stop.value.line;
      var inner := Run(cfg, s.state, rest[..k]);
      var last := Step(cfg, inner.state, rest[k]);
      assert r == RunResult(last.state, inner.events + last.events, r.stop);
      assert lines[..k + 1] == [lines[0]] + rest[..k];
      RunAppend(cfg, st, [lines[0]], rest[..k]);
      assert [lines[0]][1..] == [];
      assert Run(cfg, st, [lines[0]]) == RunResult(s.state, s.events, None);
      assert Run(cfg, st, lines[..k + 1]) == RunResult(inner.state, s.events + inner.events, None);
      assert lines[k + 1] == rest[k];
      EventsAssoc(s.events, inner.events, last.events);
    }
  }

  lemma EventsAssoc(a: seq<Event>, b: seq<Event>, c: seq<Event>)
    ensures a + (b + c) == (a + b) + c
  {
  }

  /** Extending a clean run by one line: that line's step decides how the longer run ends. */
  lemma RunSnoc(cfg: Config, st: State, lines: seq<Line>, i: nat)
    requires i < |lines| && Run(cfg, st, lines[..i]).stop.None?
    ensures var before := Run(cfg, st, lines[..i]);
      var s := Step(cfg, before.state, lines[i]);
      && Run(cfg, st, lines[..i + 1]) == RunResult(s.state, before.events + s.events,
           if s.failure.Some? then Some(Stop(i, s.failure.value)) else None)
      && (s.failure.Some? ==> Run(cfg, st, lines) == Run(cfg, st, lines[..i + 1]))
  {
    assert lines[..i + 1] == lines[..i] + [lines[i]];
    RunAppend(cfg, st, lines[..i], [lines[i]]);
    assert [lines[i]][1..] == [];
    var before := Run(cfg, st, lines[..i]);
    if Step(cfg, before.state, lines[i]).failure.Some? {
      assert lines == lines[..i + 1] + lines[i + 1..];
      NothingAfterStop(cfg, st, lines[..i + 1], lines[i + 1..]);
    }
  }

  /**
   * The number of lines whose step completed: when the run stopped at line k,
   * the k lines before it (the failing line's own step completes nothing), and
   * otherwise all of them.  Every stop `Run` reports lies within the lines
   * (`StopIsFirstFailure`); the bound only keeps the function total for any
   * `RunResult`.
   */
  function Reached(r: RunResult, lines: seq<Line>): nat {
    if r.stop.Some? && r.stop.value.line <= |lines| then r.stop.value.line else |lines|
  }

  // ---------------------------------------------------------------------------
  // Last write wins

  /** The settings the directives write: the slice count and the four resolution and offset slots. */
  datatype Slot = CountSlot | ResolutionSlot(axis: Axis) | OffsetSlot(axis: Axis)

  function Setting(st: State, slot: Slot): Option<nat> {
    match slot
    case CountSlot => st.sliceCount
    case ResolutionSlot(a) => if a == X then st.xResolution else st.yResolution
    case OffsetSlot(a) => if a == X then st.xOffset else st.yOffset
  }

  /** The value directive `d` writes into `slot`, if it writes one. */
  function Assigns(d: Directive, slot: Slot): Option<nat> {
    match d
    case SliceCount(n) => if slot == CountSlot then Some(n) else None
    case Resolution(a, px) => if slot == ResolutionSlot(a) then Some(px) else None
    case PixelOffset(a, px) => if slot == OffsetSlot(a) then Some(px) else None
    case _ => None
  }

  /** Reference definition: the value of the last line that writes `slot`, read from the end. */
  function Latest(lines: seq<Line>, slot: Slot, initial: Option<nat>): Option<nat>
    decreases |lines|
  {
    if lines == [] then initial
    else
      match Assigns(lines[|lines| - 1].directive, slot)
      case Some(v) => Some(v)
      case None => Latest(lines[..|lines| - 1], slot, initial)
  }

  /** A clean step overwrites exactly the slot its directive names. */
  lemma StepSetting(cfg: Config, st: State, line: Line, slot: Slot)
    requires Step(cfg, st, line).failure.None?
    ensures Setting(Step(cfg, st, line).state, slot) ==
      match Assigns(line.directive, slot)
      case Some(v) => Some(v)
      case None => Setting(st, slot)
  {
  }

  /** After a clean run every setting holds the value of the last line that wrote it, or its initial value. */
  lemma {:induction false} LastWriteWins(cfg: Config, st: State, lines: seq<Line>, slot: Slot)
    requires Run(cfg, st, lines).stop.None?
    ensures Setting(Run(cfg, st, lines).state, slot) == Latest(lines, slot, Setting(st, slot))
    decreases |lines|
  {
    if lines != [] {
      var init := lines[..|lines| - 1];
      var last := lines[|lines| - 1];
      assert lines == init + [last];
      RunAppend(cfg, st, init, [last]);
      var ri := Run(cfg, st, init);
      LastWriteWins(cfg, st, init, slot);
      StepSetting(cfg, ri.state, last, slot);
      assert [last][1..] == [];
    }
  }

  /** Without a slice-count line the count stays what it was. */
  lemma {:induction false} NoCountLine(lines: seq<Line>, initial: Option<nat>)
    requires forall i :: 0 <= i < |lines| ==> !lines[i].directive.SliceCount?
    ensures Latest(lines, CountSlot, initial) == initial
    decreases |lines|
  {
    if lines != [] {
      var init := lines[..|lines| - 1];
      assert forall i :: 0 <= i < |init| ==> init[i] == lines[i];
      NoCountLine(init, initial);
    }
  }

  // ---------------------------------------------------------------------------
  // Slice directives

  /** A slice directive before any slice count ends the loop there, with no effect of its own. */
  lemma SliceBeforeCountFails(cfg: Config, lines: seq<Line>, k: nat)
    requires k < |lines| && (lines[k].directive.ShowSlice? || lines[k].directive.BlankSlice?)
    requires forall i :: 0 <= i < k ==> !lines[i].directive.SliceCount?
    requires Run(cfg, Start, lines[..k]).stop.None?
    ensures Run(cfg, Start, lines) ==
      RunResult(Run(cfg, Start, lines[..k]).state, Run(cfg, Start, lines[..k]).events, Some(Stop(k, MissingSliceCount)))
  {
    var pre := lines[..k];
    assert forall i :: 0 <= i < |pre| ==> pre[i] == lines[i];
    LastWriteWins(cfg, Start, pre, CountSlot);
    NoCountLine(pre, None);
    var rp := Run(cfg, Start, pre);
    assert rp.state.sliceCount.None?;
    assert lines == pre + lines[k..];
    RunAppend(cfg, Start, pre, lines[k..]);
    assert lines[k..][0] == lines[k];
    assert Step(cfg, rp.state, lines[k]) == StepResult(rp.state, [], Some(MissingSliceCount));
  }

  /** Once any count is known, zero included, a slice directive never fails for want of one. */
  lemma CountKnownSliceProceeds(cfg: Config, st: State, line: Line)
    requires st.sliceCount.Some?
    ensures Step(cfg, st, line).failure != Some(MissingSliceCount)
  {
  }

  /**
   * A slice directive that runs cleanly draws the PNG named by the latest slice
   * count at the latest pixel offsets (0 for an axis never set), after opening a
   * window only if none was open.
   */
  lemma DrawUsesLatestSettings(cfg: Config, st: State, lines: seq<Line>, k: nat, n: nat)
    requires k < |lines| && lines[k].directive == ShowSlice(n)
    requires Run(cfg, st, lines[..k + 1]).stop.None?
    ensures var before := Run(cfg, st, lines[..k]);
      && Latest(lines[..k], CountSlot, st.sliceCount).Some?
      && Run(cfg, st, lines[..k + 1]).events ==
           before.events + WindowIfNone(before.state) +
           [DrawImage(ImageRef(cfg.baseName, Latest(lines[..k], CountSlot, st.sliceCount).value, n),
                      OrZero(Latest(lines[..k], OffsetSlot(X), st.xOffset)),
                      OrZero(Latest(lines[..k], OffsetSlot(Y), st.yOffset)))]
  {
    var pre := lines[..k];
    assert lines[..k + 1] == pre + [lines[k]];
    RunAppend(cfg, st, pre, [lines[k]]);
    var before := Run(cfg, st, pre);
    LastWriteWins(cfg, st, pre, CountSlot);
    LastWriteWins(cfg, st, pre, OffsetSlot(X));
    LastWriteWins(cfg, st, pre, OffsetSlot(Y));
    assert [lines[k]][1..] == [];
  }

  // ---------------------------------------------------------------------------
  // Resolution directives

  /**
   * A resolution directive that runs cleanly switches the display mode to the
   * latest X and Y resolutions, and opens a new window straight after, exactly
   * when both are known and the screen supports mode changes; otherwise it has
   * no effect beyond storing its value.
   */
  lemma ResolutionUsesLatest(cfg: Config, st: State, lines: seq<Line>, k: nat, a: Axis, px: nat)
    requires k < |lines| && lines[k].directive == Resolution(a, px)
    requires Run(cfg, st, lines[..k + 1]).stop.None?
    ensures var x := Latest(lines[..k + 1], ResolutionSlot(X), st.xResolution);
      var y := Latest(lines[..k + 1], ResolutionSlot(Y), st.yResolution);
      Run(cfg, st, lines[..k + 1]).events ==
        Run(cfg, st, lines[..k]).events +
        if x.Some? && y.Some? && cfg.displayChangeSupported then [SetDisplayMode(x.value, y.value), OpenFullScreenWindow]
        else []
  {
    var pre := lines[..k];
    assert lines[..k + 1] == pre + [lines[k]];
    assert lines[..k + 1][..k] == pre;
    RunAppend(cfg, st, pre, [lines[k]]);
    LastWriteWins(cfg, st, pre, ResolutionSlot(X));
    LastWriteWins(cfg, st, pre, ResolutionSlot(Y));
    assert [lines[k]][1..] == [];
  }

  /** Every SetDisplayMode in `events` is followed at once by a new full-screen window. */
  predicate ModeThenWindow(events: seq<Event>) {
    forall i :: 0 <= i < |events| && events[i].SetDisplayMode? ==>
      i + 1 < |events| && events[i + 1] == OpenFullScreenWindow
  }

  lemma ModeThenWindowAppend(a: seq<Event>, b: seq<Event>)
    requires ModeThenWindow(a) && ModeThenWindow(b)
    ensures ModeThenWindow(a + b)
  {
    forall i | 0 <= i < |a + b| && (a + b)[i].SetDisplayMode?
      ensures i + 1 < |a + b| && (a + b)[i + 1] == OpenFullScreenWindow
    {
      if i < |a| {
        assert a[i].SetDisplayMode?;
      } else {
        assert b[i - |a|].SetDisplayMode?;
      }
    }
  }

  /** In every trace the mode switch and the new window come together. */
  lemma {:induction false} RunModeThenWindow(cfg: Config, st: State, lines: seq<Line>)
    ensures ModeThenWindow(Run(cfg, st, lines).events)
    decreases |lines|
  {
    if lines != [] {
      var s := Step(cfg, st, lines[0]);
      assert ModeThenWindow(s.events);
      if s.failure.None? {
        RunModeThenWindow(cfg, s.state, lines[1..]);
        ModeThenWindowAppend(s.events, Run(cfg, s.state, lines[1..]).events);
      }
    }
  }

  // ---------------------------------------------------------------------------
  // Graphics context

  predicate IsPaint(e: Event) {
    e.ClearToBlack? || e.DrawImage?
  }

  /** Every paint is preceded by an open window, unless one was open from the start. */
  predicate PaintsAfterWindow(events: seq<Event>, hadWindow: bool) {
    forall i :: 0 <= i < |events| && IsPaint(events[i]) ==> hadWindow || OpenFullScreenWindow in events[..i]
  }

  lemma PaintsAfterWindowAppend(a: seq<Event>, b: seq<Event>, had: bool)
    requires PaintsAfterWindow(a, had)
    requires PaintsAfterWindow(b, had || OpenFullScreenWindow in a)
    ensures PaintsAfterWindow(a + b, had)
  {
    forall i | 0 <= i < |a + b| && IsPaint((a + b)[i])
      ensures had || OpenFullScreenWindow in (a + b)[..i]
    {
      if i < |a| {
        assert (a + b)[..i] == a[..i];
      } else {
        assert IsPaint(b[i - |a|]);
        assert (a + b)[..i] == a + b[..i - |a|];
      }
    }
  }

  /**
   * The graphics context exists after a run exactly when it existed before or
   * the run opened a window, and nothing is painted before a window exists.
   */
  lemma {:induction false} GraphicsTracksWindows(cfg: Config, st: State, lines: seq<Line>)
    ensures var r := Run(cfg, st, lines);
      && (r.state.hasGraphics <==> st.hasGraphics || OpenFullScreenWindow in r.events)
      && PaintsAfterWindow(r.events, st.hasGraphics)
    decreases |lines|
  {
    if lines != [] {
      var s := Step(cfg, st, lines[0]);
      assert s.state.hasGraphics <==> st.hasGraphics || OpenFullScreenWindow in s.events;
      assert PaintsAfterWindow(s.events, st.hasGraphics) by {
        forall i | 0 <= i < |s.events| && IsPaint(s.events[i])
          ensures st.hasGraphics || OpenFullScreenWindow in s.events[..i]
        {
          if !st.hasGraphics {
            assert s.events[0] == OpenFullScreenWindow;
            assert s.events[..i][0] == OpenFullScreenWindow;
          }
        }
      }
      if s.failure.None? {
        var r := Run(cfg, s.state, lines[1..]);
        GraphicsTracksWindows(cfg, s.state, lines[1..]);
        PaintsAfterWindowAppend(s.events, r.events, st.hasGraphics);
      }
    }
  }

  // ---------------------------------------------------------------------------
  // The printer's serial stream

  /** What the printer receives: the writes and separators of a trace, in order. */
  function Printed(events: seq<Event>): seq<Event>
    decreases |events|
  {
    if events == [] then []
    else if events[0].Write? || events[0].WriteLineSeparator? then [events[0]] + Printed(events[1..])
    else Printed(events[1..])
  }

  lemma {:induction false} PrintedAppend(a: seq<Event>, b: seq<Event>)
    ensures Printed(a + b) == Printed(a) + Printed(b)
    decreases |a|
  {
    if a == [] {
      assert a + b == b;
    } else {
      assert (a + b)[1..] == a[1..] + b;
      PrintedAppend(a[1..], b);
    }
  }

  /** Reference definition: every raw G-code line, verbatim, with the separator after it when configured. */
  function Forwarded(cfg: Config, lines: seq<Line>): seq<Event>
    decreases |lines|
  {
    if lines == [] then []
    else (if lines[0].directive.Gcode? then [Write(lines[0].text)] + Separator(cfg) else []) + Forwarded(cfg, lines[1..])
  }

  lemma {:induction false} NothingPrinted(events: seq<Event>)
    requires forall i :: 0 <= i < |events| ==> !events[i].Write? && !events[i].WriteLineSeparator?
    ensures Printed(events) == []
    decreases |events|
  {
    if events != [] {
      NothingPrinted(events[1..]);
    }
  }

  lemma StepPrinted(cfg: Config, st: State, line: Line)
    ensures Printed(Step(cfg, st, line).events) ==
      if Step(cfg, st, line).failure.None? && line.directive.Gcode? then [Write(line.text)] + Separator(cfg) else []
  {
    var ev := Step(cfg, st, line).events;
    if line.directive.Gcode? {
      PrintedAppend([Write(line.text)], Separator(cfg));
      assert [Write(line.text)][1..] == [];
      if cfg.useEols {
        assert Separator(cfg)[1..] == [];
      }
    } else {
      NothingPrinted(ev);
    }
  }

  /**
   * The printer receives exactly the raw G-code lines that the loop reached, in
   * order and verbatim, each followed by the separator when configured; no
   * directive line ever reaches it.
   */
  lemma {:induction false} SerialStreamIsRawLines(cfg: Config, st: State, lines: seq<Line>)
    ensures var r := Run(cfg, st, lines);
      Printed(r.events) == Forwarded(cfg, lines[..Reached(r, lines)])
    decreases |lines|
  {
    var r := Run(cfg, st, lines);
    if lines == [] {
    } else {
      var s := Step(cfg, st, lines[0]);
      StepPrinted(cfg, st, lines[0]);
      if s.failure.Some? {
        assert Reached(r, lines) == 0;
        assert lines[..0] == [];
      } else {
        var rest := Run(cfg, s.state, lines[1..]);
        SerialStreamIsRawLines(cfg, s.state, lines[1..]);
        PrintedAppend(s.events, rest.events);
        var m := Reached(rest, lines[1..]);
        assert Reached(r, lines) == m + 1;
        assert lines[..m + 1][0] == lines[0];
        assert lines[..m + 1][1..] == lines[1..][..m];
      }
    }
  }

  // ---------------------------------------------------------------------------
  // Delays

  /** A delay directive only sleeps: no other effect and no change of state. */
  lemma DelayOnlySleeps(cfg: Config, st: State, line: Line, ms: nat)
    requires line.directive == Delay(ms)
    ensures Step(cfg, st, line).state == st
    ensures Step(cfg, st, line).events == if ms <= MaxInt then [Sleep(ms)] else []
    ensures Step(cfg, st, line).failure.Some? <==> ms > MaxInt
  {
  }

  /**
   * A slice-count or pixel-offset directive is silent: it has no effect on the
   * printer, the clock or the screen, and fails exactly when `parseInt`
   * rejects its number.
   */
  lemma SettingIsSilent(cfg: Config, st: State, line: Line)
    requires line.directive.SliceCount? || line.directive.PixelOffset?
    ensures Step(cfg, st, line).events == []
    ensures Step(cfg, st, line).failure.Some? <==>
      (if line.directive.SliceCount? then line.directive.count else line.directive.pixels) > MaxInt
  {
  }

  /**
   * A blank slice with a known count clears the screen to black, after opening
   * a window only if none was open, never fails, and leaves a graphics context.
   */
  lemma BlankClears(cfg: Config, st: State, line: Line)
    requires line.directive == BlankSlice && st.sliceCount.Some?
    ensures Step(cfg, st, line) == StepResult(st.(hasGraphics := true), WindowIfNone(st) + [ClearToBlack], None)
  {
  }

  /**
   * Over a run: a blank slice after a slice-count line has cleared the screen,
   * with a window first only if none was open yet.
   */
  lemma BlankClearsInRun(cfg: Config, st: State, lines: seq<Line>, k: nat)
    requires k < |lines| && lines[k].directive == BlankSlice
    requires Run(cfg, st, lines[..k]).stop.None?
    requires Latest(lines[..k], CountSlot, st.sliceCount).Some?
    ensures var before := Run(cfg, st, lines[..k]);
      && Run(cfg, st, lines[..k + 1]).stop.None?
      && Run(cfg, st, lines[..k + 1]).events == before.events + WindowIfNone(before.state) + [ClearToBlack]
  {
    var pre := lines[..k];
    assert lines[..k + 1] == pre + [lines[k]];
    RunAppend(cfg, st, pre, [lines[k]]);
    LastWriteWins(cfg, st, pre, CountSlot);
    assert [lines[k]][1..] == [];
  }
}
