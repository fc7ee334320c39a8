/**
 * The playback loop as the driver runs it: the loop's variables live in one
 * object, the two-slot `Integer[]` arrays stay arrays that the directives write
 * into, and every effect is appended to `trace`.  Each method is proved to do
 * what the `Playback` functions say.
 */
module Driver {
  import opened Wrappers
  import opened Text
  import opened Directives
  import opened Entries
  import opened Playback

  class Player {
    /** Base name of the archive, the EOL flag and the screen's ability to change mode. */
    const config: Config
    /** `sliceCount`: None until a slice-count directive is read. */
    var sliceCount: Option<nat>
    /** `xyResolutionFound`: slot 0 for X, slot 1 for Y. */
    var resolution: array<Option<nat>>
    /** `xyPixelOffsetFound`: slot 0 for X, slot 1 for Y. */
    var pixelOffset: array<Option<nat>>
    /** Whether `graphicsContext` is set. */
    var hasGraphics: bool
    /** Every effect so far, in order. */
    var trace: seq<Event>

    ghost predicate Valid()
      reads this
    {
      resolution.Length == 2 && pixelOffset.Length == 2 && resolution != pixelOffset
    }

    /** The loop's variables as a `Playback.State`. */
    function Snapshot(): State
      reads this, resolution, pixelOffset
      requires Valid()
    {
      State(sliceCount, resolution[0], resolution[1], pixelOffset[0], pixelOffset[1], hasGraphics)
    }

    constructor (cfg: Config)
      ensures Valid() && fresh(resolution) && fresh(pixelOffset)
      ensures config == cfg && Snapshot() == Start && trace == []
    {
      config := cfg;
      sliceCount := None;
      resolution := new Option<nat>[2](_ => None);
      pixelOffset := new Option<nat>[2](_ => None);
      hasGraphics := false;
      trace := [];
    }

    /** The array slot a directive's axis names: `toUpperCase().equals("X")` is slot 0. */
    static function SlotOf(a: Axis): (k: nat)
      ensures k < 2 && (k == 0 <==> a == X)
    {
      if a == X then 0 else 1
    }

    /** One pass of the loop body on the line `text`. */
    method Feed(text: string) returns (failure: Option<Failure>)
      requires Valid()
      modifies this, resolution, pixelOffset
      ensures Valid() && resolution == old(resolution) && pixelOffset == old(pixelOffset)
      ensures var s := Step(config, old(Snapshot()), Line(text, Classify(text)));
        Snapshot() == s.state && trace == old(trace) + s.events && failure == s.failure
    {
      var d := Classify(text);
      match d {
        case ShowSlice(_) =>
          failure := SliceBranch(d);
        case BlankSlice =>
          failure := SliceBranch(d);
        case Delay(ms) =>
          if ms > MaxInt {
            return Some(NumberFormat);
          }
          trace := trace + [Sleep(ms)];
          failure := None;
        case SliceCount(n) =>
          if n > MaxInt {
            return Some(NumberFormat);
          }
          sliceCount := Some(n);
          failure := None;
        case Resolution(a, px) =>
          if px > MaxInt {
            return Some(NumberFormat);
          }
          resolution[SlotOf(a)] := Some(px);
          if resolution[0].Some? && resolution[1].Some? && config.displayChangeSupported {
            trace := trace + [SetDisplayMode(resolution[0].value, resolution[1].value), OpenFullScreenWindow];
            hasGraphics := true;
          }
          failure := None;
        case PixelOffset(a, px) =>
          if px > MaxInt {
            return Some(NumberFormat);
          }
          pixelOffset[SlotOf(a)] := Some(px);
          failure := None;
        case Gcode =>
          trace := trace + [Write(text)];
          if config.useEols {
            trace := trace + [WriteLineSeparator];
          }
          failure := None;
      }
    }

    /** The slice branch: open a window if there is none, then clear or draw. */
    method SliceBranch(d: Directive) returns (failure: Option<Failure>)
      requires Valid() && (d.ShowSlice? || d.BlankSlice?)
      modifies this
      ensures Valid() && resolution == old(resolution) && pixelOffset == old(pixelOffset)
      ensures var s := SliceStep(config, old(Snapshot()), d);
        Snapshot() == s.state && trace == old(trace) + s.events && failure == s.failure
    {
      if sliceCount.None? {
        return Some(MissingSliceCount);
      }
      if !hasGraphics {
        trace := trace + [OpenFullScreenWindow];
        hasGraphics := true;
      }
      if d.BlankSlice? {
        trace := trace + [ClearToBlack];
        return None;
      }
      if d.index > MaxInt {
        return Some(NumberFormat);
      }
      var x := if pixelOffset[0].Some? then pixelOffset[0].value else 0;
      var y := if pixelOffset[1].Some? then pixelOffset[1].value else 0;
      trace := trace + [DrawImage(ImageRef(config.baseName, sliceCount.value, d.index), x, y)];
      failure := None;
    }

    /** The whole loop over the lines of the G-code entry, up to the end or the first failure. */
    method Play(texts: seq<string>) returns (stop: Option<Stop>)
      requires Valid()
      modifies this, resolution, pixelOffset
      ensures Valid() && resolution == old(resolution) && pixelOffset == old(pixelOffset)
      ensures var r := Run(config, old(Snapshot()), ReadLines(texts));
        Snapshot() == r.state && trace == old(trace) + r.events && stop == r.stop
    {
      ghost var st0 := Snapshot();
      ghost var trace0 := trace;
      ghost var lines := ReadLines(texts);
      var i := 0;
      assert lines[..0] == [];
      while i < |texts|
        invariant 0 <= i <= |texts|
        invariant Valid() && resolution == old(resolution) && pixelOffset == old(pixelOffset)
        invariant Run(config, st0, lines[..i]).stop.None?
        invariant Snapshot() == Run(config, st0, lines[..i]).state
        invariant trace == trace0 + Run(config, st0, lines[..i]).events
      {
        assert lines[i] == Line(texts[i], Classify(texts[i]));
        RunSnoc(config, st0, lines, i);
        ghost var before := Run(config, st0, lines[..i]);
        ghost var prev := trace;
        var failure := Feed(texts[i]);
        ghost var s := Step(config, before.state, lines[i]);
        assert trace == prev + s.events;
        EventsAssoc(trace0, before.events, s.events);
        if failure.Some? {
          return Some(Stop(i, failure.value));
        }
        i := i + 1;
      }
      assert lines[..i] == lines;
      stop := None;
    }
  }
}
