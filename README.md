# Hybrid G-code printer driver — a verified model

`HybridGCodePrinterDriver` drives a hybrid printer. It picks a serial port for
the printer (`findCommPort`). Then it opens a slice archive and reads its G-code
entry line by line. Five case-insensitive regular expressions turn some lines
into directives:

- a slice to show or blank out;
- a delay;
- the number of slices;
- the X or Y display resolution;
- the X or Y pixel offset.

Every other line is raw G-code and goes to the printer's serial stream
verbatim. A numeric slice directive draws the PNG entry `B.slice/B<index>.png`
at the pixel offsets inside a full-screen window; a blank slice clears that
window to black and draws no image. The index is zero-padded to one more digit
than the slice count has.

The model, module by module:

- `Text`: Java's `\s` and `\d`, ASCII case folding, `Integer.parseInt` on digit
  runs, `Integer.toString`, and `String.format("%0<w>d", n)` for `n >= 0` in a
  locale with ASCII digits.
- `Grammar`: the regular expressions as token patterns. A greedy matcher returns
  the groups. It is proved to decide exactly the language of the pattern,
  groups included, whenever every greedy run is followed by text that cannot
  extend it.
- `Directives`: the five patterns and `Classify`, which tries them in the
  loop's order. `Classify` is proved exact against a reference: the line
  spells the directive in the pattern's language.
- `Entries`: the archive base name, the G-code entry and the image entry names.
- `Playback`: one pass of the loop body (`Step`) and the whole loop (`Run`)
  as functions from the classified lines to a trace of effects. The effects are
  printer writes, sleeps, display-mode changes, full-screen windows, clears
  and draws. The loop's properties are lemmas about `Run`.
- `Driver`: the loop as the driver runs it. The class `Player` keeps the
  loop's variables as fields, and the two `Integer[2]` arrays stay arrays.
  Its methods are proved to agree with `Playback.Step` and `Playback.Run`.
- `CommPort`: the port choice over the sequence of ports the serial library
  reports, with a finding and its correction.

Effects are data. The serial stream, the clock, the screen and the archive are
not called; each effect the loop would cause is appended to a trace.

The slice index is padded to the width of the slice count's decimal spelling
plus one, `(sliceCount + "").length() + 1`, at line 144. So eleven slices give
`B003.png` (`Entries.ElevenSlicesExample`).

## Model

| member | source | states |
|---|---|---|
| Text.IsSpace | src/com/practice/serial/HybridGCodePrinterDriver.java:114-118 | defined by its body: Java's `\s` without Unicode classes, space and tab through carriage return; see Text.FoldKeepsClass |
| Text.IsDigit | src/com/practice/serial/HybridGCodePrinterDriver.java:114-118 | defined by its body: Java's `\d` without Unicode classes, `0` to `9`; see Text.Decimal |
| Text.Fold | src/com/practice/serial/HybridGCodePrinterDriver.java:114-118 | defined by its body: CASE_INSENSITIVE without UNICODE_CASE folds only A to Z; see Text.FoldKeepsClass and Directives.BlankUpper |
| Text.DigitsValue | src/com/practice/serial/HybridGCodePrinterDriver.java:143-190 | defined by its body: the value `Integer.parseInt` reads from a digit run, which throws above the constant `MaxInt` (`Integer.MAX_VALUE`); see Text.Decimal and Playback.DelayOnlySleeps |
| Text.UpperString | src/com/practice/serial/HybridGCodePrinterDriver.java:131 | `toUpperCase` on captured text keeps the length, equals the text up to case at every position, and leaves no lower-case ASCII letter |
| Text.Decimal | src/com/practice/serial/HybridGCodePrinterDriver.java:144 | `sliceCount + ""` is a non-empty digit run that reads back as the count and has no leading zero unless the count is 0 |
| Text.ZeroPad | src/com/practice/serial/HybridGCodePrinterDriver.java:144 | `%0<w>d` gives a digit run that reads back as the index, exactly `max(w, digits of index)` long, so it is never truncated |
| Grammar.MatchFrom | src/com/practice/serial/HybridGCodePrinterDriver.java:114-118 | `matcher.matches()` with its groups, computed by greedy runs; its groups fit the pattern's capturing tokens; see Grammar.MatchDecides |
| Grammar.MatchSound | src/com/practice/serial/HybridGCodePrinterDriver.java:114-118 | whatever the greedy matcher accepts is in the regular language of the pattern, with the groups it reports |
| Grammar.MatchComplete | src/com/practice/serial/HybridGCodePrinterDriver.java:114-118 | every way the language splits the line into token pieces is found by the matcher, with the same groups, when the pattern is well separated |
| Grammar.MatchDecides | src/com/practice/serial/HybridGCodePrinterDriver.java:114-118 | `matcher.matches()` with groups `g` holds if and only if the line is in the pattern's language with groups `g` |
| Grammar.DivergeExclusive | src/com/practice/serial/HybridGCodePrinterDriver.java:114-118 | two patterns that agree token for token until literals whose first letters differ up to case never both match one line from the same position |
| Directives.PatternsWellSeparated | src/com/practice/serial/HybridGCodePrinterDriver.java:114-118 | in each of the five expressions, every whitespace run, digit run and slice argument is followed by text that cannot extend it; the constants `SlicePattern`, `DelayPattern`, `SliceCountPattern`, `ResolutionPattern` and `PixelOffsetPattern` spell the five expressions token by token |
| Directives.PatternGroups | src/com/practice/serial/HybridGCodePrinterDriver.java:114-118 | the capturing groups are a digit run or `blank` for slices, a digit run for delays and counts, and an axis letter then a digit run for resolutions and offsets |
| Directives.PatternsExclusive | src/com/practice/serial/HybridGCodePrinterDriver.java:114-118 | no line matches two of the five expressions, so the order the loop tries them in never decides the outcome |
| Directives.BlankUpper | src/com/practice/serial/HybridGCodePrinterDriver.java:131 | a slice group upper-cases to `BLANK` if and only if it is `blank` in some case |
| Directives.AxisOfName | src/com/practice/serial/HybridGCodePrinterDriver.java:169 | a group naming axis `x`/`X` picks slot X and `y`/`Y` picks slot Y |
| Directives.SliceArgument | src/com/practice/serial/HybridGCodePrinterDriver.java:131-146 | defined by its body: `blank` in any case is a blank slice, a digit run shows that slice; see Directives.BlankUpper |
| Directives.AxisArgument | src/com/practice/serial/HybridGCodePrinterDriver.java:169-172 | defined by its body: an upper-cased `X` names axis X, anything else Y; see Directives.AxisOfName |
| Directives.Classify | src/com/practice/serial/HybridGCodePrinterDriver.java:114-198 | defined by its body: the five expressions tried in the loop's order; see Directives.ClassifyMeaning and Directives.ClassifyDispatch |
| Directives.ClassifyDispatch | src/com/practice/serial/HybridGCodePrinterDriver.java:119-198 | each kind of directive is returned if and only if its expression matches, and raw G-code if and only if none matches |
| Directives.ClassifySpells | src/com/practice/serial/HybridGCodePrinterDriver.java:114-198 | whatever the classifier returns, the line spells that directive in its expression's language, with the parsed value of the group |
| Directives.SpellsClassify | src/com/practice/serial/HybridGCodePrinterDriver.java:114-198 | a line that spells a directive is classified as that directive |
| Directives.ClassifyMeaning | src/com/practice/serial/HybridGCodePrinterDriver.java:114-198 | a line classifies as `d` if and only if it spells `d` |
| Directives.SliceExample | src/com/practice/serial/HybridGCodePrinterDriver.java:114 | `; <Slice> 3` shows slice 3 |
| Directives.BlankExample | src/com/practice/serial/HybridGCodePrinterDriver.java:114 | `; <SLICE> Blank` is a blank slice: keywords and `blank` match in any case |
| Directives.NonDigitDelayExample | src/com/practice/serial/HybridGCodePrinterDriver.java:115 | `; <Delay> abc` is no directive and goes to the printer as G-code |
| Directives.GcodeExample | src/com/practice/serial/HybridGCodePrinterDriver.java:195 | `G1 X10` matches no expression |
| Entries.IndexOf | src/com/practice/serial/HybridGCodePrinterDriver.java:109 | `indexOf('.')` is the first position holding a dot, and None exactly when there is no dot |
| Entries.BaseName | src/com/practice/serial/HybridGCodePrinterDriver.java:109 | the base name is the dot-free text before the first dot; there is none exactly when the name has no dot |
| Entries.GcodeEntry | src/com/practice/serial/HybridGCodePrinterDriver.java:111 | defined by its body: the folder, the base name and `.gcode`; see Entries.ImageEntryIsNotGcode |
| Entries.PadWidth | src/com/practice/serial/HybridGCodePrinterDriver.java:144 | defined by its body: `(sliceCount + "").length() + 1`; see Entries.ElevenSlicesExample |
| Entries.ImageEntry | src/com/practice/serial/HybridGCodePrinterDriver.java:144 | defined by its body: folder, base, zero-padded index and `.png`; see Entries.ImageEntryParts and Entries.ImageEntryInjective |
| Entries.ImageEntryParts | src/com/practice/serial/HybridGCodePrinterDriver.java:144 | an image entry is folder and base, then a digit run reading as the index, as long as the count's digits plus one or the index's digits if longer, then `.png` |
| Entries.ImageEntryInjective | src/com/practice/serial/HybridGCodePrinterDriver.java:144 | two slices of one archive never share an image entry |
| Entries.ImageEntryIsNotGcode | src/com/practice/serial/HybridGCodePrinterDriver.java:111 | no image entry is the G-code entry |
| Entries.ElevenSlicesExample | src/com/practice/serial/HybridGCodePrinterDriver.java:144 | with 11 slices, slice 3 of `B` is `B.slice/B003.png` |
| Entries.NoTruncationExample | src/com/practice/serial/HybridGCodePrinterDriver.java:144 | with 9 slices, slice 123 of `B` is `B.slice/B123.png` |
| Playback.ReadLines | src/com/practice/serial/HybridGCodePrinterDriver.java:119 | the lines keep the order and text of the entry, and each carries a directive its text spells in that directive's expression, with the parsed group values |
| Playback.ClassifyEverySpells | src/com/practice/serial/HybridGCodePrinterDriver.java:114-198 | every line of the entry spells the directive the classifier gives it |
| Playback.OrZero | src/com/practice/serial/HybridGCodePrinterDriver.java:146 | defined by its body: a null offset slot draws at 0; see Playback.DrawUsesLatestSettings |
| Playback.WindowIfNone | src/com/practice/serial/HybridGCodePrinterDriver.java:126-130 | defined by its body: a window is opened exactly when no graphics context exists; see Playback.GraphicsTracksWindows and Playback.BlankClears |
| Playback.Separator | src/com/practice/serial/HybridGCodePrinterDriver.java:196-197 | defined by its body: the line separator is written only when EOLs are on; see Playback.StepPrinted and Playback.SerialStreamIsRawLines |
| Playback.SliceStep | src/com/practice/serial/HybridGCodePrinterDriver.java:120-149 | defined by its body: no count fails, a blank clears, a number past `Integer.MAX_VALUE` fails, otherwise a draw at the offsets; see Playback.DrawUsesLatestSettings and Playback.BlankClears |
| Playback.ResolutionStep | src/com/practice/serial/HybridGCodePrinterDriver.java:167-182 | defined by its body: store the slot, then change mode and open a window once both slots are set; see Playback.ResolutionUsesLatest |
| Playback.Step | src/com/practice/serial/HybridGCodePrinterDriver.java:120-198 | defined by its body: one pass of the loop body per directive; see Playback.StepSetting, Playback.StepPrinted, Playback.DelayOnlySleeps and Playback.SettingIsSilent |
| Playback.Run | src/com/practice/serial/HybridGCodePrinterDriver.java:119-201 | defined by its body: the steps in order up to the first failure; see Playback.RunAppend and Playback.StopIsFirstFailure |
| Playback.RunAppend | src/com/practice/serial/HybridGCodePrinterDriver.java:119-201 | the loop over `a + b` is the loop over `a`, then, unless `a` stopped, the loop over `b` from the state `a` left |
| Playback.NothingAfterStop | src/com/practice/serial/HybridGCodePrinterDriver.java:119-201 | once a line's exception ends the loop, no later line has any effect |
| Playback.StopIsFirstFailure | src/com/practice/serial/HybridGCodePrinterDriver.java:119-201 | a run that stops, stops at a line whose step fails after every earlier line ran cleanly, and the run's result is that prefix followed by that failing step |
| Playback.RunSnoc | src/com/practice/serial/HybridGCodePrinterDriver.java:119-201 | one more line after a clean prefix adds its step's effects and stops there exactly when that step fails |
| Playback.StepSetting | src/com/practice/serial/HybridGCodePrinterDriver.java:161-193 | a clean step overwrites exactly the setting slot its directive names and leaves the others |
| Playback.LastWriteWins | src/com/practice/serial/HybridGCodePrinterDriver.java:161-193 | after a clean run every setting holds the value of the last line that wrote it, or its value before the run |
| Playback.NoCountLine | src/com/practice/serial/HybridGCodePrinterDriver.java:161-165 | without a slice-count line, the latest count is the initial one |
| Playback.SliceBeforeCountFails | src/com/practice/serial/HybridGCodePrinterDriver.java:122-124 | a slice directive before any slice count stops the loop at that line, with no effect of its own |
| Playback.CountKnownSliceProceeds | src/com/practice/serial/HybridGCodePrinterDriver.java:122-124 | once a count is known, zero included, no step fails for want of one |
| Playback.DrawUsesLatestSettings | src/com/practice/serial/HybridGCodePrinterDriver.java:126-146 | a clean slice draws the entry named by the latest count at the latest offsets (0 for an unset axis), after a window only if none was open |
| Playback.ResolutionUsesLatest | src/com/practice/serial/HybridGCodePrinterDriver.java:167-181 | a clean resolution directive sets the mode to the latest X and Y and opens a window, exactly when both are known and the screen can change mode |
| Playback.RunModeThenWindow | src/com/practice/serial/HybridGCodePrinterDriver.java:175-180 | every display-mode change is followed at once by a new full-screen window |
| Playback.GraphicsTracksWindows | src/com/practice/serial/HybridGCodePrinterDriver.java:126-130 | a graphics context exists after a run exactly when it existed before or a window was opened, and nothing is painted before a window exists |
| Playback.StepPrinted | src/com/practice/serial/HybridGCodePrinterDriver.java:195-198 | one step sends the printer the line and its separator if the line is raw G-code, and nothing otherwise |
| Playback.SerialStreamIsRawLines | src/com/practice/serial/HybridGCodePrinterDriver.java:195-198 | the printer receives exactly the raw G-code lines the loop reached, verbatim and in order, each followed by the separator when configured |
| Playback.DelayOnlySleeps | src/com/practice/serial/HybridGCodePrinterDriver.java:151-158 | a delay sleeps its milliseconds and changes nothing else; it fails exactly when `parseInt` rejects the number |
| Playback.SettingIsSilent | src/com/practice/serial/HybridGCodePrinterDriver.java:161-193 | a slice-count or pixel-offset directive has no effect on printer, clock or screen, and fails exactly when `parseInt` rejects its number |
| Playback.BlankClears | src/com/practice/serial/HybridGCodePrinterDriver.java:126-141 | a blank slice with a known count clears to black after a window only if none was open, and never fails |
| Playback.BlankClearsInRun | src/com/practice/serial/HybridGCodePrinterDriver.java:122-141 | in a run, a blank slice after a count line adds exactly a window if none was open and a clear to black |
| Driver.Player.constructor | src/com/practice/serial/HybridGCodePrinterDriver.java:105-113 | every variable starts null: no count, empty arrays of length two, no graphics context, empty trace |
| Driver.Player.SlotOf | src/com/practice/serial/HybridGCodePrinterDriver.java:169-172 | axis X writes slot 0 and anything else slot 1 |
| Driver.Player.Feed | src/com/practice/serial/HybridGCodePrinterDriver.java:120-198 | one pass of the loop body updates the fields and arrays to the state `Step` gives, appends its effects, and reports its failure |
| Driver.Player.SliceBranch | src/com/practice/serial/HybridGCodePrinterDriver.java:120-149 | the slice branch agrees with `SliceStep` on state, effects and failure |
| Driver.Player.Play | src/com/practice/serial/HybridGCodePrinterDriver.java:119-201 | the loop over the entry's lines ends in the state, trace and stop that `Run` gives for the classified lines |
| CommPort.SelectPort | src/com/practice/serial/HybridGCodePrinterDriver.java:33-63 | defined by its body: the suggested port whenever it exists, else the scan's pick; see CommPort.FindCommPort and CommPort.NonSerialSuggestionReturned |
| CommPort.SelectSerialPort | src/com/practice/serial/HybridGCodePrinterDriver.java:38-39 | defined by its body: the corrected pick, a serial suggestion or else the scan's pick; see CommPort.SelectSerialPortIsSerial |
| CommPort.Suggested | src/com/practice/serial/HybridGCodePrinterDriver.java:35-37 | defined by its body: no suggestion gives none, otherwise the lookup of the suggested name; see CommPort.SerialSuggestionWins and CommPort.NonSerialSuggestionReturned |
| CommPort.Lookup | src/com/practice/serial/HybridGCodePrinterDriver.java:37 | `getPortIdentifier` returns a port of that name, and throws exactly when none has it |
| CommPort.FirstFreeSerial | src/com/practice/serial/HybridGCodePrinterDriver.java:48-61 | the scan's pick is a serial unowned port with none before it, and there is none exactly when no port is serial and unowned |
| CommPort.FirstFreeUnique | src/com/practice/serial/HybridGCodePrinterDriver.java:48-61 | a free serial port with no free serial port before it is the scan's pick |
| CommPort.ScanPorts | src/com/practice/serial/HybridGCodePrinterDriver.java:48-61 | the enumeration loop keeps a filled slot and otherwise fills it with the first free serial port |
| CommPort.FindCommPort | src/com/practice/serial/HybridGCodePrinterDriver.java:33-64 | `findCommPort` returns the selection as written: the suggested port whenever it exists, else the scan's pick |
| CommPort.FindSerialCommPort | src/com/practice/serial/HybridGCodePrinterDriver.java:38-39 | the corrected `findCommPort` drops a non-serial suggestion before the scan |
| CommPort.SerialSuggestionWins | src/com/practice/serial/HybridGCodePrinterDriver.java:35-42 | a suggestion naming an existing serial port is returned, owned or not |
| CommPort.ScanFindsFirstFree | src/com/practice/serial/HybridGCodePrinterDriver.java:48-63 | without a usable suggestion the result is the first free serial port, and there is one exactly when such a port exists |
| CommPort.NonSerialSuggestionReturned | src/com/practice/serial/HybridGCodePrinterDriver.java:35-63 | as written, a non-serial suggestion is returned although a free serial port exists |
| CommPort.SelectSerialPortIsSerial | src/com/practice/serial/HybridGCodePrinterDriver.java:38-39 | the corrected selection only returns serial ports, returns none exactly when there is no serial suggestion and no free serial port, and agrees with the written one whenever the suggestion is missing or serial |

## Left out

- Opening, configuring and closing the serial port: library calls outside the playback core.
- The process exits and console messages of `main`: exit 1 when no port is found (lines 77-79), the owner comparison at line 87 and exit 2 for a port in use (line 90), and exit 3 for bad port parameters (line 93). They end the process before playback and lie outside the playback core.
- The physical effects behind each event: AWT windows, display modes, `clearRect` sizes, `ImageIO` decoding and `Graphics2D` drawing. Each one is recorded as an event in the trace instead.
- Reading the ZIP archive: the G-code entry is given as its sequence of lines. `readLine`'s splitting of the bytes into lines is not modelled.
- An image entry that is missing or cannot be decoded. So are the `flush` and `close` of the previous image on a blank slice.
- Real sleeping and `InterruptedException`: a delay is a `Sleep` event.
- `IOException` and `FileNotFoundException` while reading, and the `finally` cleanup.
- Printer and screen calls are assumed to succeed. In the source, a printer write that throws `IOException` (lines 195-197) is caught at line 204 and ends the loop, and `setDisplayMode` (line 177) throws `IllegalArgumentException` for a mode the device does not list, which ends playback too. The model's `Write` and `SetDisplayMode` events never fail.
- Console output, and the hard-coded archive path, port name and port speed.
- `getBytes()` encoding: a raw line is written as its characters.
- `device.isDisplayChangeSupported()` is one flag for the whole run. The source asks again on every resolution line (line 175), and on some platforms the answer depends on whether a full-screen window exists yet; the model does not capture that change.
- Text.ZeroPad: the default locale is assumed to use the ASCII digits `0`-`9`. `String.format` at line 144 uses the locale's own digits, so under a locale such as Thai digits the entry name differs, while `sliceCount + ""` stays ASCII.
- Playback.Step: an `Integer.parseInt` overflow is modelled as a `NumberFormat` failure at the point where the code parses. The Java exception type is not distinguished further.
- Entries.BaseName: no example on a literal file name is proved. The lemma on all file names stands in for it.

## Findings

| source | as written | input that shows it | evidently intended | confidence | as-written member | corrected member |
|---|---|---|---|---|---|---|
| src/com/practice/serial/HybridGCodePrinterDriver.java:35-63 | a suggested port that exists but is not serial stays in `foundIdentifier`; the scan only fills an empty slot, so that port is returned | ports `[LPT1 (parallel), COM1 (serial, free)]` with suggestion `LPT1`: `LPT1` is returned | the message at line 39 announces a search instead: fall back to the first free serial port (`COM1`) | high, not executed | CommPort.NonSerialSuggestionReturned | CommPort.SelectSerialPortIsSerial |
