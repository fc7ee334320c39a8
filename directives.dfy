/**
 * The driver's five directive patterns and the classification of one line of
 * the G-code entry into a directive or raw G-code: the patterns compiled at
 * lines 114-118 of the driver, tried in the order of the loop at 119-198.
 */
module Directives {
  import opened Wrappers
  import opened Text
  import opened Grammar

  /** `\s*;\s*<\s*Slice\s*>\s*(\d+|blank)\s*` */
  const SlicePattern: Pattern :=
    Then(Space, Then(Word(";"), Then(Space, Then(Word("<"),
    Then(Space, Then(Word("Slice"), Then(Space, Then(Word(">"),
    Then(Space, Then(DigitsOrBlank, Then(Space, End)))))))))))

  /** `\s*;\s*<\s*Delay\s*>\s*(\d+)\s*` */
  const DelayPattern: Pattern :=
    Then(Space, Then(Word(";"), Then(Space, Then(Word("<"),
    Then(Space, Then(Word("Delay"), Then(Space, Then(Word(">"),
    Then(Space, Then(Digits, Then(Space, End)))))))))))

  /** `\s*;\s*Number\s*of\s*Slices\s*=\s*(\d+)\s*` */
  const SliceCountPattern: Pattern :=
    Then(Space, Then(Word(";"), Then(Space, Then(Word("Number"),
    Then(Space, Then(Word("of"), Then(Space, Then(Word("Slices"),
    Then(Space, Then(Word("="), Then(Space, Then(Digits,
    Then(Space, End)))))))))))))

  /** `\s*;\s*\(\s*(X|Y)\s*Resolution\s*=\s*(\d+)\s*px\s*\)\s*` */
  const ResolutionPattern: Pattern :=
    Then(Space, Then(Word(";"), Then(Space, Then(Word("("),
    Then(Space, Then(XorY, Then(Space, Then(Word("Resolution"),
    Then(Space, Then(Word("="), Then(Space, Then(Digits,
    Then(Space, Then(Word("px"), Then(Space, Then(Word(")"),
    Then(Space, End)))))))))))))))))

  /** `\s*;\s*\(\s*(X|Y)\s*Pixel\s*Offset\s*=\s*(\d+)\s*px\s*\)\s*` */
  const PixelOffsetPattern: Pattern :=
    Then(Space, Then(Word(";"), Then(Space, Then(Word("("),
    Then(Space, Then(XorY, Then(Space, Then(Word("Pixel"),
    Then(Space, Then(Word("Offset"), Then(Space, Then(Word("="),
    Then(Space, Then(Digits, Then(Space, Then(Word("px"),
    Then(Space, Then(Word(")"), Then(Space, End)))))))))))))))))))

  lemma SliceShape()
    ensures WellSeparated(SlicePattern) && GroupTokens(SlicePattern) == [DigitsOrBlank]
  {
  }

  lemma DelayShape()
    ensures WellSeparated(DelayPattern) && GroupTokens(DelayPattern) == [Digits]
  {
  }

  lemma SliceCountShape()
    ensures WellSeparated(SliceCountPattern) && GroupTokens(SliceCountPattern) == [Digits]
  {
  }

  lemma ResolutionShape()
    ensures WellSeparated(ResolutionPattern) && GroupTokens(ResolutionPattern) == [XorY, Digits]
  {
    var r := ResolutionPattern.rest.rest.rest.rest.rest;
    assert WellSeparated(r.rest.rest.rest.rest.rest.rest.rest.rest);
    assert WellSeparated(r.rest.rest.rest.rest);
    assert WellSeparated(r);
    assert GroupTokens(r.rest) == [Digits];
    assert GroupTokens(r) == [XorY] + [Digits];
  }

  lemma PixelOffsetShape()
    ensures WellSeparated(PixelOffsetPattern) && GroupTokens(PixelOffsetPattern) == [XorY, Digits]
  {
    var o := PixelOffsetPattern.rest.rest.rest.rest.rest;
    assert WellSeparated(o.rest.rest.rest.rest.rest.rest.rest.rest);
    assert WellSeparated(o.rest.rest.rest.rest);
    assert WellSeparated(o);
    assert GroupTokens(o.rest) == [Digits];
    assert GroupTokens(o) == [XorY] + [Digits];
  }

  /** Every greedy run in the five patterns is followed by text that cannot extend it. */
  lemma PatternsWellSeparated()
    ensures WellSeparated(SlicePattern) && WellSeparated(DelayPattern) && WellSeparated(SliceCountPattern)
    ensures WellSeparated(ResolutionPattern) && WellSeparated(PixelOffsetPattern)
  {
    SliceShape();
    DelayShape();
    SliceCountShape();
    ResolutionShape();
    PixelOffsetShape();
  }

  /** Each pair of patterns parts at a literal: `<Slice`/`<Delay`, `<`/`Number`/`(`, `Resolution`/`Pixel`. */
  lemma PatternsDiverge()
    ensures Diverge(SlicePattern, DelayPattern) && Diverge(SlicePattern, SliceCountPattern)
    ensures Diverge(SlicePattern, ResolutionPattern) && Diverge(SlicePattern, PixelOffsetPattern)
    ensures Diverge(DelayPattern, SliceCountPattern) && Diverge(DelayPattern, ResolutionPattern)
    ensures Diverge(DelayPattern, PixelOffsetPattern) && Diverge(SliceCountPattern, ResolutionPattern)
    ensures Diverge(SliceCountPattern, PixelOffsetPattern) && Diverge(ResolutionPattern, PixelOffsetPattern)
  {
  }

  /** The capturing groups of the five patterns. */
  lemma PatternGroups()
    ensures GroupTokens(SlicePattern) == [DigitsOrBlank]
    ensures GroupTokens(DelayPattern) == [Digits] && GroupTokens(SliceCountPattern) == [Digits]
    ensures GroupTokens(ResolutionPattern) == [XorY, Digits] && GroupTokens(PixelOffsetPattern) == [XorY, Digits]
  {
    SliceShape();
    DelayShape();
    SliceCountShape();
    ResolutionShape();
    PixelOffsetShape();
  }

  datatype Axis = X | Y

  /** What one line of the G-code entry asks for. */
  datatype Directive =
    | ShowSlice(index: nat)
    | BlankSlice
    | Delay(ms: nat)
    | SliceCount(count: nat)
    | Resolution(axis: Axis, pixels: nat)
    | PixelOffset(axis: Axis, pixels: nat)
    | Gcode  // no pattern matches: the line is raw G-code

  /** Upper-casing tells the two alternatives of `(\d+|blank)` apart. */
  lemma BlankUpper(g: string)
    requires Accepts(DigitsOrBlank, g)
    ensures UpperString(g) == "BLANK" <==> FoldEq(g, "blank")
  {
    if FoldEq(g, "blank") {
      assert g[0] == 'b' || g[0] == 'B';
      assert g[1] == 'l' || g[1] == 'L';
      assert g[2] == 'a' || g[2] == 'A';
      assert g[3] == 'n' || g[3] == 'N';
      assert g[4] == 'k' || g[4] == 'K';
      assert UpperString(g) == "BLANK";
    } else if |g| > 0 {
      assert UpperString(g)[0] == g[0];
    }
  }

  /** `group(1).toUpperCase().equals("BLANK")` picks the blank branch; otherwise the group is a digit run. */
  function SliceArgument(g: string): Directive
    requires Accepts(DigitsOrBlank, g)
  {
    BlankUpper(g);
    if UpperString(g) == "BLANK" then BlankSlice else ShowSlice(DigitsValue(g))
  }

  /** `group(1).toUpperCase().equals("X")` picks slot 0; anything else is the Y slot. */
  function AxisArgument(g: string): Axis {
    if UpperString(g) == "X" then X else Y
  }

  /** Tries the patterns in the loop's order: slice, delay, slice count, resolution, pixel offset. */
  function Classify(line: string): Directive {
    PatternGroups();
    match MatchFrom(SlicePattern, line, 0)
    case Some(g) => SliceArgument(g[0])
    case None =>
      match MatchFrom(DelayPattern, line, 0)
      case Some(g) => Delay(DigitsValue(g[0]))
      case None =>
        match MatchFrom(SliceCountPattern, line, 0)
        case Some(g) => SliceCount(DigitsValue(g[0]))
        case None =>
          match MatchFrom(ResolutionPattern, line, 0)
          case Some(g) => Resolution(AxisArgument(g[0]), DigitsValue(g[1]))
          case None =>
            match MatchFrom(PixelOffsetPattern, line, 0)
            case Some(g) => PixelOffset(AxisArgument(g[0]), DigitsValue(g[1]))
            case None => Gcode
  }

  // ---------------------------------------------------------------------------
  // What the classifier means

  /** No two of the five patterns match the same line. */
  lemma PatternsExclusive(line: string)
    ensures Matches(SlicePattern, line) ==>
      !Matches(DelayPattern, line) && !Matches(SliceCountPattern, line) &&
      !Matches(ResolutionPattern, line) && !Matches(PixelOffsetPattern, line)
    ensures Matches(DelayPattern, line) ==>
      !Matches(SliceCountPattern, line) && !Matches(ResolutionPattern, line) && !Matches(PixelOffsetPattern, line)
    ensures Matches(SliceCountPattern, line) ==> !Matches(ResolutionPattern, line) && !Matches(PixelOffsetPattern, line)
    ensures Matches(ResolutionPattern, line) ==> !Matches(PixelOffsetPattern, line)
  {
    PatternsDiverge();
    DivergeExclusive(SlicePattern, DelayPattern, line, 0);
    DivergeExclusive(SlicePattern, SliceCountPattern, line, 0);
    DivergeExclusive(SlicePattern, ResolutionPattern, line, 0);
    DivergeExclusive(SlicePattern, PixelOffsetPattern, line, 0);
    DivergeExclusive(DelayPattern, SliceCountPattern, line, 0);
    DivergeExclusive(DelayPattern, ResolutionPattern, line, 0);
    DivergeExclusive(DelayPattern, PixelOffsetPattern, line, 0);
    DivergeExclusive(SliceCountPattern, ResolutionPattern, line, 0);
    DivergeExclusive(SliceCountPattern, PixelOffsetPattern, line, 0);
    DivergeExclusive(ResolutionPattern, PixelOffsetPattern, line, 0);
  }

  /**
   * The order in which the loop tries the patterns never matters: each kind of
   * directive comes out exactly when its own pattern matches, and raw G-code
   * exactly when none does.
   */
  lemma ClassifyDispatch(line: string)
    ensures (Classify(line).ShowSlice? || Classify(line).BlankSlice?) <==> Matches(SlicePattern, line)
    ensures Classify(line).Delay? <==> Matches(DelayPattern, line)
    ensures Classify(line).SliceCount? <==> Matches(SliceCountPattern, line)
    ensures Classify(line).Resolution? <==> Matches(ResolutionPattern, line)
    ensures Classify(line).PixelOffset? <==> Matches(PixelOffsetPattern, line)
    ensures Classify(line).Gcode? <==>
      !Matches(SlicePattern, line) && !Matches(DelayPattern, line) && !Matches(SliceCountPattern, line) &&
      !Matches(ResolutionPattern, line) && !Matches(PixelOffsetPattern, line)
  {
    PatternsExclusive(line);
  }

  predicate NamesAxis(g: string, a: Axis) {
    if a == X then g == "x" || g == "X" else g == "y" || g == "Y"
  }

  /**
   * `line` is a spelling of directive `d` in the languages of the five regular
   * expressions: the reference the classifier is proved against.
   */
  ghost predicate Spells(line: string, d: Directive) {
    match d
    case ShowSlice(n) => exists g :: Derives(SlicePattern, line, [g]) && AllDigits(g) && DigitsValue(g) == n
    case BlankSlice => exists g :: Derives(SlicePattern, line, [g]) && FoldEq(g, "blank")
    case Delay(ms) => exists g :: Derives(DelayPattern, line, [g]) && AllDigits(g) && DigitsValue(g) == ms
    case SliceCount(n) => exists g :: Derives(SliceCountPattern, line, [g]) && AllDigits(g) && DigitsValue(g) == n
    case Resolution(a, px) =>
      exists ax, g :: Derives(ResolutionPattern, line, [ax, g]) && NamesAxis(ax, a) && AllDigits(g) && DigitsValue(g) == px
    case PixelOffset(a, px) =>
      exists ax, g :: Derives(PixelOffsetPattern, line, [ax, g]) && NamesAxis(ax, a) && AllDigits(g) && DigitsValue(g) == px
    case Gcode =>
      forall g :: !Derives(SlicePattern, line, g) && !Derives(DelayPattern, line, g) &&
        !Derives(SliceCountPattern, line, g) && !Derives(ResolutionPattern, line, g) &&
        !Derives(PixelOffsetPattern, line, g)
  }

  lemma Decided(p: Pattern, line: string)
    requires WellSeparated(p)
    ensures MatchFrom(p, line, 0).Some? ==> Derives(p, line, MatchFrom(p, line, 0).value)
    ensures MatchFrom(p, line, 0).None? ==> forall g :: !Derives(p, line, g)
  {
    forall g ensures MatchFrom(p, line, 0) == Some(g) <==> Derives(p, line, g) {
      MatchDecides(p, line, g);
    }
  }

  lemma AxisNamed(g: string)
    requires Accepts(XorY, g)
    ensures NamesAxis(g, AxisArgument(g))
  {
    assert g == [g[0]];
  }

  lemma GroupsOfOne(p: Pattern, line: string)
    requires WellSeparated(p) && |GroupTokens(p)| == 1 && MatchFrom(p, line, 0).Some?
    ensures var g := MatchFrom(p, line, 0).value;
      g == [g[0]] && Derives(p, line, [g[0]]) && Accepts(GroupTokens(p)[0], g[0])
  {
    var g := MatchFrom(p, line, 0).value;
    assert g == [g[0]];
    MatchDecides(p, line, g);
  }

  lemma GroupsOfTwo(p: Pattern, line: string)
    requires WellSeparated(p) && |GroupTokens(p)| == 2 && MatchFrom(p, line, 0).Some?
    ensures var g := MatchFrom(p, line, 0).value;
      g == [g[0], g[1]] && Derives(p, line, [g[0], g[1]]) &&
      Accepts(GroupTokens(p)[0], g[0]) && Accepts(GroupTokens(p)[1], g[1])
  {
    var g := MatchFrom(p, line, 0).value;
    assert g == [g[0], g[1]];
    MatchDecides(p, line, g);
  }

  lemma SliceSpells(line: string, g: string)
    requires MatchFrom(SlicePattern, line, 0) == Some([g]) && Accepts(DigitsOrBlank, g)
    ensures Spells(line, SliceArgument(g))
  {
    SliceShape();
    MatchDecides(SlicePattern, line, [g]);
    BlankUpper(g);
  }

  lemma NumberSpells(p: Pattern, line: string)
    requires WellSeparated(p) && GroupTokens(p) == [Digits]
    requires MatchFrom(p, line, 0).Some?
    ensures var g := MatchFrom(p, line, 0).value;
      |g| == 1 && AllDigits(g[0]) && Derives(p, line, [g[0]])
  {
    GroupsOfOne(p, line);
  }

  lemma AxisSpells(p: Pattern, line: string)
    requires WellSeparated(p) && GroupTokens(p) == [XorY, Digits]
    requires MatchFrom(p, line, 0).Some?
    ensures var g := MatchFrom(p, line, 0).value;
      |g| == 2 && AllDigits(g[1]) && Derives(p, line, [g[0], g[1]]) && NamesAxis(g[0], AxisArgument(g[0]))
  {
    GroupsOfTwo(p, line);
    AxisNamed(MatchFrom(p, line, 0).value[0]);
  }

  lemma SliceCaseSpells(line: string)
    requires MatchFrom(SlicePattern, line, 0).Some?
    ensures Spells(line, Classify(line))
  {
    var g := MatchFrom(SlicePattern, line, 0).value;
    SliceShape();
    GroupsOfOne(SlicePattern, line);
    assert Classify(line) == SliceArgument(g[0]);
    SliceSpells(line, g[0]);
  }

  lemma DelayCaseSpells(line: string)
    requires MatchFrom(SlicePattern, line, 0).None? && MatchFrom(DelayPattern, line, 0).Some?
    ensures Spells(line, Classify(line))
  {
    var g := MatchFrom(DelayPattern, line, 0).value;
    DelayShape();
    NumberSpells(DelayPattern, line);
    assert Classify(line) == Delay(DigitsValue(g[0]));
    assert Derives(DelayPattern, line, [g[0]]);
  }

  lemma SliceCountCaseSpells(line: string)
    requires MatchFrom(SlicePattern, line, 0).None? && MatchFrom(DelayPattern, line, 0).None?
    requires MatchFrom(SliceCountPattern, line, 0).Some?
    ensures Spells(line, Classify(line))
  {
    var g := MatchFrom(SliceCountPattern, line, 0).value;
    SliceCountShape();
    NumberSpells(SliceCountPattern, line);
    assert Classify(line) == SliceCount(DigitsValue(g[0]));
    assert Derives(SliceCountPattern, line, [g[0]]);
  }

  lemma ResolutionCaseSpells(line: string)
    requires MatchFrom(SlicePattern, line, 0).None? && MatchFrom(DelayPattern, line, 0).None?
    requires MatchFrom(SliceCountPattern, line, 0).None? && MatchFrom(ResolutionPattern, line, 0).Some?
    ensures Spells(line, Classify(line))
  {
    var g := MatchFrom(ResolutionPattern, line, 0).value;
    ResolutionShape();
    AxisSpells(ResolutionPattern, line);
    assert Classify(line) == Resolution(AxisArgument(g[0]), DigitsValue(g[1]));
    assert Derives(ResolutionPattern, line, [g[0], g[1]]);
  }

  lemma PixelOffsetCaseSpells(line: string)
    requires MatchFrom(SlicePattern, line, 0).None? && MatchFrom(DelayPattern, line, 0).None?
    requires MatchFrom(SliceCountPattern, line, 0).None? && MatchFrom(ResolutionPattern, line, 0).None?
    requires MatchFrom(PixelOffsetPattern, line, 0).Some?
    ensures Spells(line, Classify(line))
  {
    var g := MatchFrom(PixelOffsetPattern, line, 0).value;
    PixelOffsetShape();
    AxisSpells(PixelOffsetPattern, line);
    assert Classify(line) == PixelOffset(AxisArgument(g[0]), DigitsValue(g[1]));
    assert Derives(PixelOffsetPattern, line, [g[0], g[1]]);
  }

  lemma GcodeCaseSpells(line: string)
    requires MatchFrom(SlicePattern, line, 0).None? && MatchFrom(DelayPattern, line, 0).None?
    requires MatchFrom(SliceCountPattern, line, 0).None? && MatchFrom(ResolutionPattern, line, 0).None?
    requires MatchFrom(PixelOffsetPattern, line, 0).None?
    ensures Spells(line, Classify(line))
  {
    PatternsWellSeparated();
    Decided(SlicePattern, line);
    Decided(DelayPattern, line);
    Decided(SliceCountPattern, line);
    Decided(ResolutionPattern, line);
    Decided(PixelOffsetPattern, line);
  }

  /** Whatever the classifier returns, the line spells it. */
  lemma ClassifySpells(line: string)
    ensures Spells(line, Classify(line))
  {
    if MatchFrom(SlicePattern, line, 0).Some? {
      SliceCaseSpells(line);
    } else if MatchFrom(DelayPattern, line, 0).Some? {
      DelayCaseSpells(line);
    } else if MatchFrom(SliceCountPattern, line, 0).Some? {
      SliceCountCaseSpells(line);
    } else if MatchFrom(ResolutionPattern, line, 0).Some? {
      ResolutionCaseSpells(line);
    } else if MatchFrom(PixelOffsetPattern, line, 0).Some? {
      PixelOffsetCaseSpells(line);
    } else {
      GcodeCaseSpells(line);
    }
  }

  lemma DigitsNotBlank(g: string)
    requires AllDigits(g)
    ensures !FoldEq(g, "blank")
  {
    if |g| == 5 {
      assert IsDigit(g[0]);
    }
  }

  lemma AxisOfName(ax: string, a: Axis)
    requires NamesAxis(ax, a)
    ensures AxisArgument(ax) == a
  {
    assert |UpperString(ax)| == 1 && UpperString(ax)[0] == Upper(ax[0]);
    assert UpperString(ax) == [UpperString(ax)[0]];
  }

  /** A line that derives in a pattern's language is matched by it with those groups. */
  lemma Matched(p: Pattern, line: string, g: seq<string>)
    requires WellSeparated(p) && Derives(p, line, g)
    ensures MatchFrom(p, line, 0) == Some(g)
  {
    MatchDecides(p, line, g);
  }

  lemma DerivedFits(p: Pattern, line: string, g: seq<string>)
    requires WellSeparated(p) && Derives(p, line, g)
    ensures GroupsFit(p, g)
  {
    MatchDecides(p, line, g);
  }

  lemma SliceClassifies(line: string, g: string)
    requires Derives(SlicePattern, line, [g]) && Accepts(DigitsOrBlank, g)
    ensures Classify(line) == SliceArgument(g)
  {
    PatternsWellSeparated();
    Matched(SlicePattern, line, [g]);
  }

  lemma ShowSliceClassifies(line: string, g: string)
    requires Derives(SlicePattern, line, [g]) && AllDigits(g)
    ensures Classify(line) == ShowSlice(DigitsValue(g))
  {
    PatternsWellSeparated();
    PatternGroups();
    DerivedFits(SlicePattern, line, [g]);
    assert Accepts(GroupTokens(SlicePattern)[0], [g][0]);
    DigitsNotBlank(g);
    BlankUpper(g);
    SliceClassifies(line, g);
  }

  lemma DelayClassifies(line: string, g: string)
    requires Derives(DelayPattern, line, [g]) && AllDigits(g)
    ensures Classify(line) == Delay(DigitsValue(g))
  {
    PatternsWellSeparated();
    PatternsExclusive(line);
    Matched(DelayPattern, line, [g]);
  }

  lemma SliceCountClassifies(line: string, g: string)
    requires Derives(SliceCountPattern, line, [g]) && AllDigits(g)
    ensures Classify(line) == SliceCount(DigitsValue(g))
  {
    PatternsWellSeparated();
    PatternsExclusive(line);
    Matched(SliceCountPattern, line, [g]);
  }

  lemma ResolutionClassifies(line: string, ax: string, g: string)
    requires Derives(ResolutionPattern, line, [ax, g]) && AllDigits(g)
    ensures Classify(line) == Resolution(AxisArgument(ax), DigitsValue(g))
  {
    PatternsWellSeparated();
    PatternsExclusive(line);
    Matched(ResolutionPattern, line, [ax, g]);
  }

  lemma PixelOffsetClassifies(line: string, ax: string, g: string)
    requires Derives(PixelOffsetPattern, line, [ax, g]) && AllDigits(g)
    ensures Classify(line) == PixelOffset(AxisArgument(ax), DigitsValue(g))
  {
    PatternsWellSeparated();
    PatternsExclusive(line);
    Matched(PixelOffsetPattern, line, [ax, g]);
  }

  lemma GcodeClassifies(line: string)
    requires Spells(line, Gcode)
    ensures Classify(line) == Gcode
  {
    PatternsWellSeparated();
    Decided(SlicePattern, line);
    Decided(DelayPattern, line);
    Decided(SliceCountPattern, line);
    Decided(ResolutionPattern, line);
    Decided(PixelOffsetPattern, line);
  }

  lemma {:induction false} SpellsClassify(line: string, d: Directive)
    requires Spells(line, d)
    ensures Classify(line) == d
  {
    match d {
      case ShowSlice(n) =>
        var g :| Derives(SlicePattern, line, [g]) && AllDigits(g) && DigitsValue(g) == n;
        ShowSliceClassifies(line, g);
      case BlankSlice =>
        var g :| Derives(SlicePattern, line, [g]) && FoldEq(g, "blank");
        SliceClassifies(line, g);
        BlankUpper(g);
      case Delay(ms) =>
        var g :| Derives(DelayPattern, line, [g]) && AllDigits(g) && DigitsValue(g) == ms;
        DelayClassifies(line, g);
      case SliceCount(n) =>
        var g :| Derives(SliceCountPattern, line, [g]) && AllDigits(g) && DigitsValue(g) == n;
        SliceCountClassifies(line, g);
      case Resolution(a, px) =>
        var ax, g :| Derives(ResolutionPattern, line, [ax, g]) && NamesAxis(ax, a) && AllDigits(g) && DigitsValue(g) == px;
        ResolutionClassifies(line, ax, g);
        AxisOfName(ax, a);
      case PixelOffset(a, px) =>
        var ax, g :| Derives(PixelOffsetPattern, line, [ax, g]) && NamesAxis(ax, a) && AllDigits(g) && DigitsValue(g) == px;
        PixelOffsetClassifies(line, ax, g);
        AxisOfName(ax, a);
      case Gcode =>
        GcodeClassifies(line);
    }
  }

  /**
   * The classifier is exact: a line classifies as `d` if and only if it spells
   * `d` in the language of `d`'s regular expression (with the captured field
   * giving `d`'s value), and as raw G-code if and only if no expression
   * matches it.
   */
  lemma ClassifyMeaning(line: string, d: Directive)
    ensures Classify(line) == d <==> Spells(line, d)
  {
    ClassifySpells(line);
    if Spells(line, d) {
      SpellsClassify(line, d);
    }
  }

  // ---------------------------------------------------------------------------
  // Examples

  /** `\s*;\s*<\s*` consumes `; <` when the next character is not blank. */
  lemma AngleOpening(rest: Pattern, l: string)
    requires |l| >= 4 && l[0] == ';' && l[1] == ' ' && l[2] == '<' && !IsSpace(l[3])
    ensures MatchFrom(Then(Space, Then(Word(";"), Then(Space, Then(Word("<"), Then(Space, rest))))), l, 0)
      == MatchFrom(rest, l, 3)
  {
    assert SkipSpace(l, 0) == 0;
    assert SkipSpace(l, 2) == 2;
    assert SkipSpace(l, 1) == 2;
    assert SkipSpace(l, 3) == 3;
    assert l[0..1] == [';'];
    assert l[2..3] == ['<'];
    SpaceStep(Then(Word(";"), Then(Space, Then(Word("<"), Then(Space, rest)))), l, 0);
    WordStep(";", Then(Space, Then(Word("<"), Then(Space, rest))), l, 0);
    SpaceStep(Then(Word("<"), Then(Space, rest)), l, 1);
    WordStep("<", Then(Space, rest), l, 2);
    SpaceStep(rest, l, 3);
  }

  /** `w\s*>\s*` consumes `w> ` when the next character is not blank. */
  lemma KeywordClose(w: string, rest: Pattern, l: string, i: nat)
    requires i + |w| + 3 <= |l| && WordAt(l, i, w)
    requires l[i + |w|] == '>' && l[i + |w| + 1] == ' ' && !IsSpace(l[i + |w| + 2])
    ensures MatchFrom(Then(Word(w), Then(Space, Then(Word(">"), Then(Space, rest)))), l, i)
      == MatchFrom(rest, l, i + |w| + 2)
  {
    var k := i + |w|;
    assert SkipSpace(l, k) == k;
    assert SkipSpace(l, k + 2) == k + 2;
    assert SkipSpace(l, k + 1) == k + 2;
    assert l[k..k + 1] == ['>'];
    WordStep(w, Then(Space, Then(Word(">"), Then(Space, rest))), l, i);
    SpaceStep(Then(Word(">"), Then(Space, rest)), l, k);
    WordStep(">", Then(Space, rest), l, k);
    SpaceStep(rest, l, k + 1);
  }

  /** The closing `(\d+|blank)\s*` takes the rest of the line as its group. */
  lemma ArgumentToEnd(l: string, i: nat)
    requires i <= |l| && Advance(DigitsOrBlank, l, i) == Some(|l|)
    ensures MatchFrom(Then(DigitsOrBlank, Then(Space, End)), l, i) == Some([l[i..|l|]])
  {
    var n := |l|;
    assert SkipSpace(l, n) == n;
    assert MatchFrom(End, l, n) == Some([]);
    assert MatchFrom(Then(Space, End), l, n) == Some([]);
    var g: seq<string> := [];
    assert [l[i..n]] + g == [l[i..n]];
  }

  lemma SliceExampleMatch()
    ensures MatchFrom(SlicePattern, "; <Slice> 3", 0) == Some(["3"])
  {
    var l := "; <Slice> 3";
    var p := SlicePattern;
    assert l[10..11] == "3";
    assert l[3..8] == "Slice";
    assert SkipDigits(l, 11) == 11;
    assert SkipDigits(l, 10) == 11;
    AngleOpening(p.rest.rest.rest.rest.rest, l);
    KeywordClose("Slice", p.rest.rest.rest.rest.rest.rest.rest.rest.rest, l, 3);
    ArgumentToEnd(l, 10);
  }

  /** A slice directive with its index. */
  lemma SliceExample()
    ensures Classify("; <Slice> 3") == ShowSlice(3)
  {
    SliceExampleMatch();
    assert UpperString("3") == "3";
    assert DigitsValue("3") == 3;
  }

  lemma BlankExampleMatch()
    ensures MatchFrom(SlicePattern, "; <SLICE> Blank", 0) == Some(["Blank"])
  {
    var l := "; <SLICE> Blank";
    var p := SlicePattern;
    assert l[10..15] == "Blank";
    assert WordAt(l, 10, "blank");
    assert WordAt(l, 3, "Slice");
    AngleOpening(p.rest.rest.rest.rest.rest, l);
    KeywordClose("Slice", p.rest.rest.rest.rest.rest.rest.rest.rest.rest, l, 3);
    ArgumentToEnd(l, 10);
  }

  /** The keywords and `blank` match in any case. */
  lemma BlankExample()
    ensures Classify("; <SLICE> Blank") == BlankSlice
  {
    assert UpperString("Blank") == "BLANK";
    assert SliceArgument("Blank") == BlankSlice;
    BlankExampleMatch();
  }

  lemma DelayTextNotSlice()
    ensures MatchFrom(SlicePattern, "; <Delay> abc", 0) == None
  {
    var l := "; <Delay> abc";
    var p := SlicePattern;
    assert l[3..8][0] == 'D';
    assert !WordAt(l, 3, "Slice");
    AngleOpening(p.rest.rest.rest.rest.rest, l);
  }

  lemma DelayTextNotDelay()
    ensures MatchFrom(DelayPattern, "; <Delay> abc", 0) == None
  {
    var l := "; <Delay> abc";
    var p := DelayPattern;
    assert l[3..8] == "Delay";
    assert SkipDigits(l, 10) == 10;
    AngleOpening(p.rest.rest.rest.rest.rest, l);
    KeywordClose("Delay", p.rest.rest.rest.rest.rest.rest.rest.rest.rest, l, 3);
  }

  lemma DelayTextNotSetting()
    ensures MatchFrom(SliceCountPattern, "; <Delay> abc", 0) == None
    ensures MatchFrom(ResolutionPattern, "; <Delay> abc", 0) == None
    ensures MatchFrom(PixelOffsetPattern, "; <Delay> abc", 0) == None
  {
    var l := "; <Delay> abc";
    assert SkipSpace(l, 2) == 2;
    assert SkipSpace(l, 1) == 2;
    assert !WordAt(l, 2, "Number");
    assert !WordAt(l, 2, "(");
    assert l[0..1] == ";";
  }

  /** A delay whose field is not a digit run is no directive: the line goes to the printer. */
  lemma NonDigitDelayExample()
    ensures Classify("; <Delay> abc") == Gcode
  {
    DelayTextNotSlice();
    DelayTextNotDelay();
    DelayTextNotSetting();
  }

  /** An ordinary G-code move matches no pattern. */
  lemma GcodeExample()
    ensures Classify("G1 X10") == Gcode
  {
    var l := "G1 X10";
    assert SkipSpace(l, 0) == 0;
    assert !WordAt(l, 0, ";");
    assert MatchFrom(SlicePattern, l, 0) == None;
    assert MatchFrom(DelayPattern, l, 0) == None;
    assert MatchFrom(SliceCountPattern, l, 0) == None;
    assert MatchFrom(ResolutionPattern, l, 0) == None;
    assert MatchFrom(PixelOffsetPattern, l, 0) == None;
  }
}
