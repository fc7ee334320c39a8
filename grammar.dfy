/**
 * The regular-expression fragment the driver's directive patterns are written
 * in, a greedy whole-line matcher for it, and the proof that the matcher
 * decides exactly the language the expression denotes.  A pattern is the list
 * of tokens its expression is made of; `Derives` is the language (every way
 * of cutting the line into pieces the tokens accept, as `Matcher.matches()`
 * with backtracking would find); `MatchFrom` is the greedy matcher.  They
 * agree on patterns whose adjacent tokens cannot compete for one character
 * (`WellSeparated`), which the driver's five patterns all are.
 */
module Grammar {
  import opened Wrappers
  import opened Text

  /** One element of a directive pattern. */
  datatype Token =
    | Space            // \s*
    | Word(w: string)  // literal text, matched ASCII case-insensitively
    | Digits           // (\d+), a capturing group
    | DigitsOrBlank    // (\d+|blank), a capturing group
    | XorY             // (X|Y), a capturing group

  /** A pattern: its tokens, first to last. */
  datatype Pattern = End | Then(head: Token, rest: Pattern)

  predicate IsGroup(t: Token) {
    t.Digits? || t.DigitsOrBlank? || t.XorY?
  }

  /** Equal up to ASCII case. */
  predicate FoldEq(a: string, b: string) {
    |a| == |b| && forall k :: 0 <= k < |a| ==> Fold(a[k]) == Fold(b[k])
  }

  predicate IsAxisLetter(c: char) {
    c == 'x' || c == 'X' || c == 'y' || c == 'Y'
  }

  /** `part` is a piece of text that token `t` accepts on its own. */
  predicate Accepts(t: Token, part: string) {
    match t
    case Space => forall k :: 0 <= k < |part| ==> IsSpace(part[k])
    case Word(w) => FoldEq(part, w)
    case Digits => |part| > 0 && AllDigits(part)
    case DigitsOrBlank => (|part| > 0 && AllDigits(part)) || FoldEq(part, "blank")
    case XorY => |part| == 1 && IsAxisLetter(part[0])
  }

  /** `parts` gives each token of `p` a piece that it accepts. */
  predicate Fills(p: Pattern, parts: seq<string>)
    decreases p
  {
    match p
    case End => parts == []
    case Then(t, r) => |parts| > 0 && Accepts(t, parts[0]) && Fills(r, parts[1..])
  }

  function Concat(parts: seq<string>): string
    decreases |parts|
  {
    if parts == [] then [] else parts[0] + Concat(parts[1..])
  }

  /** The pieces taken by the capturing groups, in order: what `matcher.group(k)` returns. */
  function Groups(p: Pattern, parts: seq<string>): seq<string>
    requires Fills(p, parts)
    decreases p
  {
    match p
    case End => []
    case Then(t, r) => if IsGroup(t) then [parts[0]] + Groups(r, parts[1..]) else Groups(r, parts[1..])
  }

  /** `Pattern.matches()`: the whole of `s` is in the language of `p`, with these groups. */
  ghost predicate Derives(p: Pattern, s: string, groups: seq<string>) {
    exists parts :: Fills(p, parts) && Concat(parts) == s && Groups(p, parts) == groups
  }

  /** The capturing tokens of `p`, in order. */
  function GroupTokens(p: Pattern): seq<Token>
    decreases p
  {
    match p
    case End => []
    case Then(t, r) => if IsGroup(t) then [t] + GroupTokens(r) else GroupTokens(r)
  }

  /** The groups fit the capturing tokens of the pattern. */
  predicate GroupsFit(p: Pattern, g: seq<string>) {
    |g| == |GroupTokens(p)| && forall k :: 0 <= k < |g| ==> Accepts(GroupTokens(p)[k], g[k])
  }

  // ---------------------------------------------------------------------------
  // The greedy matcher

  /** End of the longest run of whitespace starting at `i`. */
  function SkipSpace(s: string, i: nat): (j: nat)
    requires i <= |s|
    ensures i <= j <= |s|
    ensures forall k :: i <= k < j ==> IsSpace(s[k])
    ensures j == |s| || !IsSpace(s[j])
    decreases |s| - i
  {
    if i < |s| && IsSpace(s[i]) then SkipSpace(s, i + 1) else i
  }

  /** End of the longest run of digits starting at `i`. */
  function SkipDigits(s: string, i: nat): (j: nat)
    requires i <= |s|
    ensures i <= j <= |s|
    ensures forall k :: i <= k < j ==> IsDigit(s[k])
    ensures j == |s| || !IsDigit(s[j])
    decreases |s| - i
  {
    if i < |s| && IsDigit(s[i]) then SkipDigits(s, i + 1) else i
  }

  predicate WordAt(s: string, i: nat, w: string) {
    i + |w| <= |s| && FoldEq(s[i..i + |w|], w)
  }

  /** Where token `t` stops when it starts at `i`, or None if it cannot start there. */
  function Advance(t: Token, s: string, i: nat): (j: Option<nat>)
    requires i <= |s|
    ensures j.Some? ==> i <= j.value <= |s| && Accepts(t, s[i..j.value])
  {
    match t
    case Space => Some(SkipSpace(s, i))
    case Word(w) => if WordAt(s, i, w) then Some(i + |w|) else None
    case Digits => var j := SkipDigits(s, i); if j == i then None else Some(j)
    case DigitsOrBlank =>
      if i < |s| && IsDigit(s[i]) then Some(SkipDigits(s, i))
      else if WordAt(s, i, "blank") then Some(i + 5)
      else None
    case XorY => if i < |s| && IsAxisLetter(s[i]) then Some(i + 1) else None
  }

  /** Matches `p` against all of `s[i..]`; on success returns the groups. */
  function MatchFrom(p: Pattern, s: string, i: nat): (r: Option<seq<string>>)
    requires i <= |s|
    ensures r.Some? ==> GroupsFit(p, r.value)
    decreases p
  {
    match p
    case End => if i == |s| then Some([]) else None
    case Then(t, rest) =>
      match Advance(t, s, i)
      case None => None
      case Some(j) =>
        match MatchFrom(rest, s, j)
        case None => None
        case Some(g) =>
          var r := if IsGroup(t) then [s[i..j]] + g else g;
          assert GroupsFit(p, r) by {
            if IsGroup(t) {
              forall k | 0 < k < |r| ensures Accepts(GroupTokens(p)[k], r[k]) {
                assert r[k] == g[k - 1] && GroupTokens(p)[k] == GroupTokens(rest)[k - 1];
              }
            }
          }
          Some(r)
  }

  predicate Matches(p: Pattern, s: string) {
    MatchFrom(p, s, 0).Some?
  }

  /** A leading `\s*` skips the blanks and leaves the groups alone. */
  lemma SpaceStep(rest: Pattern, s: string, i: nat)
    requires i <= |s|
    ensures MatchFrom(Then(Space, rest), s, i) == MatchFrom(rest, s, SkipSpace(s, i))
  {
    assert Advance(Space, s, i) == Some(SkipSpace(s, i));
  }

  /** A leading literal present at `i` is stepped over and leaves the groups alone. */
  lemma WordStep(w: string, rest: Pattern, s: string, i: nat)
    requires WordAt(s, i, w)
    ensures MatchFrom(Then(Word(w), rest), s, i) == MatchFrom(rest, s, i + |w|)
  {
    assert Advance(Word(w), s, i) == Some(i + |w|);
  }

  // ---------------------------------------------------------------------------
  // Greedy matching is exact

  /** No text the tokens of `p` accept together can begin with a character of `cls`. */
  predicate Avoids(p: Pattern, cls: CharClass)
    decreases p
  {
    match p
    case End => true
    case Then(t, r) =>
      match t
      case Space => cls != SpaceClass && Avoids(r, cls)
      case Word(w) => |w| > 0 && !InClass(w[0], cls)
      case Digits => cls != DigitClass
      case DigitsOrBlank => cls != DigitClass
      case XorY => true
  }

  /** Every greedy run in `p` is followed by text that cannot extend it. */
  predicate WellSeparated(p: Pattern)
    decreases p
  {
    match p
    case End => true
    case Then(t, r) =>
      (match t
       case Space => Avoids(r, SpaceClass)
       case Word(_) => true
       case Digits => Avoids(r, DigitClass)
       case DigitsOrBlank => Avoids(r, DigitClass)
       case XorY => true)
      && WellSeparated(r)
  }

  lemma {:induction false} AvoidsFirst(p: Pattern, parts: seq<string>, cls: CharClass)
    requires Fills(p, parts) && Avoids(p, cls)
    ensures Concat(parts) == [] || !InClass(Concat(parts)[0], cls)
    decreases p
  {
    if p.Then? {
      var c := Concat(parts);
      assert c == parts[0] + Concat(parts[1..]);
      match p.head {
        case Space =>
          if parts[0] == [] {
            AvoidsFirst(p.rest, parts[1..], cls);
          } else {
            assert c[0] == parts[0][0];
          }
        case Word(w) =>
          assert c[0] == parts[0][0];
          FoldKeepsClass(parts[0][0], w[0], cls);
        case Digits =>
          assert c[0] == parts[0][0];
        case DigitsOrBlank =>
          assert c[0] == parts[0][0];
          if !AllDigits(parts[0]) {
            FoldKeepsClass(parts[0][0], 'b', cls);
          }
        case XorY =>
          assert c[0] == parts[0][0];
      }
    }
  }

  /** A piece the first token accepts, followed by text in the language of the rest, is in the language. */
  lemma DerivesThen(t: Token, r: Pattern, s: string, i: nat, j: nat, h: seq<string>)
    requires i <= j <= |s| && Accepts(t, s[i..j]) && Derives(r, s[j..], h)
    ensures Derives(Then(t, r), s[i..], if IsGroup(t) then [s[i..j]] + h else h)
  {
    var rest :| Fills(r, rest) && Concat(rest) == s[j..] && Groups(r, rest) == h;
    var parts := [s[i..j]] + rest;
    assert parts[1..] == rest;
    assert Fills(Then(t, r), parts);
    assert Concat(parts) == s[i..j] + s[j..] == s[i..];
  }

  /** Soundness: whatever the greedy matcher accepts is in the pattern's language. */
  lemma {:induction false} MatchSound(p: Pattern, s: string, i: nat)
    requires i <= |s| && MatchFrom(p, s, i).Some?
    ensures Derives(p, s[i..], MatchFrom(p, s, i).value)
    decreases p
  {
    match p {
      case End =>
        assert Fills(p, []) && Concat([]) == s[i..] && Groups(p, []) == [];
      case Then(t, r) =>
        var j := Advance(t, s, i).value;
        assert MatchFrom(r, s, j).Some?;
        var h := MatchFrom(r, s, j).value;
        assert MatchFrom(p, s, i).value == if IsGroup(t) then [s[i..j]] + h else h;
        MatchSound(r, s, j);
        DerivesThen(t, r, s, i, j, h);
    }
  }

  lemma SpaceRunEnds(s: string, i: nat, j: nat)
    requires i <= j <= |s| && (forall k :: i <= k < j ==> IsSpace(s[k]))
    requires j == |s| || !IsSpace(s[j])
    ensures SkipSpace(s, i) == j
  {
  }

  lemma DigitRunEnds(s: string, i: nat, j: nat)
    requires i <= j <= |s| && (forall k :: i <= k < j ==> IsDigit(s[k]))
    requires j == |s| || !IsDigit(s[j])
    ensures SkipDigits(s, i) == j
  {
  }

  /** One token, started on a piece it accepts, stops at the piece's end when what follows cannot extend it. */
  lemma AdvanceOne(t: Token, part: string, s: string, i: nat)
    requires Accepts(t, part) && i + |part| <= |s| && s[i..i + |part|] == part
    requires t.Space? ==> i + |part| == |s| || !IsSpace(s[i + |part|])
    requires t.Digits? || t.DigitsOrBlank? ==> i + |part| == |s| || !IsDigit(s[i + |part|])
    ensures Advance(t, s, i) == Some(i + |part|)
  {
    var j := i + |part|;
    forall k | i <= k < j ensures s[k] == part[k - i] {
      assert s[i..j][k - i] == s[k];
    }
    match t {
      case Space =>
        SpaceRunEnds(s, i, j);
      case Word(w) =>
        assert WordAt(s, i, w);
      case Digits =>
        DigitRunEnds(s, i, j);
      case DigitsOrBlank =>
        if |part| > 0 && AllDigits(part) {
          DigitRunEnds(s, i, j);
        } else {
          FoldKeepsClass(part[0], 'b', DigitClass);
          assert WordAt(s, i, "blank");
        }
      case XorY =>
    }
  }

  /** A greedy run stops exactly where a piece the pattern's language allows ends. */
  lemma AdvanceComplete(p: Pattern, parts: seq<string>, s: string, i: nat)
    requires p.Then? && WellSeparated(p) && Fills(p, parts)
    requires i <= |s| && s[i..] == Concat(parts)
    ensures i + |parts[0]| <= |s| && Advance(p.head, s, i) == Some(i + |parts[0]|)
  {
    var part := parts[0];
    var j := i + |part|;
    assert s[i..] == part + Concat(parts[1..]);
    assert s[i..j] == part;
    assert s[j..] == Concat(parts[1..]);
    assert j < |s| ==> s[j] == Concat(parts[1..])[0];
    if p.head.Space? {
      AvoidsFirst(p.rest, parts[1..], SpaceClass);
    } else if p.head.Digits? || p.head.DigitsOrBlank? {
      AvoidsFirst(p.rest, parts[1..], DigitClass);
    }
    AdvanceOne(p.head, part, s, i);
  }

  /** Completeness: every way the pattern's language cuts up `s[i..]` is found, with the same groups. */
  lemma {:induction false} MatchComplete(p: Pattern, parts: seq<string>, s: string, i: nat)
    requires WellSeparated(p) && Fills(p, parts)
    requires i <= |s| && s[i..] == Concat(parts)
    ensures MatchFrom(p, s, i) == Some(Groups(p, parts))
    decreases p
  {
    if p.Then? {
      AdvanceComplete(p, parts, s, i);
      var j := i + |parts[0]|;
      assert s[i..] == parts[0] + Concat(parts[1..]);
      assert s[i..j] == parts[0];
      assert s[j..] == Concat(parts[1..]);
      MatchComplete(p.rest, parts[1..], s, j);
      var g := Groups(p.rest, parts[1..]);
      assert Groups(p, parts) == if IsGroup(p.head) then [parts[0]] + g else g;
      assert MatchFrom(p, s, i) == Some(if IsGroup(p.head) then [s[i..j]] + g else g);
    } else {
      assert parts == [] && Concat(parts) == [];
    }
  }

  /** The greedy matcher decides exactly the regular language, groups included. */
  lemma MatchDecides(p: Pattern, s: string, g: seq<string>)
    requires WellSeparated(p)
    ensures MatchFrom(p, s, 0) == Some(g) <==> Derives(p, s, g)
  {
    if MatchFrom(p, s, 0) == Some(g) {
      MatchSound(p, s, 0);
    }
    if Derives(p, s, g) {
      var parts :| Fills(p, parts) && Concat(parts) == s && Groups(p, parts) == g;
      MatchComplete(p, parts, s, 0);
    }
  }

  // ---------------------------------------------------------------------------
  // Patterns that cannot both match

  /** The two patterns agree token for token until each demands a word, and the words' first letters differ. */
  predicate Diverge(p1: Pattern, p2: Pattern)
    decreases p1
  {
    p1.Then? && p2.Then? &&
    ((p1.head.Word? && p2.head.Word? && |p1.head.w| > 0 && |p2.head.w| > 0 &&
      Fold(p1.head.w[0]) != Fold(p2.head.w[0])) ||
     (p1.head == p2.head && Diverge(p1.rest, p2.rest)))
  }

  lemma WordsDiffer(s: string, i: nat, a: string, b: string)
    requires |a| > 0 && |b| > 0 && Fold(a[0]) != Fold(b[0])
    ensures !(WordAt(s, i, a) && WordAt(s, i, b))
  {
    if i + |a| <= |s| && i + |b| <= |s| {
      assert s[i..i + |a|][0] == s[i] == s[i..i + |b|][0];
    }
  }

  /** Diverging patterns never both match the same text. */
  lemma {:induction false} DivergeExclusive(p1: Pattern, p2: Pattern, s: string, i: nat)
    requires Diverge(p1, p2) && i <= |s|
    ensures !(MatchFrom(p1, s, i).Some? && MatchFrom(p2, s, i).Some?)
    decreases p1
  {
    if p1.head.Word? && p2.head.Word? && |p1.head.w| > 0 && |p2.head.w| > 0 &&
       Fold(p1.head.w[0]) != Fold(p2.head.w[0]) {
      WordsDiffer(s, i, p1.head.w, p2.head.w);
    } else {
      match Advance(p1.head, s, i) {
        case None =>
        case Some(j) => DivergeExclusive(p1.rest, p2.rest, s, j);
      }
    }
  }
}
