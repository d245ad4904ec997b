/** RServerEvaluator.fixSvgResults: the text rewrite that makes the SVG written by R's svg()
    device self-contained. It deletes empty path data and the XML declaration, replaces every
    `<use xlink:href="#ID" x="X" y="Y"/>` by a translated group holding the glyph's `<path .../>`,
    and finally cuts the first `<defs>` block. */
module SvgFix {
  import opened Wrappers
  import opened JavaStrings

  const XmlDeclaration: string := "<?xml version=\"1.0\" encoding=\"UTF-8\"?>\n"
  const EmptyPathData: string := "d=\"\""
  const UseOpen: string := "<use xlink:href=\"#"
  const XAttr: string := "\" x=\""
  const YAttr: string := "\" y=\""
  const UseClose: string := "\"/>"
  const PathOpen: string := "<path"
  const TagEnd: string := "/>"
  const GroupClose: string := "</g>\n"
  const DefsOpen: string := "<defs>"
  const DefsClose: string := "</defs>"

  predicate QuoteFree(t: string)
    decreases |t|
  {
    |t| == 0 || (t[0] != '"' && QuoteFree(t[1..]))
  }

  /** What one group `([^"]+)` of the `<use>` pattern can capture. */
  predicate GroupText(t: string) {
    |t| > 0 && QuoteFree(t)
  }

  /** The text the `<use>` pattern matches, for the captured glyph id and offsets. */
  function UseElement(glyph: string, x: string, y: string): string {
    UseOpen + glyph + XAttr + x + YAttr + y + UseClose
  }

  /** The opening tag of the group that replaces a `<use>` element. */
  function GroupOpen(x: string, y: string): string {
    "<g transform=\"translate(" + x + "," + y + ")\">\n"
  }

  /** One element of a pattern made of literal text and `([^"]+)` groups. */
  datatype Token = Text(t: string) | Group

  /** The `<use>` pattern compiled in fixSvgResults, token by token. */
  const UsePattern: seq<Token> :=
    [Text(UseOpen), Group, Text(XAttr), Group, Text(YAttr), Group, Text(UseClose)]

  function GroupCount(p: seq<Token>): nat {
    if p == [] then 0 else (if p[0].Group? then 1 else 0) + GroupCount(p[1..])
  }

  /** The text a pattern matches when its groups capture `gs`. */
  function Render(p: seq<Token>, gs: seq<string>): string
    requires |gs| == GroupCount(p)
  {
    if p == [] then ""
    else match p[0]
      case Text(t) => t + Render(p[1..], gs)
      case Group => gs[0] + Render(p[1..], gs[1..])
  }

  /** Every group is followed by literal text that starts with a quote, so a greedy
      quote-free group can only end right before that quote. */
  predicate WellFormed(p: seq<Token>) {
    forall i :: 0 <= i < |p| && p[i].Group? ==>
      i + 1 < |p| && p[i + 1].Text? && |p[i + 1].t| > 0 && p[i + 1].t[0] == '"'
  }

  /** Where a match ends and what its groups captured. */
  datatype Captures = Captures(end: nat, groups: seq<string>)

  /** Index of the first double quote at or after `i`, or |s| when there is none. */
  function NextQuote(s: string, i: nat): (j: nat)
    requires i <= |s|
    ensures i <= j <= |s|
    ensures QuoteFree(s[i..j])
    ensures j < |s| ==> s[j] == '"'
    decreases |s| - i
  {
    if i == |s| || s[i] == '"' then i
    else
      var j := NextQuote(s, i + 1);
      assert s[i..j] == [s[i]] + s[i + 1..j];
      j
  }

  /** Matching `p` at exactly index `i`: literal text must occur there, and a group takes
      every character up to the next quote and must take at least one. */
  function MatchTokens(s: string, i: nat, p: seq<Token>): (r: Option<Captures>)
    requires i <= |s|
    ensures r.Some? ==> i + GroupCount(p) <= r.value.end <= |s| && |r.value.groups| == GroupCount(p)
    ensures r.Some? ==> forall n :: 0 <= n < |r.value.groups| ==> GroupText(r.value.groups[n])
    decreases p
  {
    if p == [] then Some(Captures(i, []))
    else match p[0]
      case Text(t) =>
        if OccursAt(s, t, i) then MatchTokens(s, i + |t|, p[1..]) else None
      case Group =>
        var j := NextQuote(s, i);
        if j == i then None
        else match MatchTokens(s, j, p[1..])
          case None => None
          case Some(c) => Some(Captures(c.end, [s[i..j]] + c.groups))
  }

  lemma UsePatternShape()
    ensures GroupCount(UsePattern) == 3 && WellFormed(UsePattern)
  {
    var p := UsePattern;
    assert p[6..][1..] == [];
    assert GroupCount(p[6..]) == 0;
    assert p[5..][1..] == p[6..];
    assert GroupCount(p[5..]) == 1;
    assert p[4..][1..] == p[5..];
    assert GroupCount(p[4..]) == 1;
    assert p[3..][1..] == p[4..];
    assert GroupCount(p[3..]) == 2;
    assert p[2..][1..] == p[3..];
    assert GroupCount(p[2..]) == 2;
    assert p[1..][1..] == p[2..];
    assert GroupCount(p[1..]) == 3;
    assert p[0..] == p;
  }

  /** The `<use>` pattern renders as the `<use>` element. */
  lemma UseRender(g: string, x: string, y: string)
    ensures GroupCount(UsePattern) == 3 && Render(UsePattern, [g, x, y]) == UseElement(g, x, y)
  {
    UsePatternShape();
    var p := UsePattern;
    var gs := [g, x, y];
    assert p[6..][1..] == [];
    assert Render(p[6..], []) == UseClose;
    assert p[5..][1..] == p[6..];
    assert gs[2..][1..] == [];
    assert Render(p[5..], gs[2..]) == y + UseClose;
    assert p[4..][1..] == p[5..];
    assert Render(p[4..], gs[2..]) == YAttr + y + UseClose;
    assert p[3..][1..] == p[4..];
    assert gs[1..][1..] == gs[2..];
    assert Render(p[3..], gs[1..]) == x + YAttr + y + UseClose;
    assert p[2..][1..] == p[3..];
    assert Render(p[2..], gs[1..]) == XAttr + x + YAttr + y + UseClose;
    assert p[1..][1..] == p[2..];
    assert Render(p[1..], gs) == g + XAttr + x + YAttr + y + UseClose;
  }

  /** A match of the `<use>` pattern: the span [start, end) and the three groups. */
  datatype UseMatch = UseMatch(start: nat, end: nat, glyph: string, x: string, y: string)

  /** The span of a match lies inside the text and its glyph id is not empty. */
  predicate Spans(s: string, m: UseMatch) {
    m.start < m.end <= |s| && |m.glyph| > 0
  }

  /** The match of the `<use>` pattern that starts exactly at `k`, if any. */
  function MatchAt(s: string, k: nat): (r: Option<UseMatch>)
    ensures r.Some? ==> r.value.start == k && Spans(s, r.value)
    ensures r.Some? ==> GroupText(r.value.glyph) && GroupText(r.value.x) && GroupText(r.value.y)
  {
    UsePatternShape();
    if k > |s| then None
    else match MatchTokens(s, k, UsePattern)
      case None => None
      case Some(c) => Some(UseMatch(k, c.end, c.groups[0], c.groups[1], c.groups[2]))
  }

  /** Matcher.find() on a fresh matcher: the leftmost match starting at or after `from`. */
  function FindUse(s: string, from: nat): (r: Option<UseMatch>)
    ensures r.Some? ==> from <= r.value.start && Spans(s, r.value)
    decreases |s| - from
  {
    if from >= |s| then None
    else if MatchAt(s, from).Some? then MatchAt(s, from)
    else FindUse(s, from + 1)
  }

  /** FindUse returns the leftmost match, and nothing only when no position matches. */
  lemma {:induction false} FindUseLeftmost(s: string, from: nat)
    ensures FindUse(s, from).Some? ==> MatchAt(s, FindUse(s, from).value.start) == FindUse(s, from)
    ensures FindUse(s, from).Some? ==> forall k :: from <= k < FindUse(s, from).value.start ==> MatchAt(s, k).None?
    ensures FindUse(s, from).None? ==> forall k :: from <= k ==> MatchAt(s, k).None?
    decreases |s| - from
  {
    if from < |s| && MatchAt(s, from).None? {
      FindUseLeftmost(s, from + 1);
      assert FindUse(s, from) == FindUse(s, from + 1);
      forall k | from <= k && (FindUse(s, from).Some? ==> k < FindUse(s, from).value.start)
        ensures MatchAt(s, k).None?
      {
        // `from` itself fails by the branch condition; later positions by the recursive call.
        if k > from {
          assert from + 1 <= k;
        }
      }
    }
  }

  lemma OccursConcat(s: string, a: string, b: string, k: int)
    ensures OccursAt(s, a + b, k) <==> OccursAt(s, a, k) && OccursAt(s, b, k + |a|)
  {
    if OccursAt(s, a, k) && OccursAt(s, b, k + |a|) {
      assert s[k..k + |a + b|] == s[k..k + |a|] + s[k + |a|..k + |a| + |b|];
    }
    if OccursAt(s, a + b, k) {
      assert s[k..k + |a|] == (a + b)[..|a|];
      assert s[k + |a|..k + |a| + |b|] == (a + b)[|a|..];
    }
  }

  lemma NextQuoteAt(s: string, i: nat, j: nat)
    requires i <= j < |s| && QuoteFree(s[i..j]) && s[j] == '"'
    ensures NextQuote(s, i) == j
    decreases j - i
  {
    if i < j {
      assert s[i] == s[i..j][0];
      assert s[i + 1..j] == s[i..j][1..];
      NextQuoteAt(s, i + 1, j);
    }
  }

  /** Soundness of the token matcher: a match is the pattern's text for the captured groups. */
  lemma {:induction false} MatchTokensSound(s: string, i: nat, p: seq<Token>)
    requires i <= |s| && MatchTokens(s, i, p).Some?
    ensures var c := MatchTokens(s, i, p).value;
            c.end == i + |Render(p, c.groups)| && OccursAt(s, Render(p, c.groups), i)
    decreases p, 1
  {
    if p != [] {
      if p[0].Text? {
        SoundText(s, i, p);
      } else {
        SoundGroup(s, i, p);
      }
    }
  }

  /** Soundness when the pattern starts with literal text. */
  lemma {:induction false} SoundText(s: string, i: nat, p: seq<Token>)
    requires i <= |s| && p != [] && p[0].Text? && MatchTokens(s, i, p).Some?
    ensures var c := MatchTokens(s, i, p).value;
            c.end == i + |Render(p, c.groups)| && OccursAt(s, Render(p, c.groups), i)
    decreases p, 0
  {
    var t := p[0].t;
    var c := MatchTokens(s, i, p).value;
    MatchTokensSound(s, i + |t|, p[1..]);
    OccursConcat(s, t, Render(p[1..], c.groups), i);
  }

  /** Soundness when the pattern starts with a group. */
  lemma {:induction false} SoundGroup(s: string, i: nat, p: seq<Token>)
    requires i <= |s| && p != [] && p[0].Group? && MatchTokens(s, i, p).Some?
    ensures var c := MatchTokens(s, i, p).value;
            c.end == i + |Render(p, c.groups)| && OccursAt(s, Render(p, c.groups), i)
    decreases p, 0
  {
    var c := MatchTokens(s, i, p).value;
    var j := NextQuote(s, i);
    var c' := MatchTokens(s, j, p[1..]).value;
    MatchTokensSound(s, j, p[1..]);
    assert c.groups[0] == s[i..j] && c.groups[1..] == c'.groups;
    OccursConcat(s, s[i..j], Render(p[1..], c'.groups), i);
  }

  /** Completeness of the token matcher: where the pattern's text for quote-free, non-empty
      groups occurs, the matcher succeeds there and captures exactly those groups (where
      the match ends then follows from MatchTokensSound). */
  lemma {:induction false} MatchTokensComplete(s: string, i: nat, p: seq<Token>, gs: seq<string>)
    requires i <= |s| && WellFormed(p) && |gs| == GroupCount(p)
    requires forall n :: 0 <= n < |gs| ==> GroupText(gs[n])
    requires OccursAt(s, Render(p, gs), i)
    ensures MatchTokens(s, i, p).Some? && MatchTokens(s, i, p).value.groups == gs
    decreases p, 1
  {
    if p != [] {
      if p[0].Text? {
        CompleteText(s, i, p, gs);
      } else {
        CompleteGroup(s, i, p, gs);
      }
    }
  }

  /** Completeness when the pattern starts with literal text. */
  lemma {:induction false} CompleteText(s: string, i: nat, p: seq<Token>, gs: seq<string>)
    requires i <= |s| && WellFormed(p) && |gs| == GroupCount(p) && p != [] && p[0].Text?
    requires forall n :: 0 <= n < |gs| ==> GroupText(gs[n])
    requires OccursAt(s, Render(p, gs), i)
    ensures MatchTokens(s, i, p).Some? && MatchTokens(s, i, p).value.groups == gs
    decreases p, 0
  {
    WellFormedTail(p);
    var t := p[0].t;
    assert Render(p, gs) == t + Render(p[1..], gs);
    OccursConcat(s, t, Render(p[1..], gs), i);
    MatchTokensComplete(s, i + |t|, p[1..], gs);
    MatchTextStep(s, i, p, gs);
  }

  /** Completeness when the pattern starts with a group. */
  lemma {:induction false} CompleteGroup(s: string, i: nat, p: seq<Token>, gs: seq<string>)
    requires i <= |s| && WellFormed(p) && |gs| == GroupCount(p) && p != [] && p[0].Group?
    requires forall n :: 0 <= n < |gs| ==> GroupText(gs[n])
    requires OccursAt(s, Render(p, gs), i)
    ensures MatchTokens(s, i, p).Some? && MatchTokens(s, i, p).value.groups == gs
    decreases p, 0
  {
    WellFormedTail(p);
    GroupEndsAtQuote(s, i, p, gs);
    GroupTextTail(gs);
    MatchTokensComplete(s, i + |gs[0]|, p[1..], gs[1..]);
    MatchGroupStep(s, i, p, gs);
  }

  lemma GroupTextTail(gs: seq<string>)
    requires |gs| > 0 && forall n :: 0 <= n < |gs| ==> GroupText(gs[n])
    ensures forall n :: 0 <= n < |gs[1..]| ==> GroupText(gs[1..][n])
  {
    forall n | 0 <= n < |gs[1..]| ensures GroupText(gs[1..][n]) {
      assert gs[1..][n] == gs[n + 1];
    }
  }

  /** The text case of completeness: the literal occurs, and the rest matches after it. */
  lemma MatchTextStep(s: string, i: nat, p: seq<Token>, gs: seq<string>)
    requires i <= |s| && p != [] && p[0].Text? && OccursAt(s, p[0].t, i)
    requires MatchTokens(s, i + |p[0].t|, p[1..]).Some?
    requires MatchTokens(s, i + |p[0].t|, p[1..]).value.groups == gs
    ensures MatchTokens(s, i, p).Some? && MatchTokens(s, i, p).value.groups == gs
  {
  }

  /** The group case of completeness: the group stops at the next quote, which is where
      its text ends, and the rest of the pattern matches from there. */
  lemma MatchGroupStep(s: string, i: nat, p: seq<Token>, gs: seq<string>)
    requires i <= |s| && p != [] && p[0].Group? && |gs| == GroupCount(p)
    requires |gs[0]| > 0 && i + |gs[0]| <= |s|
    requires NextQuote(s, i) == i + |gs[0]| && s[i..i + |gs[0]|] == gs[0]
    requires MatchTokens(s, i + |gs[0]|, p[1..]).Some?
    requires MatchTokens(s, i + |gs[0]|, p[1..]).value.groups == gs[1..]
    ensures MatchTokens(s, i, p).Some? && MatchTokens(s, i, p).value.groups == gs
  {
  }

  lemma WellFormedTail(p: seq<Token>)
    requires p != [] && WellFormed(p)
    ensures WellFormed(p[1..])
  {
    forall n | 0 <= n < |p[1..]| && p[1..][n].Group?
      ensures n + 1 < |p[1..]| && p[1..][n + 1].Text? && |p[1..][n + 1].t| > 0 && p[1..][n + 1].t[0] == '"'
    {
      assert p[1..][n] == p[n + 1];
    }
  }

  /** Where a group's text is followed by the rest of a well-formed pattern, the next
      quote is exactly where the group's text ends. */
  lemma GroupEndsAtQuote(s: string, i: nat, p: seq<Token>, gs: seq<string>)
    requires i <= |s| && p != [] && p[0].Group? && WellFormed(p) && |gs| == GroupCount(p)
    requires GroupText(gs[0])
    requires OccursAt(s, Render(p, gs), i)
    ensures OccursAt(s, Render(p[1..], gs[1..]), i + |gs[0]|)
    ensures NextQuote(s, i) == i + |gs[0]| && s[i..i + |gs[0]|] == gs[0]
  {
    var g := gs[0];
    var rest := Render(p[1..], gs[1..]);
    OccursConcat(s, g, rest, i);
    var t := p[1].t;
    assert p[1..][0] == Text(t) && p[1..][1..] == p[2..];
    assert rest == t + Render(p[2..], gs[1..]);
    assert s[i + |g|] == rest[0];
    assert s[i..i + |g|] == g;
    NextQuoteAt(s, i, i + |g|);
  }

  /** Soundness of the matcher: a match is exactly the text of a `<use>` element whose
      groups are non-empty and quote-free. */
  lemma MatchAtSound(s: string, k: nat)
    requires MatchAt(s, k).Some?
    ensures var m := MatchAt(s, k).value;
            m.end == k + |UseElement(m.glyph, m.x, m.y)| && OccursAt(s, UseElement(m.glyph, m.x, m.y), k)
  {
    var m := MatchAt(s, k).value;
    var c := MatchTokens(s, k, UsePattern).value;
    MatchTokensSound(s, k, UsePattern);
    UseRender(m.glyph, m.x, m.y);
    assert c.groups == [m.glyph, m.x, m.y];
  }

  /** Completeness of the matcher: wherever a `<use>` element with well-formed groups
      occurs, the pattern matches there and captures exactly those groups. */
  lemma MatchAtComplete(s: string, k: nat, g: string, x: string, y: string)
    requires GroupText(g) && GroupText(x) && GroupText(y)
    requires OccursAt(s, UseElement(g, x, y), k)
    ensures MatchAt(s, k) == Some(UseMatch(k, k + |UseElement(g, x, y)|, g, x, y))
  {
    UseRender(g, x, y);
    UsePatternShape();
    MatchTokensComplete(s, k, UsePattern, [g, x, y]);
    MatchTokensSound(s, k, UsePattern);
  }

  /** One pass of the rewrite loop on the match `m`: the glyph id is looked up from the
      start of the text, the first `<path` at or after it and the first `/>` after that
      delimit the path copied into the group. None where `substring` throws. */
  function ExpandAt(s: string, m: UseMatch): Option<string>
    requires Spans(s, m)
  {
    var gi := IndexOf(s, m.glyph, 0);
    var ps := IndexOf(s, PathOpen, gi);
    var pe := IndexOf(s, TagEnd, ps);
    match Substring(s, ps, pe + 2)
    case None => None
    case Some(path) => Some(s[..m.start] + GroupOpen(m.x, m.y) + path + GroupClose + s[m.end..])
  }

  /** A rewrite step replaces exactly the matched span by the group around the glyph's
      `<path .../>` text: the first `<path` at or after the glyph id's first occurrence,
      through the first `/>` after it. The text before and after the span is kept. */
  lemma ExpandAtFound(s: string, m: UseMatch, gi: nat, ps: nat, pe: nat)
    requires Spans(s, m)
    requires FirstFrom(s, m.glyph, 0, gi) && FirstFrom(s, PathOpen, gi, ps) && FirstFrom(s, TagEnd, ps, pe)
    ensures ExpandAt(s, m) == Some(s[..m.start] + GroupOpen(m.x, m.y) + s[ps..pe + 2] + GroupClose + s[m.end..])
  {
    IndexOfIs(s, m.glyph, 0, gi);
    IndexOfIs(s, PathOpen, gi, ps);
    IndexOfIs(s, TagEnd, ps, pe);
    ExpandAtFrom(s, m, gi, ps, pe);
  }

  /** ExpandAt once the three searches have been answered. */
  lemma ExpandAtFrom(s: string, m: UseMatch, gi: int, ps: int, pe: int)
    requires Spans(s, m) && 0 <= ps <= pe && pe + 2 <= |s|
    requires IndexOf(s, m.glyph, 0) == gi && IndexOf(s, PathOpen, gi) == ps && IndexOf(s, TagEnd, ps) == pe
    ensures ExpandAt(s, m) == Some(s[..m.start] + GroupOpen(m.x, m.y) + s[ps..pe + 2] + GroupClose + s[m.end..])
  {
  }

  /** The step throws when no `<path` follows the glyph id's first occurrence. */
  lemma ExpandAtNoPath(s: string, m: UseMatch, gi: nat)
    requires MatchAt(s, m.start) == Some(m)
    requires FirstFrom(s, m.glyph, 0, gi) && forall k :: gi <= k ==> !OccursAt(s, PathOpen, k)
    ensures ExpandAt(s, m).None?
  {
    IndexOfIs(s, m.glyph, 0, gi);
    IndexOfAbsent(s, PathOpen, gi);
  }

  /** The step throws when no `/>` follows the `<path` it found: the matched element's own
      `/>` lies before that `<path`, so the cut would end before it starts. */
  lemma ExpandAtNoTagEnd(s: string, m: UseMatch, gi: nat, ps: nat)
    requires MatchAt(s, m.start) == Some(m)
    requires FirstFrom(s, m.glyph, 0, gi) && FirstFrom(s, PathOpen, gi, ps)
    requires forall k :: ps <= k ==> !OccursAt(s, TagEnd, k)
    ensures ExpandAt(s, m).None?
  {
    IndexOfIs(s, m.glyph, 0, gi);
    IndexOfIs(s, PathOpen, gi, ps);
    IndexOfAbsent(s, TagEnd, ps);
    UseEndsWithTagEnd(s, m);
  }

  /** A matched `<use>` element ends with `/>`, and is at least 30 characters long. */
  lemma UseEndsWithTagEnd(s: string, m: UseMatch)
    requires MatchAt(s, m.start) == Some(m)
    ensures OccursAt(s, TagEnd, m.end - 2) && m.end >= m.start + 30
  {
    MatchAtSound(s, m.start);
    var pre := UseOpen + m.glyph + XAttr + m.x + YAttr + m.y + "\"";
    OccursConcat(s, pre, TagEnd, m.start);
    assert pre + TagEnd == UseElement(m.glyph, m.x, m.y);
  }

  /** The outcome of the rewrite: the text, a StringIndexOutOfBoundsException, or the
      bound on rewrite steps used up (the loop in the source has no bound). */
  datatype Outcome = Done(text: string) | Crashed | OutOfFuel

  /** What one pass of a rewrite loop does: stop, throw, or continue with a new text. */
  datatype StepResult = Stop | Throw | Next(text: string)

  /** A `while (true)` loop over a text, allowed at most `fuel` completed passes. */
  function Iterate(step: string -> StepResult, s: string, fuel: nat): Outcome
    decreases fuel
  {
    match step(s)
    case Stop => Done(s)
    case Throw => Crashed
    case Next(t) => if fuel == 0 then OutOfFuel else Iterate(step, t, fuel - 1)
  }

  /** One pass of the `<use>` rewrite loop: stop when the pattern no longer matches,
      otherwise expand the leftmost match. */
  function Step(s: string): StepResult {
    match FindUse(s, 0)
    case None => Stop
    case Some(m) =>
      match ExpandAt(s, m)
      case None => Throw
      case Some(t) => Next(t)
  }

  /** The rewrite loop of fixSvgResults under a bound on its passes. */
  function Inline(s: string, fuel: nat): Outcome {
    Iterate(Step, s, fuel)
  }

  /** The final step: cut from the first `<defs>` to just past the first `</defs>`
      (both searched from the start of the text). */
  function CutDefs(s: string): string {
    var i := IndexOf(s, DefsOpen, 0);
    if i < 0 then s
    else
      var j := IndexOf(s, DefsClose, 0);
      s[..i] + s[j + 7..]
  }

  /** The two deletions, in the source's order: empty path data, then the declaration. */
  function Strip(xml: string): string {
    Replace(Replace(xml, EmptyPathData, ""), XmlDeclaration, "")
  }

  /** fixSvgResults as a function of its input and the step bound. */
  function FixSvg(xml: string, fuel: nat): Outcome {
    match Inline(Strip(xml), fuel)
    case Done(t) => Done(CutDefs(t))
    case other => other
  }

  /** fixSvgResults: the rewrite loop reassigns the text until no `<use>` element matches. */
  method FixSvgResults(xml: string, fuel: nat) returns (r: Outcome)
    ensures r == FixSvg(xml, fuel)
  {
    var s := Replace(xml, EmptyPathData, "");
    s := Replace(s, XmlDeclaration, "");
    var left := fuel;
    while true
      invariant Inline(s, left) == Inline(Strip(xml), fuel)
      decreases left
    {
      var m := FindUse(s, 0);
      if m.None? {
        break;
      }
      var expanded := ExpandAt(s, m.value);
      if expanded.None? {
        return Crashed;
      }
      assert Step(s) == Next(expanded.value);
      if left == 0 {
        return OutOfFuel;
      }
      s, left := expanded.value, left - 1;
    }
    r := Done(CutDefs(s));
  }

  /** A loop that finished ended on a text where the step says stop. */
  lemma {:induction false} IterateDoneStops(step: string -> StepResult, s: string, fuel: nat)
    requires Iterate(step, s, fuel).Done?
    ensures step(Iterate(step, s, fuel).text) == Stop
    decreases fuel
  {
    if step(s).Next? {
      IterateDoneStops(step, step(s).text, fuel - 1);
    }
  }

  /** The loop only exits when no `<use>` element with well-formed groups is left. */
  lemma InlineLeavesNoUse(s: string, fuel: nat)
    requires Inline(s, fuel).Done?
    ensures forall k: nat, g, x, y :: GroupText(g) && GroupText(x) && GroupText(y) ==>
              !OccursAt(Inline(s, fuel).text, UseElement(g, x, y), k)
  {
    IterateDoneStops(Step, s, fuel);
    NoUseLeft(Inline(s, fuel).text);
  }

  /** A loop that finished either stopped on this text, or took one rewrite step and
      finished from the rewritten text with one pass fewer. */
  lemma InlineUnfold(s: string, fuel: nat)
    requires Inline(s, fuel).Done?
    ensures Step(s) == Stop ==> Inline(s, fuel).text == s
    ensures Step(s) != Stop ==>
              Step(s).Next? && fuel > 0 && Inline(s, fuel) == Inline(Step(s).text, fuel - 1)
  {
  }

  /** When the search finds nothing, no `<use>` element with well-formed groups occurs. */
  lemma NoUseLeft(s: string)
    requires FindUse(s, 0).None?
    ensures forall k: nat, g, x, y :: GroupText(g) && GroupText(x) && GroupText(y) ==>
              !OccursAt(s, UseElement(g, x, y), k)
  {
    FindUseLeftmost(s, 0);
    forall k: nat, g, x, y | GroupText(g) && GroupText(x) && GroupText(y)
      ensures !OccursAt(s, UseElement(g, x, y), k)
    {
      if OccursAt(s, UseElement(g, x, y), k) {
        MatchAtComplete(s, k, g, x, y);
      }
    }
  }

  /** A loop that finished, or threw, within its bound does the same under any larger
      bound: the bound only cuts off loops that have not ended yet. */
  lemma {:induction false} IterateFuelMonotone(step: string -> StepResult, s: string, fuel: nat, more: nat)
    requires !Iterate(step, s, fuel).OutOfFuel? && fuel <= more
    ensures Iterate(step, s, more) == Iterate(step, s, fuel)
    decreases fuel
  {
    match step(s)
    case Next(t) =>
      if fuel > 0 {
        IterateFuelMonotone(step, t, fuel - 1, more - 1);
      }
    case _ =>
  }

  /** The first `<defs>` through the end of the first `</defs>` is removed, when the
      closing tag comes after the opening one. */
  lemma CutDefsRemovesBlock(s: string, i: nat, j: nat)
    requires FirstFrom(s, DefsOpen, 0, i) && FirstFrom(s, DefsClose, 0, j) && i <= j
    ensures CutDefs(s) == s[..i] + s[j + |DefsClose|..]
    ensures |CutDefs(s)| == |s| - (j + |DefsClose| - i)
  {
    IndexOfIs(s, DefsOpen, 0, i);
    IndexOfIs(s, DefsClose, 0, j);
  }

  /** Without `<defs>` the final step leaves the text unchanged. */
  lemma CutDefsAbsent(s: string)
    requires forall k :: !OccursAt(s, DefsOpen, k)
    ensures CutDefs(s) == s
  {
    IndexOfAbsent(s, DefsOpen, 0);
  }

  /** As written, an unclosed `<defs>` makes the final step keep everything from offset 6
      on, after the text before `<defs>`: the text between offset 6 and `<defs>` appears twice. */
  lemma CutDefsUnclosed(s: string, i: nat)
    requires FirstFrom(s, DefsOpen, 0, i)
    requires forall k :: !OccursAt(s, DefsClose, k)
    ensures CutDefs(s) == s[..i] + s[|DefsOpen|..]
  {
    IndexOfIs(s, DefsOpen, 0, i);
    IndexOfAbsent(s, DefsClose, 0);
  }

  /** Markup that is already normalised (no empty path data, no declaration, no `<use>`
      element, no `<defs>`) is returned byte for byte. */
  lemma FixSvgIdentity(xml: string, fuel: nat)
    requires forall k :: !OccursAt(xml, EmptyPathData, k)
    requires forall k :: !OccursAt(xml, XmlDeclaration, k)
    requires forall k: nat, g, x, y :: GroupText(g) && GroupText(x) && GroupText(y) ==>
               !OccursAt(xml, UseElement(g, x, y), k)
    requires forall k :: !OccursAt(xml, DefsOpen, k)
    ensures FixSvg(xml, fuel) == Done(xml)
  {
    ReplaceAbsent(xml, EmptyPathData, "");
    ReplaceAbsent(xml, XmlDeclaration, "");
    forall k: nat ensures MatchAt(xml, k).None? {
      if MatchAt(xml, k).Some? {
        MatchAtSound(xml, k);
      }
    }
    FindUseLeftmost(xml, 0);
    CutDefsAbsent(xml);
  }

  /** Wherever a pattern occurs, each of its characters occurs. */
  lemma CharOccurs(s: string, pat: string, i: nat)
    requires i < |pat|
    ensures forall k :: OccursAt(s, pat, k) ==> pat[i] in s
  {
    forall k | OccursAt(s, pat, k) ensures pat[i] in s {
      assert s[k + i] == s[k..k + |pat|][i];
    }
  }

  /** The one-element document `<use xlink:href="#a" x="1" y="2"/>`. */
  const LoneUse: string := UseElement("a", "1", "2")

  /** The document has nothing to strip. */
  lemma LoneUseStrip()
    ensures Strip(LoneUse) == LoneUse
  {
    CharOccurs(LoneUse, EmptyPathData, 0);
    CharOccurs(LoneUse, XmlDeclaration, 1);
    assert 'd' !in LoneUse && '?' !in LoneUse;
    ReplaceAbsent(LoneUse, EmptyPathData, "");
    ReplaceAbsent(LoneUse, XmlDeclaration, "");
  }

  /** The document's only match spans all of it. */
  lemma LoneUseFind()
    ensures FindUse(LoneUse, 0) == Some(UseMatch(0, |LoneUse|, "a", "1", "2"))
  {
    assert GroupText("a") && GroupText("1") && GroupText("2");
    assert OccursAt(LoneUse, UseElement("a", "1", "2"), 0);
    MatchAtComplete(LoneUse, 0, "a", "1", "2");
  }

  /** The glyph id first occurs right after the opening literal. */
  lemma LoneUseGlyph()
    ensures FirstFrom(LoneUse, "a", 0, |UseOpen|)
  {
    var gi := |UseOpen|;
    assert LoneUse[..gi] == UseOpen && 'a' !in UseOpen;
    forall k | 0 <= k < gi ensures !OccursAt(LoneUse, "a", k) {
      assert LoneUse[k] == UseOpen[k] != 'a';
      assert LoneUse[k..k + 1][0] == LoneUse[k];
    }
    assert LoneUse[gi] == 'a';
  }

  /** No `<path` occurs anywhere in the document. */
  lemma LoneUseNoPath()
    ensures forall k :: !OccursAt(LoneUse, PathOpen, k)
  {
    CharOccurs(LoneUse, PathOpen, 1);
    assert 'p' !in LoneUse;
  }

  /** A `<use>` element whose glyph has no `<path` after it makes the rewrite throw:
      `indexOf("<path", gi)` is -1 and `substring(-1, ...)` fails. So the rewrite can throw on
      a document of one element. */
  lemma LoneUseThrows(fuel: nat)
    ensures FixSvg(LoneUse, fuel) == Crashed
  {
    LoneUseStrip();
    LoneUseFind();
    LoneUseGlyph();
    LoneUseNoPath();
    var m := UseMatch(0, |LoneUse|, "a", "1", "2");
    ExpandAtNoPath(LoneUse, m, |UseOpen|);
    assert Step(LoneUse) == Throw;
  }
}
