/** What normalizePublicText does to a text: each gap becomes what it is worth, everything else stays. */
module PublicText {
  import opened Prelude
  import opened Citation

  /** Blanks and line ends; other white space is text. */
  predicate Gap(c: char) {
    c == ' ' || c == '\t' || c == '\r' || c == '\n'
  }

  /** Line ends among the characters: a newline, or a return without a newline behind it. */
  function LineEnds(s: string): nat {
    if s == "" then 0
    else (if s[0] == '\n' || (s[0] == '\r' && (|s| == 1 || s[1] != '\n')) then 1 else 0) + LineEnds(s[1..])
  }

  /** A gap without a line end is worth a space, with one a newline, with more an empty line. */
  function GapText(gap: string): string {
    if LineEnds(gap) == 0 then " " else if LineEnds(gap) == 1 then "\n" else "\n\n"
  }

  /** How many characters of a gap stand in front. */
  function GapLength(s: string): (n: nat)
    ensures n <= |s| && (forall i :: 0 <= i < n ==> Gap(s[i])) && (n < |s| ==> !Gap(s[n]))
  {
    if s == "" || !Gap(s[0]) then 0 else 1 + GapLength(s[1..])
  }

  /** The text with every gap replaced by its worth. */
  function Regapped(s: string): string
    decreases |s|
  {
    if s == "" then ""
    else if !Gap(s[0]) then [s[0]] + Regapped(s[1..])
    else GapText(s[..GapLength(s)]) + Regapped(s[GapLength(s)..])
  }

  function Stages(s: string): string {
    LimitNewlines(TrimLines(CollapseBlanks(UnifyNewlines(s))))
  }

  // ---------------------------------------------------------------- characters that are no gap

  predicate StartsText(s: string) {
    s == "" || !Gap(s[0])
  }

  predicate AllGap(s: string) {
    forall i :: 0 <= i < |s| ==> Gap(s[i])
  }

  lemma TextStays(c: char, s: string)
    requires !Gap(c)
    ensures Stages([c] + s) == [c] + Stages(s)
  {
    assert ([c] + s)[1..] == s;
    var u, v := UnifyNewlines(s), CollapseBlanks(UnifyNewlines(s));
    assert ([c] + u)[1..] == u && ([c] + v)[1..] == v;
    var w := TrimLines(v);
    assert ([c] + w)[1..] == w;
  }

  // ---------------------------------------------------------------- a gap, stage by stage

  function Newlines(k: nat): (s: string)
    ensures |s| == k && forall i :: 0 <= i < k ==> s[i] == '\n'
  {
    seq(k, _ => '\n')
  }

  /** Spaces and newlines only, no two spaces next to each other: a gap after two stages. */
  ghost predicate Spaced(s: string) {
    && (forall i :: 0 <= i < |s| ==> s[i] == ' ' || s[i] == '\n')
    && (forall i, j :: 0 <= i && j == i + 1 && j < |s| ==> !(s[i] == ' ' && s[j] == ' '))
  }

  predicate NoReturns(s: string) {
    forall i :: 0 <= i < |s| ==> s[i] == ' ' || s[i] == '\t' || s[i] == '\n'
  }

  lemma {:induction false} UnifyAppends(g: string, rest: string)
    requires AllGap(g) && StartsText(rest)
    ensures UnifyNewlines(g + rest) == UnifyNewlines(g) + UnifyNewlines(rest)
    decreases |g|
  {
    if g == "" {
      assert g + rest == rest;
    } else if g[0] == '\r' && |g| > 1 && g[1] == '\n' {
      assert (g + rest)[0] == g[0] && (g + rest)[1] == g[1] && (g + rest)[2..] == g[2..] + rest;
      UnifyAppends(g[2..], rest);
      assert "\n" + (UnifyNewlines(g[2..]) + UnifyNewlines(rest)) == "\n" + UnifyNewlines(g[2..]) + UnifyNewlines(rest);
    } else {
      assert (g + rest)[0] == g[0] && (g + rest)[1..] == g[1..] + rest;
      if |g| > 1 { assert (g + rest)[1] == g[1]; } else { assert rest != "" ==> (g + rest)[1] == rest[0]; }
      UnifyAppends(g[1..], rest);
      var first := if g[0] == '\r' then "\n" else [g[0]];
      assert first + (UnifyNewlines(g[1..]) + UnifyNewlines(rest)) == first + UnifyNewlines(g[1..]) + UnifyNewlines(rest);
    }
  }

  lemma {:induction false} UnifiedGap(g: string)
    requires AllGap(g)
    ensures NoReturns(UnifyNewlines(g)) && LineEnds(UnifyNewlines(g)) == LineEnds(g) && (g != "" ==> UnifyNewlines(g) != "")
    decreases |g|
  {
    if g == "" {
    } else if g[0] == '\r' && |g| > 1 && g[1] == '\n' {
      UnifiedGap(g[2..]);
      assert g[1..][0] == '\n' && g[1..][1..] == g[2..];
      LineEndsCons('\n', UnifyNewlines(g[2..]));
    } else {
      UnifiedGap(g[1..]);
      LineEndsCons(if g[0] == '\r' then '\n' else g[0], UnifyNewlines(g[1..]));
    }
  }

  lemma LineEndsCons(c: char, s: string)
    requires c != '\r'
    ensures LineEnds([c] + s) == (if c == '\n' then 1 else 0) + LineEnds(s)
  {
    assert ([c] + s)[1..] == s;
  }

  lemma {:induction false} DropBlanksGap(g: string, rest: string)
    requires NoReturns(g) && StartsText(rest)
    ensures DropBlanks(g + rest) == DropBlanks(g) + rest && NoReturns(DropBlanks(g)) && LineEnds(DropBlanks(g)) == LineEnds(g)
    decreases |g|
  {
    if g == "" {
      assert g + rest == rest && DropBlanks(rest) == rest;
    } else if Citation.Blank(g[0]) {
      assert (g + rest)[1..] == g[1..] + rest;
      DropBlanksGap(g[1..], rest);
    }
  }

  lemma {:induction false} CollapseAppends(g: string, rest: string)
    requires NoReturns(g) && StartsText(rest)
    ensures CollapseBlanks(g + rest) == CollapseBlanks(g) + CollapseBlanks(rest)
    decreases |g|
  {
    if g == "" {
      assert g + rest == rest;
    } else if Citation.Blank(g[0]) {
      DropBlanksGap(g, rest);
      CollapseAppends(DropBlanks(g), rest);
    } else {
      assert (g + rest)[1..] == g[1..] + rest;
      CollapseAppends(g[1..], rest);
    }
  }

  lemma {:induction false} CollapsedGap(g: string)
    requires NoReturns(g)
    ensures var r := CollapseBlanks(g);
            && Spaced(r) && LineEnds(r) == LineEnds(g) && (g != "" ==> r != "")
            && (r != "" && r[0] == ' ' ==> g != "" && Citation.Blank(g[0]))
    decreases |g|
  {
    if g == "" {
    } else if Citation.Blank(g[0]) {
      DropBlanksGap(g, "");
      assert g + "" == g && DropBlanks(g) + "" == DropBlanks(g);
      CollapsedGap(DropBlanks(g));
      SpacedCons(' ', CollapseBlanks(DropBlanks(g)));
      LineEndsCons(' ', CollapseBlanks(DropBlanks(g)));
    } else {
      CollapsedGap(g[1..]);
      SpacedCons(g[0], CollapseBlanks(g[1..]));
      LineEndsCons(g[0], CollapseBlanks(g[1..]));
    }
  }

  lemma SpacedCons(c: char, s: string)
    requires Spaced(s) && (c == '\n' || (c == ' ' && (s == "" || s[0] != ' ')))
    ensures Spaced([c] + s)
  {
    var t := [c] + s;
    forall i, j | 0 <= i && j == i + 1 && j < |t| ensures !(t[i] == ' ' && t[j] == ' ') {
      if i > 0 { assert t[i] == s[i - 1] && t[j] == s[j - 1]; }
    }
  }

  /** Without a newline in it, a spaced gap is one space. */
  lemma SpacedWithoutNewline(g: string)
    requires Spaced(g) && g != "" && LineEnds(g) == 0
    ensures g == " "
  {
  }

  /** After at most one space stands a newline, or the gap is over. */
  lemma SpacedDrop(g: string, rest: string)
    requires Spaced(g) && StartsText(rest)
    ensures var d := DropSpaces(g);
            && DropSpaces(g + rest) == d + rest && Spaced(d) && LineEnds(d) == LineEnds(g) && |d| <= |g|
            && (d != "" ==> d[0] == '\n') && (d == "" <==> LineEnds(g) == 0)
  {
    if g == "" {
      assert g + rest == rest;
    } else if g[0] == ' ' {
      assert (g + rest)[1..] == g[1..] + rest;
      if |g| > 1 { assert !(g[0] == ' ' && g[1] == ' '); } else { assert g[1..] + rest == rest; }
      assert DropSpaces(g[1..]) == g[1..];
    }
  }

  /** One match of the third replacement: any spaces, a newline, any spaces. */
  lemma TrimStep(g: string, rest: string) returns (e: string)
    requires Spaced(g) && StartsText(rest) && LineEnds(g) > 0
    ensures TrimLines(g + rest) == "\n" + TrimLines(e + rest)
    ensures Spaced(e) && |e| < |g| && LineEnds(e) == LineEnds(g) - 1 && (e == "" <==> LineEnds(e) == 0)
  {
    SpacedDrop(g, rest);
    var d := DropSpaces(g);
    assert (d + rest)[1..] == d[1..] + rest && LineEnds(d) == 1 + LineEnds(d[1..]);
    SpacedTail(d);
    SpacedDrop(d[1..], rest);
    e := DropSpaces(d[1..]);
  }

  lemma {:induction false} TrimGap(g: string, rest: string)
    requires Spaced(g) && StartsText(rest) && LineEnds(g) > 0
    ensures TrimLines(g + rest) == Newlines(LineEnds(g)) + TrimLines(rest)
    decreases |g|
  {
    var e := TrimStep(g, rest);
    if e == "" {
      assert e + rest == rest && "\n" == Newlines(1);
    } else {
      TrimGap(e, rest);
      NewlinesCons(LineEnds(e), TrimLines(rest));
    }
  }

  lemma NewlinesCons(k: nat, t: string)
    ensures "\n" + (Newlines(k) + t) == Newlines(k + 1) + t
  {
  }

  lemma SpacedTail(d: string)
    requires Spaced(d) && d != ""
    ensures Spaced(d[1..])
  {
    var t := d[1..];
    forall i, j | 0 <= i && j == i + 1 && j < |t| ensures !(t[i] == ' ' && t[j] == ' ') { assert !(d[i + 1] == ' ' && d[j + 1] == ' '); }
  }

  lemma {:induction false} DropNewlinesGap(k: nat, rest: string)
    requires StartsText(rest)
    ensures DropNewlines(Newlines(k) + rest) == rest
  {
    if k == 0 {
      assert Newlines(0) + rest == rest;
    } else {
      assert (Newlines(k) + rest)[1..] == Newlines(k - 1) + rest;
      DropNewlinesGap(k - 1, rest);
    }
  }

  lemma LimitGap(k: nat, rest: string)
    requires StartsText(rest) && k > 0
    ensures LimitNewlines(Newlines(k) + rest) == (if k == 1 then "\n" else "\n\n") + LimitNewlines(rest)
  {
    var s := Newlines(k) + rest;
    if k >= 3 {
      assert StartsWithThree(s);
      DropNewlinesGap(k, rest);
    } else if k == 2 {
      assert s[1..] == Newlines(1) + rest;
      LimitGap(1, rest);
      assert "\n" + ("\n" + LimitNewlines(rest)) == "\n\n" + LimitNewlines(rest);
    } else {
      assert s[1..] == rest;
    }
  }

  lemma StagesKeepTextStart(s: string)
    requires StartsText(s)
    ensures StartsText(UnifyNewlines(s)) && StartsText(CollapseBlanks(UnifyNewlines(s)))
    ensures StartsText(TrimLines(CollapseBlanks(UnifyNewlines(s))))
  {
  }

  /** The four replacements make of a gap what it is worth, whatever follows it. */
  lemma GapIsReplaced(g: string, rest: string)
    requires AllGap(g) && g != "" && StartsText(rest)
    ensures Stages(g + rest) == GapText(g) + Stages(rest)
  {
    var u, ur := UnifyNewlines(g), UnifyNewlines(rest);
    UnifyAppends(g, rest);
    UnifiedGap(g);
    StagesKeepTextStart(rest);
    CollapseAppends(u, ur);
    CollapsedGap(u);
    var c, cr := CollapseBlanks(u), CollapseBlanks(ur);
    if LineEnds(g) == 0 {
      SpacedWithoutNewline(c);
      SpaceStays(cr);
    } else {
      TrimGap(c, cr);
      LimitGap(LineEnds(g), TrimLines(cr));
    }
  }

  lemma SpaceStays(rest: string)
    requires StartsText(rest)
    ensures LimitNewlines(TrimLines(" " + rest)) == " " + LimitNewlines(TrimLines(rest))
  {
    assert (" " + rest)[1..] == rest && DropSpaces(" " + rest) == rest;
    assert (" " + TrimLines(rest))[1..] == TrimLines(rest);
  }

  lemma {:induction false} StagesRegap(s: string)
    ensures Stages(s) == Regapped(s)
    decreases |s|
  {
    if s != "" {
      if Gap(s[0]) {
        var n := GapLength(s);
        assert s == s[..n] + s[n..];
        StagesRegap(s[n..]);
        GapIsReplaced(s[..n], s[n..]);
      } else {
        assert s == [s[0]] + s[1..];
        StagesRegap(s[1..]);
        TextStays(s[0], s[1..]);
      }
    }
  }

  /** Normalising is replacing every gap by its worth, and trimming. */
  lemma NormalizingRegaps(s: string)
    ensures NormalizePublicText(s) == Trim(Regapped(s))
  {
    StagesRegap(s);
  }

  // ---------------------------------------------------------------- what a reader still sees

  /** The characters that are no white space, in order. */
  function Visible(s: string): string {
    if s == "" then "" else (if IsSpace(s[0]) then "" else [s[0]]) + Visible(s[1..])
  }

  lemma {:induction false} VisibleAppend(s: string, t: string)
    ensures Visible(s + t) == Visible(s) + Visible(t)
  {
    if s == "" {
      assert s + t == t;
    } else {
      assert (s + t)[1..] == s[1..] + t;
      VisibleAppend(s[1..], t);
    }
  }

  lemma {:induction false} SpaceIsInvisible(s: string)
    requires forall i :: 0 <= i < |s| ==> IsSpace(s[i])
    ensures Visible(s) == ""
  {
    if s != "" { SpaceIsInvisible(s[1..]); }
  }

  lemma {:induction false} RegappingKeepsVisible(s: string)
    ensures Visible(Regapped(s)) == Visible(s)
    decreases |s|
  {
    if s != "" {
      if Gap(s[0]) {
        var n := GapLength(s);
        RegappingKeepsVisible(s[n..]);
        SpaceIsInvisible(s[..n]);
        SpaceIsInvisible(GapText(s[..n]));
        VisibleAppend(s[..n], s[n..]);
        VisibleAppend(GapText(s[..n]), Regapped(s[n..]));
        assert s == s[..n] + s[n..];
      } else {
        RegappingKeepsVisible(s[1..]);
        assert ([s[0]] + Regapped(s[1..]))[1..] == Regapped(s[1..]);
      }
    }
  }

  /** No visible character is lost, added or moved. */
  lemma NormalizingKeepsVisible(s: string)
    ensures Visible(NormalizePublicText(s)) == Visible(s)
  {
    NormalizingRegaps(s);
    RegappingKeepsVisible(s);
    var t := Regapped(s);
    var l, r := TrimCuts(t);
    VisibleAppend(l + Trim(t), r);
    VisibleAppend(l, Trim(t));
    SpaceIsInvisible(l);
    SpaceIsInvisible(r);
  }
}
