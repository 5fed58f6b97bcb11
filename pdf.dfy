/**
 * The document builder of the backend: the two plain-text templates, the
 * placeholder filler, the greedy word wrapper that lays the filled text out
 * line by line, and the page assembly that picks title and template by
 * document type and optionally adds the "preview" watermark.
 *
 * ReportLab's canvas is modelled as the log of drawing operations issued on
 * it; the PDF bytes it would produce are not modelled. ReportLab's
 * `stringWidth` for Helvetica at 11 points is an abstract parameter `width`.
 */
module PdfUtils {
  import opened Wrappers
  import opened Text

  // ReportLab's LETTER page size and its inch, in points.
  const PageWidth: real := 612.0
  const PageHeight: real := 792.0
  const Inch: real := 72.0

  const WillTitle: string := "Last Will and Testament"
  const PoaTitle: string := "Power of Attorney"

  const WillTemplate: string :=
    "Last Will and Testament\n\n"
    + "I, {{full_name}}, born on {{dob}}, residing at {{address}}, declare this to be my Last Will and Testament, executed on {{execution_date}}.\n\n"
    + "Beneficiaries: {{beneficiaries}}.\n"
    + "Executor: {{executor}}.\n\n"
    + "Further Provisions: {{provisions}}\n\n"
    + "Signed: __________________________\n"

  const PoaTemplate: string :=
    "Power of Attorney\n\n"
    + "I, {{principal_name}}, of {{principal_address}}, appoint {{attorney_name}} of {{attorney_address}} as my Attorney-in-Fact.\n\n"
    + "Scope of authority: {{scope}}. Effective on {{effective_date}}.\n\n"
    + "Additional terms: {{additional_terms}}\n\n"
    + "Principal Signature: __________________________\n"

  /** The default watermark text, whose dash is stored as three mis-decoded characters. */
  const DefaultWatermark: string := "PREVIEW \U{00E2}\U{20AC}\U{201C} Not for Download"

  /** The placeholder `{{key}}` that stands for `key` in a template. */
  function Placeholder(key: string): string {
    "{{" + key + "}}"
  }

  // ---------------------------------------------------------------------
  // Template filling
  // ---------------------------------------------------------------------

  /**
   * Python's `s.replace(pat, rep)`: every occurrence of `pat`, found scanning
   * left to right and never overlapping the previous one, is replaced.
   * Placeholders are never empty, so neither is `pat`.
   */
  function ReplaceAll(s: string, pat: string, rep: string): string
    requires pat != ""
  {
    ReplaceFrom(s, pat, rep, 0)
  }

  /** The scan of `ReplaceAll` from index `k` of `s` on. */
  function ReplaceFrom(s: string, pat: string, rep: string, k: nat): string
    requires pat != "" && k <= |s|
    decreases |s| - k
  {
    if |s| - k < |pat| then s[k..]
    else if s[k..k + |pat|] == pat then rep + ReplaceFrom(s, pat, rep, k + |pat|)
    else [s[k]] + ReplaceFrom(s, pat, rep, k + 1)
  }

  /** With no occurrence from `k` on, the rest of the string is kept. */
  lemma {:induction false} ReplaceFromNone(s: string, pat: string, rep: string, k: nat)
    requires pat != "" && k <= |s|
    requires forall j :: k <= j <= |s| ==> !OccursAt(s, pat, j)
    ensures ReplaceFrom(s, pat, rep, k) == s[k..]
    decreases |s| - k
  {
    if |s| - k >= |pat| {
      assert !OccursAt(s, pat, k);
      ReplaceFromNone(s, pat, rep, k + 1);
      assert s[k..] == [s[k]] + s[k + 1..];
    }
  }

  /** Where the pattern does not start at `k`, the character at `k` is copied in front of the rest of the scan. */
  lemma ReplaceFromSkip(s: string, pat: string, rep: string, k: nat, i: nat, after: string)
    requires pat != "" && k < i <= |s| && k + |pat| <= |s| && !OccursAt(s, pat, k)
    requires ReplaceFrom(s, pat, rep, k + 1) == s[k + 1..i] + rep + after
    ensures ReplaceFrom(s, pat, rep, k) == s[k..i] + rep + after
  {
    var middle := s[k + 1..i];
    assert s[k..i] == [s[k]] + middle;
    assert ([s[k]] + middle) + rep + after == [s[k]] + (middle + rep + after);
  }

  /**
   * With the first occurrence from `k` on at `i`, what precedes it is kept,
   * the replacement follows, and the scan resumes after the occurrence.
   */
  lemma {:induction false} ReplaceFromFirst(s: string, pat: string, rep: string, k: nat, i: nat)
    requires pat != "" && k <= i && OccursAt(s, pat, i)
    requires forall j :: k <= j < i ==> !OccursAt(s, pat, j)
    ensures ReplaceFrom(s, pat, rep, k) == s[k..i] + rep + ReplaceFrom(s, pat, rep, i + |pat|)
    decreases i - k
  {
    if k < i {
      ReplaceFromFirst(s, pat, rep, k + 1, i);
      ReplaceFromSkip(s, pat, rep, k, i, ReplaceFrom(s, pat, rep, i + |pat|));
    } else {
      assert s[k..i] == [];
    }
  }

  /**
   * The way `str.replace` is usually described: find the leftmost occurrence,
   * keep what precedes it, emit the replacement and carry on after the
   * occurrence; with no occurrence the string is kept.
   */
  lemma ReplaceAllFind(s: string, pat: string, rep: string)
    requires pat != ""
    ensures match Find(s, pat)
      case None => ReplaceAll(s, pat, rep) == s
      case Some(i) => ReplaceAll(s, pat, rep) == s[..i] + rep + ReplaceFrom(s, pat, rep, i + |pat|)
  {
    match Find(s, pat)
    case None =>
      ReplaceFromNone(s, pat, rep, 0);
    case Some(i) =>
      ReplaceFromFirst(s, pat, rep, 0, i);
  }

  /** A string in which the pattern does not occur is left as it is. */
  lemma ReplaceAbsent(s: string, pat: string, rep: string)
    requires pat != "" && !Contains(s, pat)
    ensures ReplaceAll(s, pat, rep) == s
  {
    ReplaceFromNone(s, pat, rep, 0);
  }

  /** Replacing a pattern by itself changes nothing. */
  lemma {:induction false} ReplaceSelf(s: string, pat: string, k: nat)
    requires pat != "" && k <= |s|
    ensures ReplaceFrom(s, pat, pat, k) == s[k..]
    decreases |s| - k
  {
    if |s| - k >= |pat| {
      if s[k..k + |pat|] == pat {
        ReplaceSelf(s, pat, k + |pat|);
        assert s[k..] == s[k..k + |pat|] + s[k + |pat|..];
      } else {
        ReplaceSelf(s, pat, k + 1);
        assert s[k..] == [s[k]] + s[k + 1..];
      }
    }
  }

  /** `fill_template`: the placeholder of each key, in the mapping's order, replaced by its value. */
  function Fill(template: string, data: seq<(string, string)>): string
    decreases |data|
  {
    if |data| == 0 then template
    else Fill(ReplaceAll(template, Placeholder(data[0].0), data[0].1), data[1..])
  }

  /** `fill_template` as written: the output string reassigned once per key. */
  method FillTemplate(template: string, data: seq<(string, string)>) returns (out: string)
    ensures out == Fill(template, data)
    ensures data == [] ==> out == template
  {
    out := template;
    for i := 0 to |data|
      invariant Fill(out, data[i..]) == Fill(template, data)
    {
      var (key, value) := data[i];
      assert data[i..][1..] == data[i + 1..];
      out := ReplaceAll(out, Placeholder(key), value);
    }
    assert data[|data|..] == [];
  }

  /** Filling with the pairs of `a` and then those of `b` is filling with `a + b`. */
  lemma {:induction false} FillAppend(template: string, a: seq<(string, string)>, b: seq<(string, string)>)
    ensures Fill(template, a + b) == Fill(Fill(template, a), b)
    decreases |a|
  {
    if |a| == 0 {
      assert a + b == b;
    } else {
      assert (a + b)[1..] == a[1..] + b;
      FillAppend(ReplaceAll(template, Placeholder(a[0].0), a[0].1), a[1..], b);
    }
  }

  /** A placeholder occurs only where `{{` does. */
  lemma PlaceholderNeedsBraces(s: string, key: string)
    ensures Contains(s, Placeholder(key)) ==> Contains(s, "{{")
  {
    var p := Placeholder(key);
    if Contains(s, p) {
      var i := Find(s, p).value;
      assert s[i..i + 2] == s[i..i + |p|][..2] == "{{";
      assert OccursAt(s, "{{", i);
    }
  }

  /** A template without `{{` comes back unchanged whatever the data. */
  lemma {:induction false} FillWithoutBraces(template: string, data: seq<(string, string)>)
    requires !Contains(template, "{{")
    ensures Fill(template, data) == template
    decreases |data|
  {
    if |data| > 0 {
      PlaceholderNeedsBraces(template, data[0].0);
      ReplaceAbsent(template, Placeholder(data[0].0), data[0].1);
      FillWithoutBraces(template, data[1..]);
    }
  }

  // ---------------------------------------------------------------------
  // Greedy word wrap
  // ---------------------------------------------------------------------

  /**
   * The lines the greedy breaker emits for the words `ws` while the line
   * being built holds `current`: a word joins the line when the stripped
   * trial line is narrower than `maxWidth`, and otherwise the line is emitted
   * and the word starts the next one. The last line is `current` as it ends.
   */
  function Wrap(ws: seq<string>, current: string, width: string -> real, maxWidth: real): (lines: seq<string>)
    ensures |lines| >= 1
    decreases |ws|
  {
    if |ws| == 0 then [current]
    else
      var trial := Trial(current, ws[0]);
      if width(trial) < maxWidth then Wrap(ws[1..], trial, width, maxWidth)
      else [current] + Wrap(ws[1..], ws[0], width, maxWidth)
  }

  /** The line tried when the word `w` is offered to the line `current`. */
  function Trial(current: string, w: string): string {
    Strip(current + " " + w)
  }

  /** The lines of one paragraph, followed by the empty spacing line. */
  function ParagraphLines(paragraph: string, width: string -> real, maxWidth: real): seq<string> {
    Wrap(Words(paragraph), "", width, maxWidth) + [""]
  }

  function LinesOf(paragraphs: seq<string>, width: string -> real, maxWidth: real): seq<string>
    decreases |paragraphs|
  {
    if |paragraphs| == 0 then []
    else ParagraphLines(paragraphs[0], width, maxWidth) + LinesOf(paragraphs[1..], width, maxWidth)
  }

  /** All lines of a text whose paragraphs are separated by line feeds. */
  function Lines(text: string, width: string -> real, maxWidth: real): seq<string> {
    LinesOf(SplitOn(text, '\n'), width, maxWidth)
  }

  /** One word offered to the line being built, with the lines already emitted in front. */
  lemma WrapStep(done: seq<string>, ws: seq<string>, current: string, width: string -> real, maxWidth: real)
    requires |ws| > 0
    ensures width(Trial(current, ws[0])) < maxWidth ==>
      done + Wrap(ws, current, width, maxWidth) == done + Wrap(ws[1..], Trial(current, ws[0]), width, maxWidth)
    ensures width(Trial(current, ws[0])) >= maxWidth ==>
      done + Wrap(ws, current, width, maxWidth) == (done + [current]) + Wrap(ws[1..], ws[0], width, maxWidth)
  {
  }

  /** The inner loop of `draw_multiline_text`: one paragraph broken into lines. */
  method WrapParagraph(paragraph: string, width: string -> real, maxWidth: real) returns (lines: seq<string>)
    ensures lines == ParagraphLines(paragraph, width, maxWidth)
  {
    var words := Words(paragraph);
    var rest, current := words, "";
    lines := [];
    while rest != []
      invariant lines + Wrap(rest, current, width, maxWidth) == Wrap(words, "", width, maxWidth)
      decreases |rest|
    {
      var w := rest[0];
      var trial := Trial(current, w);
      WrapStep(lines, rest, current, width, maxWidth);
      if width(trial) < maxWidth {
        current := trial;
      } else {
        lines := lines + [current];
        current := w;
      }
      rest := rest[1..];
    }
    lines := lines + [current];
    lines := lines + [""];
  }

  /** One paragraph's lines, with the lines of the paragraphs before it in front. */
  lemma LinesOfStep(done: seq<string>, paragraphs: seq<string>, width: string -> real, maxWidth: real)
    requires |paragraphs| > 0
    ensures done + LinesOf(paragraphs, width, maxWidth)
         == (done + ParagraphLines(paragraphs[0], width, maxWidth)) + LinesOf(paragraphs[1..], width, maxWidth)
  {
  }

  /** The outer loop of `draw_multiline_text`: every paragraph's lines in turn. */
  method BreakLines(text: string, width: string -> real, maxWidth: real) returns (lines: seq<string>)
    ensures lines == Lines(text, width, maxWidth)
  {
    var paragraphs := SplitOn(text, '\n');
    var rest := paragraphs;
    lines := [];
    while rest != []
      invariant lines + LinesOf(rest, width, maxWidth) == LinesOf(paragraphs, width, maxWidth)
      decreases |rest|
    {
      LinesOfStep(lines, rest, width, maxWidth);
      var paragraphLines := WrapParagraph(rest[0], width, maxWidth);
      lines := lines + paragraphLines;
      rest := rest[1..];
    }
  }

  /** Every paragraph gives at least one line and a spacing line. */
  lemma {:induction false} LinesOfCount(paragraphs: seq<string>, width: string -> real, maxWidth: real)
    ensures |LinesOf(paragraphs, width, maxWidth)| >= 2 * |paragraphs|
    decreases |paragraphs|
  {
    if |paragraphs| > 0 {
      LinesOfCount(paragraphs[1..], width, maxWidth);
    }
  }

  lemma LinesCount(text: string, width: string -> real, maxWidth: real)
    ensures |Lines(text, width, maxWidth)| >= 2 * |SplitOn(text, '\n')|
  {
    LinesOfCount(SplitOn(text, '\n'), width, maxWidth);
  }

  /** The non-empty strings of `xs`, in order. */
  function NonEmpty(xs: seq<string>): (ys: seq<string>)
    decreases |xs|
  {
    if |xs| == 0 then []
    else (if xs[0] == "" then [] else [xs[0]]) + NonEmpty(xs[1..])
  }

  predicate IsWord(w: string) {
    w != "" && NoSpace(w)
  }

  predicate AllWords(ws: seq<string>) {
    forall i :: 0 <= i < |ws| ==> IsWord(ws[i])
  }

  /** A line without leading or trailing whitespace. */
  predicate Unpadded(s: string) {
    s == "" || (!IsSpace(s[0]) && !IsSpace(s[|s| - 1]))
  }

  lemma {:induction false} NonEmptyOfWords(ws: seq<string>)
    requires AllWords(ws)
    ensures NonEmpty(ws) == ws
    decreases |ws|
  {
    if |ws| > 0 {
      NonEmptyOfWords(ws[1..]);
      assert ws == [ws[0]] + ws[1..];
    }
  }

  lemma NonEmptyCons(x: string, ys: seq<string>)
    ensures NonEmpty([x] + ys) == (if x == "" then [] else [x]) + NonEmpty(ys)
  {
    assert ([x] + ys)[1..] == ys;
  }

  lemma {:induction false} NonEmptyAppend(xs: seq<string>, ys: seq<string>)
    ensures NonEmpty(xs + ys) == NonEmpty(xs) + NonEmpty(ys)
    decreases |xs|
  {
    if |xs| == 0 {
      assert xs + ys == ys;
    } else {
      assert (xs + ys)[1..] == xs[1..] + ys;
      NonEmptyAppend(xs[1..], ys);
    }
  }

  lemma JoinCons(x: string, ys: seq<string>, sep: string)
    ensures Join([x] + ys, sep) == if ys == [] then x else x + sep + Join(ys, sep)
  {
    assert ([x] + ys)[1..] == ys;
  }

  /** A join whose first part is not empty is not empty. */
  lemma JoinNotEmpty(xs: seq<string>, sep: string)
    requires |xs| > 0 && xs[0] != ""
    ensures Join(xs, sep) != ""
  {
  }

  /** The trial line of the breaker, for an unpadded line and a word. */
  lemma TrialLine(current: string, w: string)
    requires Unpadded(current) && IsWord(w)
    ensures current == "" ==> Trial(current, w) == w
    ensures current != "" ==> Trial(current, w) == current + " " + w
    ensures Unpadded(Trial(current, w))
  {
    if current == "" {
      assert current + " " + w == " " + w;
      StripLeadingSpace(w);
    } else {
      var t := current + " " + w;
      assert t[0] == current[0] && t[|t| - 1] == w[|w| - 1];
      StripUnpadded(t);
    }
  }

  /** A word that joins the line being built leaves the joined words as they were. */
  lemma JoinWhenFits(current: string, w: string, rest: seq<string>, trial: string)
    requires IsWord(w) && AllWords(rest)
    requires current == "" ==> trial == w
    requires current != "" ==> trial == current + " " + w
    ensures Join(NonEmpty([trial] + rest), " ") == Join(NonEmpty([current] + ([w] + rest)), " ")
  {
    var ws := [w] + rest;
    assert AllWords(ws);
    NonEmptyOfWords(ws);
    NonEmptyOfWords(rest);
    NonEmptyCons(current, ws);
    NonEmptyCons(trial, rest);
    if current == "" {
      assert NonEmpty([current] + ws) == ws;
      assert NonEmpty([trial] + rest) == ws;
    } else {
      assert NonEmpty([current] + ws) == [current] + ws;
      assert NonEmpty([trial] + rest) == [trial] + rest;
      JoinCons(trial, rest, " ");
      JoinCons(w, rest, " ");
      JoinCons(current, ws, " ");
    }
  }

  /** A line ended before a word leaves the joined words as they were. */
  lemma JoinWhenBreaks(current: string, w: string, rest: seq<string>, tail: seq<string>)
    requires IsWord(w) && AllWords(rest)
    requires Join(NonEmpty(tail), " ") == Join(NonEmpty([w] + rest), " ")
    ensures Join(NonEmpty([current] + tail), " ") == Join(NonEmpty([current] + ([w] + rest)), " ")
  {
    var ws := [w] + rest;
    assert AllWords(ws);
    NonEmptyOfWords(ws);
    NonEmptyCons(current, tail);
    NonEmptyCons(current, ws);
    if current == "" {
      assert NonEmpty([current] + tail) == NonEmpty(tail);
      assert NonEmpty([current] + ws) == ws;
    } else {
      assert NonEmpty([current] + tail) == [current] + NonEmpty(tail);
      assert NonEmpty([current] + ws) == [current] + ws;
      JoinNotEmpty(ws, " ");
      assert NonEmpty(tail) != [];
      JoinCons(current, NonEmpty(tail), " ");
      JoinCons(current, ws, " ");
    }
  }

  /** The breaker keeps the words and their order: only line breaks are chosen. */
  lemma {:induction false} WrapJoin(ws: seq<string>, current: string, width: string -> real, maxWidth: real)
    requires AllWords(ws) && Unpadded(current)
    ensures Join(NonEmpty(Wrap(ws, current, width, maxWidth)), " ") == Join(NonEmpty([current] + ws), " ")
    decreases |ws|
  {
    if |ws| > 0 {
      var w, rest := ws[0], ws[1..];
      assert ws == [w] + rest;
      assert AllWords(rest) && IsWord(w);
      var trial := Trial(current, w);
      if width(trial) < maxWidth {
        TrialLine(current, w);
        WrapJoin(rest, trial, width, maxWidth);
        JoinWhenFits(current, w, rest, trial);
      } else {
        WrapJoin(rest, w, width, maxWidth);
        JoinWhenBreaks(current, w, rest, Wrap(rest, w, width, maxWidth));
      }
    }
  }

  /**
   * Within a paragraph, the non-empty lines joined by single spaces are the
   * paragraph's words joined by single spaces.
   */
  lemma ParagraphKeepsWords(paragraph: string, width: string -> real, maxWidth: real)
    ensures Join(NonEmpty(ParagraphLines(paragraph, width, maxWidth)), " ") == Join(Words(paragraph), " ")
  {
    var ws := Words(paragraph);
    var wrapped := Wrap(ws, "", width, maxWidth);
    WrapJoin(ws, "", width, maxWidth);
    NonEmptyAppend(wrapped, [""]);
    NonEmptyCons("", ws);
    NonEmptyOfWords(ws);
    assert NonEmpty([""]) == [];
    assert NonEmpty(wrapped + [""]) == NonEmpty(wrapped);
    assert NonEmpty([""] + ws) == ws;
  }

  /** A line is empty, a single word of the paragraph, or narrower than the limit. */
  predicate LineFits(line: string, ws: seq<string>, width: string -> real, maxWidth: real) {
    line == "" || line in ws || width(line) < maxWidth
  }

  lemma {:induction false} WrapFits(ws: seq<string>, all: seq<string>, current: string, width: string -> real, maxWidth: real)
    requires forall i :: 0 <= i < |ws| ==> ws[i] in all
    requires LineFits(current, all, width, maxWidth)
    ensures forall i :: 0 <= i < |Wrap(ws, current, width, maxWidth)| ==>
      LineFits(Wrap(ws, current, width, maxWidth)[i], all, width, maxWidth)
    decreases |ws|
  {
    if |ws| > 0 {
      var trial := Trial(current, ws[0]);
      if width(trial) < maxWidth {
        WrapFits(ws[1..], all, trial, width, maxWidth);
      } else {
        WrapFits(ws[1..], all, ws[0], width, maxWidth);
      }
    }
  }

  lemma ParagraphLinesFit(paragraph: string, width: string -> real, maxWidth: real)
    ensures forall i :: 0 <= i < |ParagraphLines(paragraph, width, maxWidth)| ==>
      LineFits(ParagraphLines(paragraph, width, maxWidth)[i], Words(paragraph), width, maxWidth)
  {
    WrapFits(Words(paragraph), Words(paragraph), "", width, maxWidth);
  }

  /** Over the whole text: every line is empty, one word, or narrower than the limit. */
  lemma {:induction false} LinesOfFit(paragraphs: seq<string>, width: string -> real, maxWidth: real)
    ensures forall i :: 0 <= i < |LinesOf(paragraphs, width, maxWidth)| ==>
      var line := LinesOf(paragraphs, width, maxWidth)[i];
      line == "" || IsWord(line) || width(line) < maxWidth
    decreases |paragraphs|
  {
    if |paragraphs| > 0 {
      var p := paragraphs[0];
      ParagraphLinesFit(p, width, maxWidth);
      LinesOfFit(paragraphs[1..], width, maxWidth);
      var head := ParagraphLines(p, width, maxWidth);
      forall i | 0 <= i < |head| ensures head[i] == "" || IsWord(head[i]) || width(head[i]) < maxWidth {
        if head[i] in Words(p) {
          var k :| 0 <= k < |Words(p)| && Words(p)[k] == head[i];
        }
      }
    }
  }

  // ---------------------------------------------------------------------
  // Canvas and page assembly
  // ---------------------------------------------------------------------

  datatype Colour = LightGrey

  /** The ReportLab canvas calls the builder makes. */
  datatype Op =
    | SetFont(font: string, size: real)
    | SetFillColour(colour: Colour)
    | Translate(dx: real, dy: real)
    | Rotate(degrees: real)
    | DrawString(x: real, y: real, text: string)
    | DrawCentredString(x: real, y: real, text: string)
    | SaveState
    | RestoreState
    | ShowPage
    | Save

  /** A ReportLab canvas, seen as the log of the operations issued on it. */
  class Canvas {
    var ops: seq<Op>

    constructor ()
      ensures ops == []
    {
      ops := [];
    }

    method Emit(op: Op)
      modifies this
      ensures ops == old(ops) + [op]
    {
      ops := ops + [op];
    }
  }

  /** One `drawString` per line, each `leading` below the one before. */
  function DrawOps(lines: seq<string>, x: real, y: real, leading: real): seq<Op>
    decreases |lines|
  {
    if |lines| == 0 then []
    else [DrawString(x, y, lines[0])] + DrawOps(lines[1..], x, y - leading, leading)
  }

  lemma {:induction false} DrawOpsAt(lines: seq<string>, x: real, y: real, leading: real)
    ensures |DrawOps(lines, x, y, leading)| == |lines|
    ensures forall i :: 0 <= i < |lines| ==>
      DrawOps(lines, x, y, leading)[i] == DrawString(x, Below(y, leading, i), lines[i])
    decreases |lines|
  {
    if |lines| > 0 {
      DrawOpsAt(lines[1..], x, y - leading, leading);
      forall i | 1 <= i < |lines|
        ensures DrawOps(lines, x, y, leading)[i] == DrawString(x, Below(y, leading, i), lines[i])
      {
        BelowShift(y, leading, i - 1);
      }
    }
  }

  lemma {:induction false} BelowShift(y: real, leading: real, n: nat)
    ensures Below(y - leading, leading, n) == Below(y, leading, n + 1)
  {
    if n > 0 {
      BelowShift(y, leading, n - 1);
    }
  }

  /** The height `n` lines of `leading` below `y`: `y - leading * n`, as `BelowIs` shows. */
  function Below(y: real, leading: real, n: nat): real {
    if n == 0 then y else Below(y, leading, n - 1) - leading
  }

  lemma {:induction false} BelowIs(y: real, leading: real, n: nat)
    ensures Below(y, leading, n) == y - leading * n as real
  {
    if n > 0 {
      BelowIs(y, leading, n - 1);
      assert leading * n as real == leading * (n - 1) as real + leading;
    }
  }

  /**
   * `draw_multiline_text`: breaks the text into lines, draws each line at
   * `x`, starting at `y` and moving down by `leading`, and returns the
   * height below the last line.
   */
  method DrawMultilineText(c: Canvas, text: string, x: real, y: real, maxWidth: real, leading: real,
                           width: string -> real) returns (yOut: real)
    modifies c
    ensures c.ops == old(c.ops) + DrawOps(Lines(text, width, maxWidth), x, y, leading)
    ensures yOut == Below(y, leading, |Lines(text, width, maxWidth)|)
  {
    var lines := BreakLines(text, width, maxWidth);
    yOut := DrawLines(c, lines, x, y, leading);
  }

  /** The drawing loop of `draw_multiline_text`. */
  method DrawLines(c: Canvas, lines: seq<string>, x: real, y: real, leading: real) returns (yOut: real)
    modifies c
    ensures c.ops == old(c.ops) + DrawOps(lines, x, y, leading)
    ensures yOut == Below(y, leading, |lines|)
  {
    ghost var start := c.ops;
    yOut := y;
    for i := 0 to |lines|
      invariant c.ops + DrawOps(lines[i..], x, yOut, leading) == start + DrawOps(lines, x, y, leading)
      invariant yOut == Below(y, leading, i)
    {
      var line := lines[i];
      ghost var later := lines[i + 1..];
      assert lines[i..] == [line] + later;
      ghost var pending := DrawOps(later, x, yOut - leading, leading);
      assert DrawOps(lines[i..], x, yOut, leading) == [DrawString(x, yOut, line)] + pending;
      c.Emit(DrawString(x, yOut, line));
      yOut := yOut - leading;
    }
    assert lines[|lines|..] == [];
  }

  function WatermarkOps(text: string): seq<Op> {
    [SaveState, SetFont("Helvetica-Bold", 48.0), SetFillColour(LightGrey),
     Translate(300.0, 400.0), Rotate(30.0), DrawCentredString(0.0, 0.0, text), RestoreState]
  }

  /** `add_watermark`: large grey text, rotated, centred near the middle of the page. */
  method AddWatermark(c: Canvas, text: string)
    modifies c
    ensures c.ops == old(c.ops) + WatermarkOps(text)
  {
    c.Emit(SaveState);
    c.Emit(SetFont("Helvetica-Bold", 48.0));
    c.Emit(SetFillColour(LightGrey));
    c.Emit(Translate(300.0, 400.0));
    c.Emit(Rotate(30.0));
    c.Emit(DrawCentredString(0.0, 0.0, text));
    c.Emit(RestoreState);
  }

  /** The title `build_pdf_from_template` chooses: `"WILL"` gives the Will title, anything else the Power of Attorney one. */
  function TitleFor(docType: string): string {
    if docType == "WILL" then WillTitle else PoaTitle
  }

  /** The template chosen the same way. */
  function TemplateFor(docType: string): string {
    if docType == "WILL" then WillTemplate else PoaTemplate
  }

  /** The title, centred an inch below the top of a LETTER page, then the body font. */
  function HeadOps(title: string): seq<Op> {
    [SetFont("Helvetica-Bold", 18.0), DrawCentredString(306.0, 720.0, title), SetFont("Helvetica", 11.0)]
  }

  /** The body, from an inch and a half below the top, between one-inch margins. */
  function BodyOps(filled: string, width: string -> real): seq<Op> {
    DrawOps(Lines(filled, width, 468.0), 72.0, 684.0, 14.0)
  }

  function MarkOps(watermark: bool): seq<Op> {
    if watermark then WatermarkOps(DefaultWatermark) else []
  }

  /** The document as laid out on one LETTER page. */
  function DocumentOps(docType: string, data: seq<(string, string)>, watermark: bool,
                       width: string -> real): seq<Op>
  {
    HeadOps(TitleFor(docType)) + BodyOps(Fill(TemplateFor(docType), data), width) + MarkOps(watermark) + [ShowPage, Save]
  }

  /**
   * `build_pdf_from_template`: the title, the filled template and, when asked
   * for, the watermark, on one page.
   */
  method BuildPdfFromTemplate(docType: string, data: seq<(string, string)>, watermark: bool,
                              width: string -> real) returns (ops: seq<Op>)
    ensures ops == DocumentOps(docType, data, watermark, width)
  {
    var c := new Canvas();
    c.Emit(SetFont("Helvetica-Bold", 18.0));
    var title := TitleFor(docType);
    c.Emit(DrawCentredString(PageWidth / 2.0, PageHeight - 1.0 * Inch, title));
    c.Emit(SetFont("Helvetica", 11.0));
    assert c.ops == HeadOps(title);
    var filled := FillTemplate(TemplateFor(docType), data);
    var y := PageHeight - 1.5 * Inch;
    var leftMargin := 1.0 * Inch;
    var rightMargin := PageWidth - 1.0 * Inch;
    var maxWidth := rightMargin - leftMargin;
    assert y == 684.0 && leftMargin == 72.0 && maxWidth == 468.0;
    y := DrawMultilineText(c, filled, leftMargin, y, maxWidth, 14.0, width);
    assert c.ops == HeadOps(title) + BodyOps(filled, width);
    if watermark {
      AddWatermark(c, DefaultWatermark);
    }
    ghost var front := HeadOps(title) + BodyOps(filled, width) + MarkOps(watermark);
    assert c.ops == front;
    c.Emit(ShowPage);
    c.Emit(Save);
    ops := c.ops;
    assert ops == front + [ShowPage, Save];
  }

  /** The texts of the `drawString` calls, in order. */
  function DrawnLines(ops: seq<Op>): seq<string>
    decreases |ops|
  {
    if |ops| == 0 then []
    else (if ops[0].DrawString? then [ops[0].text] else []) + DrawnLines(ops[1..])
  }

  /** The texts of the `drawCentredString` calls, in order. */
  function CentredTexts(ops: seq<Op>): seq<string>
    decreases |ops|
  {
    if |ops| == 0 then []
    else (if ops[0].DrawCentredString? then [ops[0].text] else []) + CentredTexts(ops[1..])
  }

  lemma TextsAppend(a: seq<Op>, b: seq<Op>)
    ensures DrawnLines(a + b) == DrawnLines(a) + DrawnLines(b)
    ensures CentredTexts(a + b) == CentredTexts(a) + CentredTexts(b)
  {
    DrawnLinesAppend(a, b);
    CentredTextsAppend(a, b);
  }

  lemma {:induction false} DrawnLinesAppend(a: seq<Op>, b: seq<Op>)
    ensures DrawnLines(a + b) == DrawnLines(a) + DrawnLines(b)
    decreases |a|
  {
    if |a| == 0 {
      assert a + b == b;
    } else {
      assert (a + b)[1..] == a[1..] + b;
      DrawnLinesAppend(a[1..], b);
    }
  }

  lemma {:induction false} CentredTextsAppend(a: seq<Op>, b: seq<Op>)
    ensures CentredTexts(a + b) == CentredTexts(a) + CentredTexts(b)
    decreases |a|
  {
    if |a| == 0 {
      assert a + b == b;
    } else {
      assert (a + b)[1..] == a[1..] + b;
      CentredTextsAppend(a[1..], b);
    }
  }

  lemma {:induction false} TextsOfDrawOps(lines: seq<string>, x: real, y: real, leading: real)
    ensures DrawnLines(DrawOps(lines, x, y, leading)) == lines
    ensures CentredTexts(DrawOps(lines, x, y, leading)) == []
    decreases |lines|
  {
    if |lines| > 0 {
      var rest := DrawOps(lines[1..], x, y - leading, leading);
      TextsOfDrawOps(lines[1..], x, y - leading, leading);
      TextsAppend([DrawString(x, y, lines[0])], rest);
      assert lines == [lines[0]] + lines[1..];
    }
  }

  lemma HeadTexts(title: string)
    ensures DrawnLines(HeadOps(title)) == [] && CentredTexts(HeadOps(title)) == [title]
  {
    var h := HeadOps(title);
    assert h == [h[0]] + ([h[1]] + [h[2]]);
    TextsAppend([h[0]], [h[1]] + [h[2]]);
    TextsAppend([h[1]], [h[2]]);
  }

  lemma WatermarkTexts(text: string)
    ensures DrawnLines(WatermarkOps(text)) == [] && CentredTexts(WatermarkOps(text)) == [text]
  {
    var m := WatermarkOps(text);
    var later := m[5..];
    assert m == m[..5] + later;
    TextsAppend(m[..5], later);
    assert later == [m[5]] + [m[6]];
    TextsAppend([m[5]], [m[6]]);
    NoTexts(m[..5]);
  }

  /** Operations other than the two string-drawing ones draw no text. */
  lemma {:induction false} NoTexts(ops: seq<Op>)
    requires forall i :: 0 <= i < |ops| ==> !ops[i].DrawString? && !ops[i].DrawCentredString?
    ensures DrawnLines(ops) == [] && CentredTexts(ops) == []
    decreases |ops|
  {
    if |ops| > 0 {
      NoTexts(ops[1..]);
    }
  }

  /**
   * The document type `"WILL"` selects the Will title and template and any
   * other value the Power of Attorney ones; the lines drawn are exactly the
   * filled template's lines, and the only centred texts are the title and,
   * iff a watermark is asked for, the watermark.
   */
  lemma DocumentContents(docType: string, data: seq<(string, string)>, watermark: bool, width: string -> real)
    ensures DrawnLines(DocumentOps(docType, data, watermark, width))
         == Lines(Fill(if docType == "WILL" then WillTemplate else PoaTemplate, data), width, 468.0)
    ensures CentredTexts(DocumentOps(docType, data, watermark, width))
         == [if docType == "WILL" then WillTitle else PoaTitle] + (if watermark then [DefaultWatermark] else [])
  {
    PageTexts(TitleFor(docType), Fill(TemplateFor(docType), data), watermark, width);
  }

  lemma PageTexts(title: string, filled: string, watermark: bool, width: string -> real)
    ensures var ops := HeadOps(title) + BodyOps(filled, width) + MarkOps(watermark) + [ShowPage, Save];
      DrawnLines(ops) == Lines(filled, width, 468.0)
      && CentredTexts(ops) == [title] + (if watermark then [DefaultWatermark] else [])
  {
    var head := HeadOps(title);
    var body := BodyOps(filled, width);
    var mark := MarkOps(watermark);
    var tail: seq<Op> := [ShowPage, Save];
    TextsAppend(head + body + mark, tail);
    TextsAppend(head + body, mark);
    TextsAppend(head, body);
    HeadTexts(title);
    TextsOfDrawOps(Lines(filled, width, 468.0), 72.0, 684.0, 14.0);
    NoTexts(tail);
    if watermark {
      WatermarkTexts(DefaultWatermark);
    } else {
      NoTexts(mark);
    }
  }
}
