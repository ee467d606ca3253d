/** The HTML mail body built from the assembled document (main_build.py, lines 113-136
    and 374-391): every run becomes a styled span, every paragraph a `<p>`, every table
    an HTML table; other body elements produce nothing. */
module Html {
  import opened Wrappers
  import opened Text
  import opened Docs
  import Assembly

  const Bold := "font-weight:bold;"
  const Italic := "font-style:italic;"
  const Underline := "text-decoration:underline;"

  const ParagraphOpen := "<p style='margin:0;'>"
  const TableOpen := "<table border='1' style='border-collapse: collapse; background-color: #E6F3FF;'>"
  const CellOpen := "<td style='padding: 5px; color: #4682B4;'>"

  /** `get_run_style`: one declaration per flag present, in the order bold, italic,
      underline. */
  function RunStyle(p: RunProps): string {
    (if p.bold then Bold else "") + (if p.italic then Italic else "") + (if p.underline then Underline else "")
  }

  /** Python's `any(project in text for project in names)`. */
  predicate AnyIn(names: seq<string>, text: string) {
    names != [] && (Contains(text, names[0]) || AnyIn(names[1..], text))
  }

  /** The style of a run's span: its own flags, then one more bold declaration when its
      text mentions a project name. */
  function SpanStyle(run: Run, names: seq<string>): string {
    (if run.props.Some? then RunStyle(run.props.value) else "") +
    (if AnyIn(names, RunText(run)) then Bold else "")
  }

  /** The f-string of one run's span. */
  function SpanHtml(style: string, text: string): string {
    "<span style='" + style + "'>" + text + "</span>"
  }

  function RunHtml(run: Run, names: seq<string>): string {
    SpanHtml(SpanStyle(run, names), RunText(run))
  }

  function RunsHtml(runs: seq<Run>, names: seq<string>): string {
    if runs == [] then "" else RunsHtml(runs[..|runs| - 1], names) + RunHtml(runs[|runs| - 1], names)
  }

  /** What `process_paragraph` returns for a paragraph. */
  function ParagraphHtml(p: Paragraph, names: seq<string>): string {
    ParagraphOpen + RunsHtml(p.runs, names) + "</p>"
  }

  function ParagraphsHtml(ps: seq<Paragraph>, names: seq<string>): string {
    if ps == [] then "" else ParagraphsHtml(ps[..|ps| - 1], names) + ParagraphHtml(ps[|ps| - 1], names)
  }

  function CellHtml(cell: seq<Paragraph>, names: seq<string>): string {
    CellOpen + ParagraphsHtml(cell, names) + "</td>"
  }

  function CellsHtml(cells: seq<seq<Paragraph>>, names: seq<string>): string {
    if cells == [] then "" else CellsHtml(cells[..|cells| - 1], names) + CellHtml(cells[|cells| - 1], names)
  }

  function RowHtml(row: seq<seq<Paragraph>>, names: seq<string>): string {
    "<tr>" + CellsHtml(row, names) + "</tr>"
  }

  function RowsHtml(rows: seq<seq<seq<Paragraph>>>, names: seq<string>): string {
    if rows == [] then "" else RowsHtml(rows[..|rows| - 1], names) + RowHtml(rows[|rows| - 1], names)
  }

  function TableHtml(rows: seq<seq<seq<Paragraph>>>, names: seq<string>): string {
    TableOpen + RowsHtml(rows, names) + "</table>"
  }

  /** The HTML of one body element: paragraphs and tables are rendered, anything else
      is skipped. */
  function BlockHtml(b: Block, names: seq<string>): string {
    match b
    case Para(p) => ParagraphHtml(p, names)
    case Table(rows) => TableHtml(rows, names)
    case OtherElement => ""
  }

  function BodyHtml(body: seq<Block>, names: seq<string>): string {
    if body == [] then "" else BodyHtml(body[..|body| - 1], names) + BlockHtml(body[|body| - 1], names)
  }

  /** The mail body for a document whose top-level elements are `body`. */
  function DocumentHtml(body: seq<Block>, names: seq<string>): string {
    "<html><body>" + BodyHtml(body, names) + "</body></html>"
  }

  /** `process_paragraph`: the span of every run, in order, inside one `<p>`. */
  method ProcessParagraph(p: Paragraph, names: seq<string>) returns (html: string)
    ensures html == ParagraphHtml(p, names)
  {
    html := ParagraphOpen;
    var k := 0;
    assert p.runs[..0] == [];
    while k < |p.runs|
      invariant 0 <= k <= |p.runs|
      invariant html == ParagraphOpen + RunsHtml(p.runs[..k], names)
    {
      var run := p.runs[k];
      var text := RunText(run);
      var style := if run.props.Some? then RunStyle(run.props.value) else "";
      StyleAdded(run, names, style);
      if AnyIn(names, text) {
        style := style + Bold;
      }
      SpanStep(p.runs, k, names, html, style);
      html := html + SpanHtml(style, text);
      k := k + 1;
    }
    assert p.runs[..k] == p.runs;
    html := html + "</p>";
  }

  /** The style of the run's own flags, with the bold declaration added when its text
      mentions a project, is the span's style. */
  lemma StyleAdded(run: Run, names: seq<string>, own: string)
    requires own == if run.props.Some? then RunStyle(run.props.value) else ""
    ensures AnyIn(names, RunText(run)) ==> own + Bold == SpanStyle(run, names)
    ensures !AnyIn(names, RunText(run)) ==> own == SpanStyle(run, names)
  {
    if !AnyIn(names, RunText(run)) {
      assert own + "" == own;
    }
  }

  /** One `p_html += f"<span ...>"`: the span of run k extends the HTML of the runs before it. */
  lemma SpanStep(runs: seq<Run>, k: nat, names: seq<string>, html: string, style: string)
    requires k < |runs| && html == ParagraphOpen + RunsHtml(runs[..k], names)
    requires style == SpanStyle(runs[k], names)
    ensures html + SpanHtml(style, RunText(runs[k])) == ParagraphOpen + RunsHtml(runs[..k + 1], names)
  {
    assert runs[..k + 1][..k] == runs[..k] && runs[..k + 1][k] == runs[k];
    AppendAssoc(ParagraphOpen, RunsHtml(runs[..k], names), RunHtml(runs[k], names));
  }

  /** The table branch of the body loop: rows, their cells, and the paragraphs of each cell. */
  method RenderTable(rows: seq<seq<seq<Paragraph>>>, names: seq<string>) returns (html: string)
    ensures html == TableHtml(rows, names)
  {
    html := TableOpen;
    var r := 0;
    assert rows[..0] == [];
    while r < |rows|
      invariant 0 <= r <= |rows|
      invariant html == TableOpen + RowsHtml(rows[..r], names)
    {
      var row := rows[r];
      var line := "<tr>";
      var c := 0;
      assert row[..0] == [];
      while c < |row|
        invariant 0 <= c <= |row|
        invariant line == "<tr>" + CellsHtml(row[..c], names)
      {
        var cell := row[c];
        var inner := "";
        var q := 0;
        assert cell[..0] == [];
        while q < |cell|
          invariant 0 <= q <= |cell|
          invariant inner == ParagraphsHtml(cell[..q], names)
        {
          var ph := ProcessParagraph(cell[q], names);
          ParagraphStep(cell, q, names);
          inner := inner + ph;
          q := q + 1;
        }
        assert cell[..q] == cell;
        CellStep(row, c, names, line);
        line := line + (CellOpen + inner + "</td>");
        c := c + 1;
      }
      assert row[..c] == row;
      RowStep(rows, r, names, html);
      html := html + (line + "</tr>");
      r := r + 1;
    }
    assert rows[..r] == rows;
    html := html + "</table>";
  }

  lemma ParagraphStep(cell: seq<Paragraph>, q: nat, names: seq<string>)
    requires q < |cell|
    ensures ParagraphsHtml(cell[..q + 1], names) == ParagraphsHtml(cell[..q], names) + ParagraphHtml(cell[q], names)
  {
    assert cell[..q + 1][..q] == cell[..q] && cell[..q + 1][q] == cell[q];
  }

  lemma CellStep(row: seq<seq<Paragraph>>, c: nat, names: seq<string>, line: string)
    requires c < |row| && line == "<tr>" + CellsHtml(row[..c], names)
    ensures line + CellHtml(row[c], names) == "<tr>" + CellsHtml(row[..c + 1], names)
  {
    assert row[..c + 1][..c] == row[..c] && row[..c + 1][c] == row[c];
    AppendAssoc("<tr>", CellsHtml(row[..c], names), CellHtml(row[c], names));
  }

  lemma RowStep(rows: seq<seq<seq<Paragraph>>>, r: nat, names: seq<string>, html: string)
    requires r < |rows| && html == TableOpen + RowsHtml(rows[..r], names)
    ensures html + RowHtml(rows[r], names) == TableOpen + RowsHtml(rows[..r + 1], names)
  {
    assert rows[..r + 1][..r] == rows[..r] && rows[..r + 1][r] == rows[r];
    AppendAssoc(TableOpen, RowsHtml(rows[..r], names), RowHtml(rows[r], names));
  }

  /** The body loop: `<html><body>`, every top-level element rendered, `</body></html>`. */
  method RenderDocument(body: seq<Block>, names: seq<string>) returns (html: string)
    ensures html == DocumentHtml(body, names)
  {
    var content := "";
    var i := 0;
    assert body[..0] == [];
    assert content == BodyHtml(body[..i], names);
    while i < |body|
      invariant 0 <= i <= |body|
      invariant content == BodyHtml(body[..i], names)
    {
      var element := body[i];
      var part := "";
      if element.Para? {
        part := ProcessParagraph(element.paragraph, names);
      } else if element.Table? {
        part := RenderTable(element.rows, names);
      }
      assert part == BlockHtml(element, names);
      BodyHtmlStep(body, i, names);
      assert content + part == BodyHtml(body[..i + 1], names);
      content := content + part;
      i := i + 1;
      assert content == BodyHtml(body[..i], names);
    }
    assert body[..i] == body;
    html := "<html><body>" + content + "</body></html>";
  }

  lemma BodyHtmlStep(body: seq<Block>, i: nat, names: seq<string>)
    requires i < |body|
    ensures BodyHtml(body[..i + 1], names) == BodyHtml(body[..i], names) + BlockHtml(body[i], names)
  {
    assert body[..i + 1][..i] == body[..i] && body[..i + 1][i] == body[i];
  }

  /** Each flag of a run has a character of its own in the style: `w` only in the bold
      declaration, `y` only in the italic one, `x` only in the underline one. So the
      style is empty exactly when no flag is set, and it determines the flags. */
  /** The style holds each declaration exactly when its flag is set. */
  lemma RunStyleFlags(p: RunProps)
    ensures Contains(RunStyle(p), Bold) <==> p.bold
    ensures Contains(RunStyle(p), Italic) <==> p.italic
    ensures Contains(RunStyle(p), Underline) <==> p.underline
    ensures RunStyle(p) == "" <==> !p.bold && !p.italic && !p.underline
    ensures |RunStyle(p)| == (if p.bold then 17 else 0) + (if p.italic then 18 else 0) + (if p.underline then 26 else 0)
  {
    BoldFlag(p);
    ItalicFlag(p);
    UnderlineFlag(p);
    RunStyleLength(p);
  }

  lemma RunStyleLength(p: RunProps)
    ensures RunStyle(p) == "" <==> !p.bold && !p.italic && !p.underline
    ensures |RunStyle(p)| == (if p.bold then 17 else 0) + (if p.italic then 18 else 0) + (if p.underline then 26 else 0)
  {
  }

  lemma BoldFlag(p: RunProps)
    ensures Contains(RunStyle(p), Bold) <==> p.bold
  {
    if p.bold {
      var rest := (if p.italic then Italic else "") + (if p.underline then Underline else "");
      assert RunStyle(p) == Bold + rest;
      BoldFirst(rest);
    } else {
      RunStyleChars(p);
      BoldChars();
      Lacks(RunStyle(p), Bold, 5);
    }
  }

  lemma ItalicFlag(p: RunProps)
    ensures Contains(RunStyle(p), Italic) <==> p.italic
  {
    if p.italic {
      Occurs(if p.bold then Bold else "", Italic, if p.underline then Underline else "");
    } else {
      RunStyleChars(p);
      ItalicChars();
      Lacks(RunStyle(p), Italic, 7);
    }
  }

  lemma UnderlineFlag(p: RunProps)
    ensures Contains(RunStyle(p), Underline) <==> p.underline
  {
    if p.underline {
      var front := (if p.bold then Bold else "") + (if p.italic then Italic else "");
      assert RunStyle(p) == front + Underline + "";
      Occurs(front, Underline, "");
    } else {
      RunStyleChars(p);
      UnderlineChars();
      Lacks(RunStyle(p), Underline, 2);
    }
  }

  /** Each declaration has a character of its own: the "w" of bold, the "y" of italic and
      the "x" of underline, which the style holds exactly when the flag is set. */
  lemma RunStyleChars(p: RunProps)
    ensures 'w' in RunStyle(p) <==> p.bold
    ensures 'y' in RunStyle(p) <==> p.italic
    ensures 'x' in RunStyle(p) <==> p.underline
  {
    DeclarationChars();
  }

  lemma Occurs(a: string, d: string, b: string)
    ensures Contains(a + d + b, d)
  {
    assert OccursAt(a + d + b, d, |a|) by {
      assert (a + d + b)[|a|..|a| + |d|] == d;
    }
    ContainsAt(a + d + b, d);
  }

  lemma Lacks(s: string, d: string, k: nat)
    requires k < |d| && d[k] !in s
    ensures !Contains(s, d)
  {
    ContainsChar(s, d, k);
  }

  lemma DeclarationChars()
    ensures Bold[5] == 'w' && 'y' !in Bold && 'x' !in Bold
    ensures Italic[7] == 'y' && 'w' !in Italic && 'x' !in Italic
    ensures Underline[2] == 'x' && 'w' !in Underline && 'y' !in Underline
  {
    BoldChars();
    ItalicChars();
    UnderlineChars();
  }

  lemma BoldChars()
    ensures Bold[5] == 'w' && 'y' !in Bold && 'x' !in Bold
  {
  }

  lemma ItalicChars()
    ensures Italic[7] == 'y' && 'w' !in Italic && 'x' !in Italic
  {
  }

  lemma UnderlineChars()
    ensures Underline[2] == 'x' && 'w' !in Underline && 'y' !in Underline
  {
  }

  lemma RunStyleDetermines(p: RunProps, q: RunProps)
    requires RunStyle(p) == RunStyle(q)
    ensures p == q
  {
    RunStyleFlags(p);
    RunStyleFlags(q);
  }

  /** `any` is true exactly when some project name occurs in the text. */
  lemma {:induction false} AnyInExists(names: seq<string>, text: string)
    ensures AnyIn(names, text) <==> exists k :: 0 <= k < |names| && Contains(text, names[k])
  {
    if names != [] {
      AnyInExists(names[1..], text);
      if exists k :: 0 <= k < |names[1..]| && Contains(text, names[1..][k]) {
        var k :| 0 <= k < |names[1..]| && Contains(text, names[1..][k]);
        assert names[k + 1] == names[1..][k];
      }
      if exists k :: 0 <= k < |names| && Contains(text, names[k]) {
        var k :| 0 <= k < |names| && Contains(text, names[k]);
        if k > 0 {
          assert names[1..][k - 1] == names[k];
        }
      }
    }
  }

  /** A span is styled bold exactly when its run carries `w:b` or its text mentions a
      project name. */
  lemma SpanBold(run: Run, names: seq<string>)
    ensures Contains(SpanStyle(run, names), Bold) <==>
      (run.props.Some? && run.props.value.bold) || AnyIn(names, RunText(run))
  {
    var own := if run.props.Some? then RunStyle(run.props.value) else "";
    var extra := if AnyIn(names, RunText(run)) then Bold else "";
    assert SpanStyle(run, names) == own + extra;
    if run.props.Some? && run.props.value.bold {
      var p := run.props.value;
      var i := if p.italic then Italic else "";
      var u := if p.underline then Underline else "";
      AppendAssoc(Bold, i, u);
      AppendAssoc(Bold, i + u, extra);
      BoldFirst(i + u + extra);
    } else if AnyIn(names, RunText(run)) {
      BoldLast(own);
    } else {
      if run.props.Some? {
        RunStyleChars(run.props.value);
      }
      NoBold(own);
      assert own + extra == own;
    }
  }

  lemma BoldFirst(rest: string)
    ensures Contains(Bold + rest, Bold)
  {
    assert IsPrefix(Bold, Bold + rest);
  }

  lemma BoldLast(own: string)
    ensures Contains(own + Bold, Bold)
  {
    assert OccursAt(own + Bold, Bold, |own|);
    ContainsAt(own + Bold, Bold);
  }

  /** A string without a `w` holds no bold declaration. */
  lemma NoBold(s: string)
    requires 'w' !in s
    ensures !Contains(s, Bold)
  {
    DeclarationChars();
    ContainsChar(s, Bold, 5);
  }

  lemma {:induction false} BodyHtmlAppend(a: seq<Block>, b: seq<Block>, names: seq<string>)
    ensures BodyHtml(a + b, names) == BodyHtml(a, names) + BodyHtml(b, names)
    decreases |b|
  {
    if b == [] {
      assert a + b == a;
    } else {
      var init := b[..|b| - 1];
      var last := b[|b| - 1];
      assert (a + b)[..|a + b| - 1] == a + init && (a + b)[|a + b| - 1] == last;
      BodyHtmlAppend(a, init, names);
      AppendAssoc(BodyHtml(a, names), BodyHtml(init, names), BlockHtml(last, names));
    }
  }

  /** Elements other than paragraphs and tables leave no trace in the mail. */
  lemma OtherElementInvisible(a: seq<Block>, b: seq<Block>, names: seq<string>)
    ensures BodyHtml(a + [OtherElement] + b, names) == BodyHtml(a + b, names)
  {
    BodyHtmlAppend(a + [OtherElement], b, names);
    BodyHtmlAppend(a, [OtherElement], names);
    BodyHtmlAppend(a, b, names);
    assert [OtherElement][..0] == [];
    assert BodyHtml([OtherElement], names) == "";
    assert BodyHtml(a + [OtherElement], names) == BodyHtml(a, names);
  }

  /** The mail of a document with `findings` inserted at position `at` is the mail of
      the original with the findings' own HTML inserted at the corresponding point. */
  lemma InsertedRendering(body: seq<Block>, findings: seq<Block>, at: nat, names: seq<string>)
    requires at <= |body|
    ensures DocumentHtml(body[..at] + findings + body[at..], names) ==
      "<html><body>" + BodyHtml(body[..at], names) + BodyHtml(findings, names) + BodyHtml(body[at..], names) + "</body></html>"
  {
    var before := BodyHtml(body[..at], names);
    var inserted := BodyHtml(findings, names);
    var after := BodyHtml(body[at..], names);
    BodyHtmlAppend(body[..at] + findings, body[at..], names);
    BodyHtmlAppend(body[..at], findings, names);
    assert BodyHtml(body[..at] + findings + body[at..], names) == before + inserted + after;
    AppendAssoc("<html><body>", before + inserted, after);
    AppendAssoc("<html><body>", before, inserted);
  }

  /** The mail shows the findings where the splice put them: the HTML of what precedes
      the insertion point, then the findings' own HTML, then the rest. */
  lemma SplicedRendering(body: seq<Block>, findings: seq<Block>, phrase: string, names: seq<string>, p: nat)
    requires Assembly.FirstAnchor(Paragraphs(body), phrase) == Some(p)
    ensures p + 1 <= |body|
    ensures DocumentHtml(Assembly.Spliced(body, findings, phrase), names) ==
      "<html><body>" + BodyHtml(body[..p + 1], names) + BodyHtml(findings, names) +
      BodyHtml(body[p + 1..], names) + "</body></html>"
  {
    assert Assembly.Spliced(body, findings, phrase) == body[..p + 1] + findings + body[p + 1..];
    InsertedRendering(body, findings, p + 1, names);
  }

  /** A bold run naming a project is bold twice over: once for `w:b`, once for the name. */
  lemma BoldProjectRunExample()
    ensures SpanStyle(BoldRun("LineA"), ["LineA"]) == Bold + Bold
  {
    assert RunText(BoldRun("LineA")) == "LineA" by {
      assert Concat(["LineA"]) == Concat([]) + "LineA";
    }
    assert IsPrefix("LineA", "LineA");
    assert AnyIn(["LineA"], "LineA");
  }
}
