/** Assembly of the narrative document (main_build.py, lines 308-357): the findings
    blocks built from the records, the template's time-window sentence rewritten, and
    the findings spliced in after the anchor paragraph. */
module Assembly {
  import opened Wrappers
  import opened Text
  import opened Docs
  import opened Kpi
  import opened Decimal
  import opened Timestamp

  const ReasonPrompt := "The reason fail more than 3% is: "

  /** The template's time-window sentence, "from <start> to <end>". */
  const Placeholder := "from " + TemplateStart + " to " + TemplateEnd

  const TemplateStart := "8:00 am of Thursday, July 11, 2024"

  const TemplateEnd := "8:00 am of Friday, July 12, 2024"

  /** The phrase that marks the paragraph after which the findings go. */
  const Anchor := "List of production lines operating"

  /** Python's `f"{v}"` of a cell value: an empty cell reads "None". */
  function PyStr(v: Option<string>): string {
    if v.None? then "None" else v.value
  }

  /** The 2x2 table of one record: the header row and its two values. */
  function KpiTable(yieldRate: string, retestRate: string): Block {
    Table([[TextCell(YieldLabel), TextCell(RetestLabel)], [TextCell(yieldRate), TextCell(retestRate)]])
  }

  /** The blocks one record contributes: its bold project title, its table, a blank
      paragraph and, when asked for, the bold reason prompt. */
  function RecordBlocks(r: Record, reason: bool): seq<Block> {
    [Title(r), KpiTable(r.yieldRate, r.retestRate), Blank] + (if reason then [Prompt] else [])
  }

  /** A record's title: a paragraph with its project name in one bold run. */
  function Title(r: Record): Block {
    Para(Paragraph([BoldRun(PyStr(r.project))]))
  }

  /** `add_paragraph()` with no text. */
  const Blank := Para(Paragraph([]))

  /** The reason prompt: a paragraph with the prompt text in one bold run. */
  const Prompt := Para(Paragraph([BoldRun(ReasonPrompt)]))

  lemma RecordBlocksAppended(before: seq<Block>, r: Record)
    ensures before + [Title(r)] + [KpiTable(r.yieldRate, r.retestRate)] + [Blank] == before + RecordBlocks(r, false)
    ensures before + [Title(r)] + [KpiTable(r.yieldRate, r.retestRate)] + [Blank] + [Prompt] == before + RecordBlocks(r, true)
  {
  }

  /** The test of a retest rate: whether it asks for a reason paragraph, or why it is
      not a number. The pipeline's test is `NeedsReason`. */
  type RateTest = string -> Result<bool, ParseError>

  /** The findings document: the blocks of every record in order, or the error of the
      first record whose retest rate is not a number. */
  function Findings(records: seq<Record>, test: RateTest): Result<seq<Block>, ParseError>
    decreases |records|
  {
    if records == [] then Success([])
    else match Findings(records[..|records| - 1], test)
      case Failure(e) => Failure(e)
      case Success(blocks) =>
        var r := records[|records| - 1];
        match test(r.retestRate)
        case Failure(e) => Failure(e)
        case Success(reason) => Success(blocks + RecordBlocks(r, reason))
  }

  /** The findings loop of the source, adding paragraphs and tables to a fresh document. */
  method BuildFindings(records: seq<Record>) returns (res: Result<seq<Block>, ParseError>)
    ensures res == Findings(records, NeedsReason)
  {
    var blocks: seq<Block> := [];
    var k := 0;
    while k < |records|
      invariant 0 <= k <= |records|
      invariant Findings(records[..k], NeedsReason) == Success(blocks)
    {
      var r := records[k];
      ghost var before := blocks;
      blocks := blocks + [Title(r)];
      blocks := blocks + [KpiTable(r.yieldRate, r.retestRate)];
      blocks := blocks + [Blank];
      RecordBlocksAppended(before, r);
      FindingsStep(records, k, NeedsReason);
      var reason := NeedsReason(r.retestRate);
      if reason.Failure? {
        FindingsFailureKept(records, k + 1, NeedsReason);
        assert records[..|records|] == records;
        return Failure(reason.error);
      }
      if reason.value {
        blocks := blocks + [Prompt];
      }
      assert blocks == before + RecordBlocks(r, reason.value);
      k := k + 1;
    }
    assert records[..k] == records;
    res := Success(blocks);
  }

  /** Once a record has failed, the whole findings stage fails with that error. */
  lemma {:induction false} FindingsFailureKept(records: seq<Record>, a: nat, test: RateTest)
    requires a <= |records| && Findings(records[..a], test).Failure?
    ensures Findings(records, test) == Findings(records[..a], test)
    decreases |records| - a
  {
    if a < |records| {
      assert records[..a + 1][..a] == records[..a];
      FindingsFailureKept(records, a + 1, test);
    } else {
      assert records[..a] == records;
    }
  }

  /** The findings fail exactly when some record's retest rate is not a number. */
  lemma {:induction false} FindingsFail(records: seq<Record>, test: RateTest)
    ensures Findings(records, test).Failure? <==> exists k :: 0 <= k < |records| && test(records[k].retestRate).Failure?
    decreases |records|
  {
    if records != [] {
      var init := records[..|records| - 1];
      FindingsFail(init, test);
      if exists k :: 0 <= k < |init| && test(init[k].retestRate).Failure? {
        var k :| 0 <= k < |init| && test(init[k].retestRate).Failure?;
        assert records[k] == init[k];
      }
      if exists k :: 0 <= k < |records| && test(records[k].retestRate).Failure? {
        var k :| 0 <= k < |records| && test(records[k].retestRate).Failure?;
        if k < |init| {
          assert init[k] == records[k];
        }
      }
    }
  }

  /** The number of records whose retest rate asks for a reason. */
  function ReasonCount(records: seq<Record>, test: RateTest): nat {
    if records == [] then 0
    else ReasonCount(records[..|records| - 1], test) +
         (if test(records[|records| - 1].retestRate) == Success(true) then 1 else 0)
  }

  /** One more record: the findings of records[..k + 1] are those of records[..k]
      followed by record k's blocks, or an error. */
  lemma FindingsStep(records: seq<Record>, k: nat, test: RateTest)
    requires k < |records|
    ensures var pre := Findings(records[..k], test);
      var reason := test(records[k].retestRate);
      Findings(records[..k + 1], test) ==
        if pre.Failure? then pre
        else if reason.Failure? then Failure(reason.error)
        else Success(pre.value + RecordBlocks(records[k], reason.value))
  {
    var pre := records[..k + 1];
    assert pre[..k] == records[..k];
    assert pre[|pre| - 1] == records[k];
  }

  /** When the findings of records[..k + 1] succeed, so do those of records[..k] and
      record k's rate, and the former extend the latter by record k's blocks. */
  lemma FindingsStepSuccess(records: seq<Record>, k: nat, test: RateTest)
    requires k < |records| && Findings(records[..k + 1], test).Success?
    ensures Findings(records[..k], test).Success? && test(records[k].retestRate).Success?
    ensures Findings(records[..k + 1], test).value ==
      Findings(records[..k], test).value + RecordBlocks(records[k], test(records[k].retestRate).value)
  {
    FindingsStep(records, k, test);
  }

  /** Successful findings of a prefix of the records are a prefix of the findings. */
  lemma {:induction false} FindingsPrefix(records: seq<Record>, k: nat, test: RateTest)
    requires k <= |records| && Findings(records, test).Success?
    ensures Findings(records[..k], test).Success?
    ensures var pre := Findings(records[..k], test).value;
      |pre| <= |Findings(records, test).value| && pre == Findings(records, test).value[..|pre|]
    decreases |records| - k
  {
    if k < |records| {
      FindingsPrefix(records, k + 1, test);
      FindingsStepSuccess(records, k, test);
      var all := Findings(records, test).value;
      var next := Findings(records[..k + 1], test).value;
      var pre := Findings(records[..k], test).value;
      assert next[..|pre|] == pre;
      assert all[..|next|][..|pre|] == all[..|pre|];
    } else {
      assert records[..k] == records;
    }
  }

  /** Successful findings hold three blocks per record plus one per reason prompt. */
  lemma {:induction false} FindingsCount(records: seq<Record>, test: RateTest)
    requires Findings(records, test).Success?
    ensures |Findings(records, test).value| == 3 * |records| + ReasonCount(records, test)
    decreases |records|
  {
    if records != [] {
      FindingsCount(records[..|records| - 1], test);
    }
  }

  /** Record k's blocks, in record order: they start after the 3k blocks and the reason
      prompts of the records before it, and are its title paragraph, its table, a blank
      paragraph and the reason prompt exactly when its retest rate is at least 3. */
  lemma RecordPosition(records: seq<Record>, k: nat, test: RateTest)
    requires k < |records| && Findings(records, test).Success?
    ensures test(records[k].retestRate).Success?
    ensures var blocks := Findings(records, test).value;
      var offset := 3 * k + ReasonCount(records[..k], test);
      var own := RecordBlocks(records[k], test(records[k].retestRate).value);
      offset + |own| <= |blocks| && blocks[offset..offset + |own|] == own
  {
    FindingsSplit(records, k, test);
    FindingsCount(records[..k], test);
    PrefixSlice(Findings(records, test).value, Findings(records[..k], test).value,
                RecordBlocks(records[k], test(records[k].retestRate).value));
  }

  /** The findings start with those of records[..k] followed by record k's blocks. */
  lemma FindingsSplit(records: seq<Record>, k: nat, test: RateTest)
    requires k < |records| && Findings(records, test).Success?
    ensures Findings(records[..k], test).Success? && test(records[k].retestRate).Success?
    ensures var before := Findings(records[..k], test).value;
      var own := RecordBlocks(records[k], test(records[k].retestRate).value);
      |before + own| <= |Findings(records, test).value| &&
      before + own == Findings(records, test).value[..|before + own|]
  {
    FindingsPrefix(records, k + 1, test);
    FindingsStepSuccess(records, k, test);
  }

  lemma PrefixSlice(blocks: seq<Block>, before: seq<Block>, own: seq<Block>)
    requires |before + own| <= |blocks| && before + own == blocks[..|before + own|]
    ensures blocks[|before|..|before| + |own|] == own
  {
    assert blocks[|before|..|before| + |own|] == (before + own)[|before|..];
  }

  /** Two records whose rates pass the test give both records' blocks, in order. */
  lemma TwoRecords(r1: Record, r2: Record, test: RateTest)
    requires test(r1.retestRate).Success? && test(r2.retestRate).Success?
    ensures Findings([r1, r2], test) ==
      Success(RecordBlocks(r1, test(r1.retestRate).value) + RecordBlocks(r2, test(r2.retestRate).value))
  {
    var rs := [r1, r2];
    FindingsStep(rs, 0, test);
    FindingsStep(rs, 1, test);
    assert rs[..0] == [] && rs[..2] == rs;
    assert [] + RecordBlocks(r1, test(r1.retestRate).value) == RecordBlocks(r1, test(r1.retestRate).value);
  }

  /** Two projects, one per exported sheet: 90% / 1% and 92% / 4%. The findings hold two
      tables and exactly one reason prompt, the one for the 4% record. */
  lemma TwoProjectsExample(a: Option<string>, b: Option<string>)
    ensures Findings([Record(a, "90%", "1%"), Record(b, "92%", "4%")], NeedsReason) ==
      Success(RecordBlocks(Record(a, "90%", "1%"), false) + RecordBlocks(Record(b, "92%", "4%"), true))
  {
    DigitPercent('1');
    assert ['1', '%'] == "1%";
    DigitPercent('4');
    assert ['4', '%'] == "4%";
    TwoRecords(Record(a, "90%", "1%"), Record(b, "92%", "4%"), NeedsReason);
  }

  /** A paragraph after `paragraph.text = ...replace(...)` when it holds the placeholder:
      one plain run with every occurrence replaced (the runs' own formatting is lost). */
  function RewriteParagraph(p: Paragraph, window: string): Paragraph {
    if Contains(ParagraphText(p), Placeholder)
    then Paragraph([PlainRun(ReplaceAll(ParagraphText(p), Placeholder, window))])
    else p
  }

  /** Only the paragraphs directly in the body are rewritten; tables are left as they are. */
  function RewriteBlock(b: Block, window: string): Block {
    if b.Para? then Para(RewriteParagraph(b.paragraph, window)) else b
  }

  /** The template's top-level elements after the rewrite: every element stays at its
      position and keeps its kind, and the tables and other elements are unchanged. */
  function RewriteBody(template: seq<Block>, window: string): (body: seq<Block>)
    ensures |body| == |template|
    ensures forall i :: 0 <= i < |template| ==>
      (body[i].Para? <==> template[i].Para?) && (!template[i].Para? ==> body[i] == template[i])
  {
    seq(|template|, i requires 0 <= i < |template| => RewriteBlock(template[i], window))
  }

  /** The rewrite loop over the template's paragraphs. */
  method RewritePlaceholder(body: seq<Block>, window: string) returns (out: seq<Block>)
    ensures out == RewriteBody(body, window)
  {
    out := body;
    var i := 0;
    while i < |body|
      invariant 0 <= i <= |body| && |out| == |body|
      invariant forall m :: 0 <= m < i ==> out[m] == RewriteBlock(body[m], window)
      invariant forall m :: i <= m < |body| ==> out[m] == body[m]
    {
      if body[i].Para? {
        var text := ParagraphText(body[i].paragraph);
        if Contains(text, Placeholder) {
          out := out[i := Para(Paragraph([PlainRun(ReplaceAll(text, Placeholder, window))]))];
        }
      }
      i := i + 1;
    }
    assert forall m :: 0 <= m < |body| ==> RewriteBody(body, window)[m] == RewriteBlock(body[m], window);
  }

  /** The paragraphs of the rewritten body are the template's paragraphs, each rewritten
      by itself, in the same order. */
  lemma {:induction false} RewrittenParagraphs(template: seq<Block>, window: string)
    ensures |Paragraphs(RewriteBody(template, window))| == |Paragraphs(template)|
    ensures forall k :: 0 <= k < |Paragraphs(template)| ==>
      Paragraphs(RewriteBody(template, window))[k] == RewriteParagraph(Paragraphs(template)[k], window)
    decreases |template|
  {
    if template != [] {
      var body := RewriteBody(template, window);
      var tail := template[1..];
      RewrittenParagraphs(tail, window);
      assert body[0] == RewriteBlock(template[0], window);
      assert body[1..] == RewriteBody(tail, window) by {
        forall m | 0 <= m < |tail| ensures body[1..][m] == RewriteBody(tail, window)[m] {
          assert tail[m] == template[m + 1];
        }
      }
    }
  }

  /** The placeholder is 75 characters, starts with "fr", holds no upper-case "M" and
      no "f" after index 52. */
  lemma PlaceholderShape()
    ensures |Placeholder| == 75 && Placeholder[0] == 'f' && Placeholder[1] == 'r' && 'M' !in Placeholder
    ensures forall k :: 53 <= k < 75 ==> Placeholder[k] != 'f'
  {
    TemplateShape();
    assert forall k :: 53 <= k < 75 ==> Placeholder[k] == TemplateEnd[k - 43];
  }

  lemma TemplateShape()
    ensures |TemplateStart| == 34 && 'M' !in TemplateStart
    ensures |TemplateEnd| == 32 && 'M' !in TemplateEnd
    ensures forall k :: 10 <= k < 32 ==> TemplateEnd[k] != 'f'
  {
  }

  /** The placeholder cannot overlap a window the pipeline writes: wherever the one is
      laid over the other they disagree, on an "M" of AM or PM, on its leading "f", or on
      the "f" of the end's " of ". */
  lemma WindowNoOverlap(start: DateTime, end: DateTime)
    requires Timestamp.Valid(start) && Timestamp.Valid(end)
    ensures NoOverlap(Placeholder, TimeWindow(start, end))
  {
    var w := TimeWindow(start, end);
    WindowLayout(start, end);
    DateShape(end);
    forall d | -|Placeholder| < d < |w| ensures Mismatch(Placeholder, w, d) {
      OffsetMismatch(w, 16 + |Format(start)|, d);
    }
  }

  /** The placeholder laid over a string shaped like a window at offset `d` disagrees
      with it somewhere. */
  lemma OffsetMismatch(w: string, j: int, d: int)
    requires 28 <= j <= 57 && j + 5 < |w| && w[0] == 'f' && w[12] == 'M' && w[j] == 'M'
    requires w[j + 1..j + 5] == " of " && 'f' !in w[j + 5..]
    requires -|Placeholder| < d < |w|
    ensures Mismatch(Placeholder, w, d)
  {
    PlaceholderShape();
    if d <= -63 {
      assert Placeholder[-d] != w[0];
    } else if d <= 12 {
      assert Placeholder[12 - d] != w[12];
    } else if d <= j {
      assert Placeholder[j - d] != w[j];
    } else if d == j + 3 {
      assert w[j + 4] == " of "[3];
      assert Placeholder[1] != w[j + 4];
    } else if d < j + 5 {
      assert w[d] == " of "[d - j - 1];
      assert Placeholder[0] != w[d];
    } else {
      assert w[d] == w[j + 5..][d - j - 5];
      assert Placeholder[0] != w[d];
    }
  }

  /** With the window of valid start and end times, a paragraph that held the placeholder
      holds the window and no longer holds the placeholder. */
  lemma RewriteWindow(p: Paragraph, start: DateTime, end: DateTime)
    requires Timestamp.Valid(start) && Timestamp.Valid(end)
    requires Contains(ParagraphText(p), Placeholder)
    ensures var next := ParagraphText(RewriteParagraph(p, TimeWindow(start, end)));
      Contains(next, TimeWindow(start, end)) && !Contains(next, Placeholder)
  {
    var w := TimeWindow(start, end);
    var next := ReplaceAll(ParagraphText(p), Placeholder, w);
    assert ParagraphText(RewriteParagraph(p, w)) == next by {
      assert RunsText([PlainRun(next)]) == RunsText([]) + RunText(PlainRun(next));
      assert Concat([next]) == Concat([]) + next;
    }
    ReplaceInserts(ParagraphText(p), Placeholder, w);
    WindowNoOverlap(start, end);
    ReplaceRemoves(ParagraphText(p), Placeholder, w);
  }

  /** After the rewrite with the window of valid start and end times, no paragraph of
      the body holds the placeholder. */
  lemma RewriteBodyClears(template: seq<Block>, start: DateTime, end: DateTime)
    requires Timestamp.Valid(start) && Timestamp.Valid(end)
    ensures forall k :: 0 <= k < |Paragraphs(RewriteBody(template, TimeWindow(start, end)))| ==>
      !Contains(ParagraphText(Paragraphs(RewriteBody(template, TimeWindow(start, end)))[k]), Placeholder)
  {
    var w := TimeWindow(start, end);
    RewrittenParagraphs(template, w);
    forall k | 0 <= k < |Paragraphs(RewriteBody(template, w))|
      ensures !Contains(ParagraphText(Paragraphs(RewriteBody(template, w))[k]), Placeholder)
    {
      var x := Paragraphs(template)[k];
      if Contains(ParagraphText(x), Placeholder) {
        RewriteWindow(x, start, end);
      }
    }
  }

  /** The rewrite changes exactly the paragraphs that hold the placeholder: each becomes a
      single plain run whose text has every occurrence replaced, at least one of them,
      and grows by |window| - |placeholder| per occurrence. Other blocks stay as they are. */
  lemma RewriteBlockSpec(b: Block, window: string)
    ensures var r := RewriteBlock(b, window);
      (r.Para? <==> b.Para?) &&
      (!b.Para? || !Contains(ParagraphText(b.paragraph), Placeholder) ==> r == b) &&
      (b.Para? && Contains(ParagraphText(b.paragraph), Placeholder) ==>
        var text := ParagraphText(b.paragraph);
        var next := ReplaceAll(text, Placeholder, window);
        r.paragraph.runs == [PlainRun(next)] && ParagraphText(r.paragraph) == next &&
        Occurrences(text, Placeholder) > 0 &&
        |next| == |text| + Occurrences(text, Placeholder) * (|window| - |Placeholder|))
  {
    if b.Para? && Contains(ParagraphText(b.paragraph), Placeholder) {
      var text := ParagraphText(b.paragraph);
      var next := ReplaceAll(text, Placeholder, window);
      assert RunsText([PlainRun(next)]) == RunsText([]) + RunText(PlainRun(next));
      assert Concat([next]) == Concat([]) + next;
      ReplacePresent(text, Placeholder);
      ReplaceLength(text, Placeholder, window);
    }
  }

  /** The index, among `ps`, of the first paragraph holding `phrase`. The splice
      looks for `Anchor`; the splice functions and their lemmas take the phrase as a
      parameter. */
  function FirstAnchor(ps: seq<Paragraph>, phrase: string): (r: Option<nat>)
    ensures r.Some? ==>
      r.value < |ps| && Contains(ParagraphText(ps[r.value]), phrase) &&
      forall q :: 0 <= q < r.value ==> !Contains(ParagraphText(ps[q]), phrase)
    ensures r.None? ==> forall q :: 0 <= q < |ps| ==> !Contains(ParagraphText(ps[q]), phrase)
  {
    if ps == [] then None
    else if Contains(ParagraphText(ps[0]), phrase) then Some(0)
    else match FirstAnchor(ps[1..], phrase)
      case None => None
      case Some(i) => Some(i + 1)
  }

  /** The splice: with p the index of the first anchor paragraph counted among the body's
      paragraphs only, the findings are inserted at body position p + 1. */
  function Spliced(body: seq<Block>, findings: seq<Block>, phrase: string): seq<Block> {
    match FirstAnchor(Paragraphs(body), phrase)
    case None => body
    case Some(p) => body[..p + 1] + findings + body[p + 1..]
  }

  /** The splice loop of the source: find the anchor among `doc.paragraphs`, then
      `body.insert(i + 1, element)` and `i += 1` for each findings element. */
  method SpliceFindings(body: seq<Block>, findings: seq<Block>, phrase: string) returns (out: seq<Block>)
    ensures out == Spliced(body, findings, phrase)
  {
    out := body;
    var paragraphs := Paragraphs(body);
    var i := 0;
    while i < |paragraphs|
      invariant 0 <= i <= |paragraphs|
      invariant forall q :: 0 <= q < i ==> !Contains(ParagraphText(paragraphs[q]), phrase)
      invariant out == body
    {
      if Contains(ParagraphText(paragraphs[i]), phrase) {
        var pos := i;
        var m := 0;
        while m < |findings|
          invariant 0 <= m <= |findings| && pos == i + m
          invariant out == body[..i + 1] + findings[..m] + body[i + 1..]
        {
          InsertStep(body, findings, i + 1, m);
          out := out[..pos + 1] + [findings[m]] + out[pos + 1..];
          pos := pos + 1;
          m := m + 1;
        }
        assert findings[..m] == findings;
        return;
      }
      i := i + 1;
    }
  }

  /** One `insert(i + 1, element)` with `i += 1`: the next findings element goes in
      right after those already inserted. */
  lemma InsertStep(body: seq<Block>, findings: seq<Block>, at: nat, m: nat)
    requires at <= |body| && m < |findings|
    ensures var out := body[..at] + findings[..m] + body[at..];
      out[..at + m] + [findings[m]] + out[at + m..] == body[..at] + findings[..m + 1] + body[at..]
  {
    var out := body[..at] + findings[..m] + body[at..];
    assert out[..at + m] == body[..at] + findings[..m];
    assert out[at + m..] == body[at..];
    assert findings[..m + 1] == findings[..m] + [findings[m]];
  }

  /** `out` is `body` with `findings` inserted at position `at`: the blocks before `at`
      and after the inserted run are the body's own, in order. */
  predicate InsertedAt(body: seq<Block>, findings: seq<Block>, out: seq<Block>, at: nat) {
    at <= |body| && |out| == |body| + |findings| && out[..at] == body[..at] &&
    out[at..at + |findings|] == findings && out[at + |findings|..] == body[at..]
  }

  lemma Insertion(body: seq<Block>, findings: seq<Block>, at: nat)
    requires at <= |body|
    ensures InsertedAt(body, findings, body[..at] + findings + body[at..], at)
  {
    var out := body[..at] + findings + body[at..];
    assert out[..at] == body[..at];
    assert out[at..at + |findings|] == findings;
    assert out[at + |findings|..] == body[at..];
  }

  /** Removing the inserted blocks gives the body back. */
  lemma InsertionUndone(body: seq<Block>, findings: seq<Block>, out: seq<Block>, at: nat)
    requires InsertedAt(body, findings, out, at)
    ensures out[..at] + out[at + |findings|..] == body
  {
    assert body[..at] + body[at..] == body;
  }

  /** The splice is a pure insertion: with the first anchor at paragraph index p, the
      findings appear contiguously and in order at position p + 1 and everything else is
      the original body; without an anchor the body is unchanged. */
  lemma SpliceShape(body: seq<Block>, findings: seq<Block>, phrase: string)
    ensures FirstAnchor(Paragraphs(body), phrase).None? ==> Spliced(body, findings, phrase) == body
    ensures FirstAnchor(Paragraphs(body), phrase).Some? ==>
      InsertedAt(body, findings, Spliced(body, findings, phrase), FirstAnchor(Paragraphs(body), phrase).value + 1)
  {
    if FirstAnchor(Paragraphs(body), phrase).Some? {
      Insertion(body, findings, FirstAnchor(Paragraphs(body), phrase).value + 1);
    }
  }

  /** The number of blocks of a body that are not paragraphs. */
  function NonParagraphs(blocks: seq<Block>): nat {
    if blocks == [] then 0 else (if blocks[0].Para? then 0 else 1) + NonParagraphs(blocks[1..])
  }

  /** A paragraph at body index q is paragraph number q - t, where t counts the tables
      and other elements before it, and the paragraphs before it are those of body[..q]. */
  lemma {:induction false} ParagraphIndex(body: seq<Block>, q: nat)
    requires q < |body| && body[q].Para?
    ensures NonParagraphs(body[..q]) <= q
    ensures var p := q - NonParagraphs(body[..q]);
      p < |Paragraphs(body)| && Paragraphs(body)[p] == body[q].paragraph &&
      Paragraphs(body)[..p] == Paragraphs(body[..q])
  {
    if q > 0 {
      ParagraphIndex(body[1..], q - 1);
      assert body[..q][1..] == body[1..][..q - 1];
      assert body[..q][0] == body[0];
    } else {
      assert body[..q] == [];
    }
  }

  /** Every paragraph of `Paragraphs(body)` is a paragraph block of `body`. */
  lemma {:induction false} ParagraphsFromBody(body: seq<Block>, x: Paragraph)
    requires x in Paragraphs(body)
    ensures exists m :: 0 <= m < |body| && body[m] == Para(x)
  {
    if body[0].Para? && body[0].paragraph == x {
      assert body[0] == Para(x);
    } else {
      ParagraphsFromBody(body[1..], x);
      var m :| 0 <= m < |body[1..]| && body[1..][m] == Para(x);
      assert body[m + 1] == Para(x);
    }
  }

  /** The first anchor paragraph, found at block q of the body behind t tables or other
      elements, is paragraph number q - t. */
  lemma AnchorIndex(body: seq<Block>, q: nat, phrase: string)
    requires q < |body| && body[q].Para? && Contains(ParagraphText(body[q].paragraph), phrase)
    requires forall m :: 0 <= m < q && body[m].Para? ==> !Contains(ParagraphText(body[m].paragraph), phrase)
    ensures NonParagraphs(body[..q]) <= q
    ensures FirstAnchor(Paragraphs(body), phrase) == Some(q - NonParagraphs(body[..q]))
  {
    ParagraphIndex(body, q);
    var p := q - NonParagraphs(body[..q]);
    var ps := Paragraphs(body);
    forall j | 0 <= j < p ensures !Contains(ParagraphText(ps[j]), phrase) {
      assert ps[j] == ps[..p][j];
      assert ps[j] in Paragraphs(body[..q]);
      ParagraphsFromBody(body[..q], ps[j]);
      var m :| 0 <= m < q && body[..q][m] == Para(ps[j]);
      assert body[m] == Para(ps[j]);
    }
    assert p < |ps| && Contains(ParagraphText(ps[p]), phrase);
    var r := FirstAnchor(ps, phrase);
    assert r.Some? && r.value <= p;
    assert r.value >= p;
  }

  /** Where the findings land. Let the first anchor paragraph be block q of the body, with
      t tables or other elements before it: the findings go in at position q - t + 1.
      So they follow the anchor directly only when no table precedes it; otherwise
      they land t positions earlier, before the anchor. */
  lemma SplicePoint(body: seq<Block>, findings: seq<Block>, q: nat, phrase: string)
    requires q < |body| && body[q].Para? && Contains(ParagraphText(body[q].paragraph), phrase)
    requires forall m :: 0 <= m < q && body[m].Para? ==> !Contains(ParagraphText(body[m].paragraph), phrase)
    ensures NonParagraphs(body[..q]) <= q
    ensures var at := q - NonParagraphs(body[..q]) + 1;
      Spliced(body, findings, phrase) == body[..at] + findings + body[at..]
    ensures NonParagraphs(body[..q]) == 0 ==>
      Spliced(body, findings, phrase)[q] == body[q] && Spliced(body, findings, phrase)[q + 1..q + 1 + |findings|] == findings
  {
    AnchorIndex(body, q, phrase);
    if NonParagraphs(body[..q]) == 0 {
      var out := Spliced(body, findings, phrase);
      Insertion(body, findings, q + 1);
      assert out[..q + 1][q] == out[q];
    }
  }

  /** The source's behaviour with a table before the anchor: for the body [table, anchor,
      paragraph] the findings go in between the table and the anchor paragraph. */
  lemma TableBeforeAnchorExample(x: Paragraph, findings: seq<Block>)
    ensures var anchor := Para(Paragraph([PlainRun(Anchor)]));
      Spliced([Table([]), anchor, Para(x)], findings, Anchor) == [Table([])] + findings + [anchor, Para(x)]
  {
    var anchor := Para(Paragraph([PlainRun(Anchor)]));
    var body := [Table([]), anchor, Para(x)];
    assert ParagraphText(anchor.paragraph) == Anchor by {
      assert RunsText([PlainRun(Anchor)]) == RunsText([]) + RunText(PlainRun(Anchor));
      assert Concat([Anchor]) == Concat([]) + Anchor;
    }
    assert IsPrefix(Anchor, Anchor);
    assert Contains(ParagraphText(body[1].paragraph), Anchor);
    assert body[..1] == [Table([])];
    assert NonParagraphs([Table([])]) == 1 by {
      assert [Table([])][1..] == [];
    }
    SplicePoint(body, findings, 1, Anchor);
    assert body[..1] == [Table([])] && body[1..] == [anchor, Para(x)];
  }

  /** The findings, built with `test`, spliced into `body` after the first paragraph holding `phrase`. */
  function Assemble(records: seq<Record>, body: seq<Block>, test: RateTest, phrase: string): Result<seq<Block>, ParseError> {
    match Findings(records, test)
    case Failure(e) => Failure(e)
    case Success(findings) => Success(Spliced(body, findings, phrase))
  }

  /** Assembly fails exactly when some rate fails the test. Otherwise the body is left as
      it is when no paragraph holds the phrase, and gets 3 blocks per record plus one per
      reason prompt inserted after the first such paragraph's index among the paragraphs
      when one does. */
  lemma AssembleSpec(records: seq<Record>, body: seq<Block>, test: RateTest, phrase: string)
    ensures Assemble(records, body, test, phrase).Failure? <==>
      exists k :: 0 <= k < |records| && test(records[k].retestRate).Failure?
    ensures Assemble(records, body, test, phrase).Success? ==>
      var out := Assemble(records, body, test, phrase).value;
      var anchor := FirstAnchor(Paragraphs(body), phrase);
      (anchor.None? ==> out == body) &&
      (anchor.Some? ==>
        |out| == |body| + 3 * |records| + ReasonCount(records, test) &&
        InsertedAt(body, Findings(records, test).value, out, anchor.value + 1))
  {
    FindingsFail(records, test);
    if Findings(records, test).Success? {
      FindingsCount(records, test);
      SpliceShape(body, Findings(records, test).value, phrase);
    }
  }

  /** The assembled document: the findings, built with `NeedsReason`, spliced after the
      anchor paragraph of the rewritten template. `AssembleSpec` states what it produces. */
  function Compose(records: seq<Record>, template: seq<Block>, start: DateTime, end: DateTime): Result<seq<Block>, ParseError>
    requires Timestamp.Valid(start) && Timestamp.Valid(end)
  {
    Assemble(records, RewriteBody(template, TimeWindow(start, end)), NeedsReason, Anchor)
  }
}
