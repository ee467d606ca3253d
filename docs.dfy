/** The word-processing document as the pipeline sees it: a body of paragraphs, tables
    and other elements, paragraphs made of runs, runs made of text fragments. */
module Docs {
  import opened Wrappers
  import opened Text

  /** Which of `w:b`, `w:i` and `w:u` a run's `w:rPr` holds. Presence is what counts:
      the renderer never looks at their values. */
  datatype RunProps = RunProps(bold: bool, italic: bool, underline: bool)

  /** A run: its `w:rPr`, if it has one, and the texts of its `w:t` fragments in order. */
  datatype Run = Run(props: Option<RunProps>, fragments: seq<string>)

  datatype Paragraph = Paragraph(runs: seq<Run>)

  /** An element of a document body: a paragraph, a table (rows of cells, each cell a
      sequence of paragraphs) or anything else (section properties, for one). */
  datatype Block = Para(paragraph: Paragraph) | Table(rows: seq<seq<seq<Paragraph>>>) | OtherElement

  /** The text of a run: its fragments joined. */
  function RunText(r: Run): string {
    Concat(r.fragments)
  }

  /** The text of a sequence of runs. */
  function RunsText(runs: seq<Run>): string {
    if runs == [] then "" else RunsText(runs[..|runs| - 1]) + RunText(runs[|runs| - 1])
  }

  /** python-docx's `paragraph.text`: the texts of its runs joined. */
  function ParagraphText(p: Paragraph): string {
    RunsText(p.runs)
  }

  /** python-docx's `document.paragraphs`: the paragraphs directly in the body, in order
      (paragraphs inside tables are not among them). */
  function Paragraphs(body: seq<Block>): (ps: seq<Paragraph>)
    ensures |ps| <= |body|
  {
    if body == [] then []
    else (if body[0].Para? then [body[0].paragraph] else []) + Paragraphs(body[1..])
  }

  /** A run without properties holding `text`, as `add_run(text)` and the `text` setters
      of a paragraph and of a table cell create it. */
  function PlainRun(text: string): Run {
    Run(None, [text])
  }

  /** A run holding `text` with `run.bold = True`, which adds `w:b` to its `w:rPr`. */
  function BoldRun(text: string): Run {
    Run(Some(RunProps(true, false, false)), [text])
  }

  /** The content of a table cell after `cell.text = text`: one paragraph with one plain run. */
  function TextCell(text: string): seq<Paragraph> {
    [Paragraph([PlainRun(text)])]
  }

  /** A body whose blocks up to index `p` are all paragraphs has those paragraphs first
      among its paragraphs, at the same indices. */
  lemma {:induction false} LeadingParagraphs(body: seq<Block>, p: nat)
    requires p < |body| && forall m :: 0 <= m <= p ==> body[m].Para?
    ensures p < |Paragraphs(body)| && Paragraphs(body)[p] == body[p].paragraph
  {
    if p > 0 {
      LeadingParagraphs(body[1..], p - 1);
    }
  }
}
