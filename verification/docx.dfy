/**
  * The python-docx view of a document that the styling, merging and
  * post-processing scripts work on: runs and paragraphs carry both the
  * properties python-docx sets through its own setters (`run.font.size`,
  * `paragraph_format.alignment`, ...) and the raw `rPr` / `pPr` children the
  * scripts edit by hand.
  */
module Docx {
  import opened Xml

  const ARABIC_FONT: string := "Traditional Arabic"
  const LATIN_FONT: string := "Times New Roman"

  const RFONTS: QName := Wq("rFonts")
  const SZCS: QName := Wq("szCs")
  const BCS: QName := Wq("bCs")
  const RTL: QName := Wq("rtl")
  const BIDI: QName := Wq("bidi")
  const ASCII: QName := Wq("ascii")
  const HANSI: QName := Wq("hAnsi")
  const CS: QName := Wq("cs")
  const VAL: QName := Wq("val")

  /** The characters of the Arabic and Arabic Supplement blocks. */
  predicate IsArabic(c: char) {
    ('\U{0600}' <= c <= '\U{06FF}') || ('\U{0750}' <= c <= '\U{077F}')
  }

  /** `has_arabic(text)`: some character of the text is Arabic (empty text has none). */
  function HasArabic(t: string): (b: bool)
    ensures b <==> exists i | 0 <= i < |t| :: IsArabic(t[i])
  {
    if t == [] then false
    else
      assert forall i | 0 < i < |t| :: t[i] == t[1..][i - 1];
      IsArabic(t[0]) || HasArabic(t[1..])
  }

  /** Arabic text anywhere in a concatenation is Arabic text of the whole. */
  lemma HasArabicConcat(a: string, b: string)
    ensures HasArabic(a + b) <==> HasArabic(a) || HasArabic(b)
  {
    if HasArabic(a) {
      var i :| 0 <= i < |a| && IsArabic(a[i]);
      assert (a + b)[i] == a[i];
    }
    if HasArabic(b) {
      var i :| 0 <= i < |b| && IsArabic(b[i]);
      assert (a + b)[|a| + i] == b[i];
    }
    if HasArabic(a + b) {
      var i :| 0 <= i < |a + b| && IsArabic((a + b)[i]);
      if i < |a| { assert a[i] == (a + b)[i]; } else { assert b[i - |a|] == (a + b)[i]; }
    }
  }

  datatype Align = Left | Center | Right | Justify

  datatype Rgb = Rgb(r: nat, g: nat, b: nat)

  /**
    * The run properties python-docx sets through `run.font` and keeps outside
    * the `rPr` children the scripts edit; `None` is "inherit". The font name
    * is not among them: it lives in `rFonts` (see `FontName`).
    */
  datatype Font = Font(size: Option<nat>, bold: Option<bool>, italic: Option<bool>, color: Option<Rgb>)

  const NO_FONT: Font := Font(None, None, None, None)

  /** A `w:r`: its `rPr` children, its content children and its font properties. */
  datatype Run = Run(rPr: seq<Element>, kids: seq<Element>, font: Font)

  /**
    * What `run.text` reads off one content child: a `w:br` is a newline only
    * as a line break (no `type`, or `textWrapping`), page and column breaks
    * read as nothing.
    */
  function ChildText(e: Element): string {
    if e.tag == Wq("t") then e.text
    else if e.tag == Wq("tab") || e.tag == Wq("ptab") then "\t"
    else if e.tag == Wq("br") then (if Wq("type") !in e.attrs || e.attrs[Wq("type")] == "textWrapping" then "\n" else "")
    else if e.tag == Wq("cr") then "\n"
    else if e.tag == Wq("noBreakHyphen") then "-"
    else ""
  }

  /** `run.font.name`: the `ascii` face of the first rFonts among the run properties, if any. */
  function FontName(rPr: seq<Element>): Option<string> {
    match Find(rPr, RFONTS)
    case Some(f) => if ASCII in f.attrs then Some(f.attrs[ASCII]) else None
    case None => None
  }

  /** A run whose first property is an rFonts is named by that rFonts. */
  lemma FontNameFirst(rPr: seq<Element>, f: Element)
    requires |rPr| > 0 && rPr[0] == f && f.tag == RFONTS && ASCII in f.attrs
    ensures FontName(rPr) == Some(f.attrs[ASCII])
  {
    assert Only(rPr, RFONTS)[0] == f;
  }

  /** `run.text`: the text of the content children in order. */
  function RunText(kids: seq<Element>): string {
    if kids == [] then "" else ChildText(kids[0]) + RunText(kids[1..])
  }

  /**
    * The paragraph properties python-docx sets through `paragraph_format`:
    * spacing in points, line spacing in hundredths of a line, first-line
    * indent in twips.
    */
  datatype Format = Format(alignment: Option<Align>, spaceBefore: Option<nat>, spaceAfter: Option<nat>,
                           lineSpacing: Option<nat>, keepWithNext: Option<bool>,
                           pageBreakBefore: Option<bool>, firstLineIndent: Option<int>)

  const NO_FORMAT: Format := Format(None, None, None, None, None, None, None)

  /** A `w:p`: style name, formatting, `pPr` children and runs. */
  datatype Paragraph = Paragraph(style: string, format: Format, pPr: seq<Element>, runs: seq<Run>)

  /** `paragraph.text` */
  function ParaText(runs: seq<Run>): string {
    if runs == [] then "" else RunText(runs[0].kids) + ParaText(runs[1..])
  }

  /** A run with no content: what `add_run()` creates. */
  const EMPTY_RUN: Run := Run([], [], NO_FONT)

  /** What `add_paragraph()` creates. */
  const EMPTY_PARAGRAPH: Paragraph := Paragraph("Normal", NO_FORMAT, [], [])

  /** `p.clear()`: every run goes, the paragraph properties stay. */
  function Clear(p: Paragraph): (r: Paragraph)
    ensures r.runs == [] && ParaText(r.runs) == ""
    ensures r.pPr == p.pPr && r.format == p.format && r.style == p.style
  {
    p.(runs := [])
  }

  /** `p.text = ''`: the runs are replaced by a single empty run. */
  function Blank(p: Paragraph): (r: Paragraph)
    ensures |r.runs| == 1 && ParaText(r.runs) == ""
    ensures r.pPr == p.pPr && r.format == p.format && r.style == p.style
  {
    assert [EMPTY_RUN][1..] == [];
    p.(runs := [EMPTY_RUN])
  }

  /** A header or footer part: whether it follows the previous section's, and its paragraphs. */
  datatype Story = Story(linked: bool, paras: seq<Paragraph>)

  datatype HeaderFooter = HeaderFooter(header: Story, footer: Story)

  /** The header or footer of a section without references of its own: it follows the previous section's. */
  const LINKED: Story := Story(true, [])

  const LINKED_HF: HeaderFooter := HeaderFooter(LINKED, LINKED)

  /**
    * `is_linked_to_previous = False`: a linked story gets a part of its own,
    * made from the default template (one empty paragraph in the `style`
    * style); a story with its own part keeps it.
    */
  function Unlink(s: Story, style: string): Story {
    if s.linked then Story(false, [Paragraph(style, NO_FORMAT, [], [])]) else s
  }

  /** A section: its `sectPr` children and its header and footer. */
  datatype Section = Section(sectPr: seq<Element>, hf: HeaderFooter)

  /** A table cell: its `tcPr` children and its paragraphs. */
  datatype Cell = Cell(tcPr: seq<Element>, paras: seq<Paragraph>)

  /** A table: whether it is centred on the page, and its rows of cells. */
  datatype Table = Table(centered: bool, rows: seq<seq<Cell>>)

  /** An open document: its body paragraphs, its tables and its sections, all edited in place. */
  class Document {
    var paras: seq<Paragraph>
    var tables: seq<Table>
    var sections: seq<Section>

    constructor(paras: seq<Paragraph>, tables: seq<Table>, sections: seq<Section>)
      ensures this.paras == paras && this.tables == tables && this.sections == sections
    {
      this.paras := paras;
      this.tables := tables;
      this.sections := sections;
    }
  }

  // ---------------------------------------------------------------------------
  // The PAGE field of a footer
  // ---------------------------------------------------------------------------

  const FLD_CHAR: QName := Wq("fldChar")
  const FLD_CHAR_TYPE: QName := Wq("fldCharType")
  const INSTR_TEXT: QName := Wq("instrText")

  function FieldChar(kind: string): Element {
    Element(FLD_CHAR, map[FLD_CHAR_TYPE := kind], [], "")
  }

  const PAGE_INSTR: Element := Element(INSTR_TEXT, map[QName(XML_NS, "space") := "preserve"], [], " PAGE ")

  /** The field children of a simple PAGE field, one per run: start, instruction, end. */
  const PAGE_FIELD: seq<Element> := [FieldChar("begin"), PAGE_INSTR, FieldChar("end")]

  /** The runs from `k` on hold, one each and in order, the children of a PAGE field. */
  predicate PageFieldAt(runs: seq<Run>, k: nat) {
    k + |PAGE_FIELD| <= |runs| && forall j | 0 <= j < |PAGE_FIELD| :: runs[k + j].kids == [PAGE_FIELD[j]]
  }
}
