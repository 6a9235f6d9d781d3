/**
  * The styling pass that makes the converted thesis look like its LaTeX
  * original: per-run font slots and complex-script size, per-paragraph
  * formatting with right-to-left direction, table styling, a header rule and
  * a PAGE field in every footer, and the index-guarded rules that style the
  * title page, the front matter, the headings and the body paragraphs.
  */
module Style {
  import opened Xml
  import opened Docx

  // ---------------------------------------------------------------------------
  // Runs
  // ---------------------------------------------------------------------------

  /** `str(int(size_pt * 2))`: the complex-script size in half-points, as a decimal numeral. */
  function HalfPoints(size: nat): (v: string)
    ensures (forall k | 0 <= k < |v| :: '0' <= v[k] <= '9') && ParseNat(v) == 2 * size
  {
    ParseNatToString(2 * size);
    NatToString(2 * size)
  }

  /** The font slots: `w:cs` always the Arabic face, `w:ascii` and `w:hAnsi` the face chosen for the run. */
  function FontSlots(rPr: seq<Element>, face: string, ar: string): (r: seq<Element>)
    ensures var f := Find(r, RFONTS);
            f.Some? && CS in f.value.attrs && ASCII in f.value.attrs && HANSI in f.value.attrs
            && f.value.attrs[CS] == ar && f.value.attrs[ASCII] == face && f.value.attrs[HANSI] == face
    ensures Count(r, RFONTS) == if Count(rPr, RFONTS) == 0 then 1 else Count(rPr, RFONTS)
    ensures Count(rPr, RFONTS) == 0 ==> |r| > 0 && r[0].tag == RFONTS
    ensures Without(r, {RFONTS}) == Without(rPr, {RFONTS})
    ensures forall u | u != RFONTS :: Only(r, u) == Only(rPr, u)
  {
    CountZeroIff(rPr, RFONTS);
    var r := Upsert(rPr, RFONTS, map[ASCII := face, HANSI := face, CS := ar], true);
    assert CS != ASCII && CS != HANSI by {
      assert "cs" != "ascii" && "cs" != "hAnsi";
    }
    UpsertSlots(rPr, RFONTS, ASCII, HANSI, CS, face, ar);
    r
  }

  /** Two slots set to `x` and a third, of another name, set to `y` all read back after the upsert. */
  lemma UpsertSlots(kids: seq<Element>, t: QName, a: QName, b: QName, c: QName, x: string, y: string)
    requires c != a && c != b
    ensures var m := Find(Upsert(kids, t, map[a := x, b := x, c := y], true), t).value.attrs;
            a in m && b in m && c in m && m[a] == x && m[b] == x && m[c] == y
  {
    var vals := map[a := x, b := x, c := y];
    var m := Find(Upsert(kids, t, vals, true), t).value.attrs;
    var before := if Find(kids, t).Some? then Find(kids, t).value.attrs else map[];
    assert m == before + vals;
  }

  /** `w:szCs` with the size in half-points, reusing the first one there is. */
  function SizeCs(rPr: seq<Element>, size: nat): (r: seq<Element>)
    ensures var z := Find(r, SZCS); z.Some? && VAL in z.value.attrs && z.value.attrs[VAL] == HalfPoints(size)
    ensures Count(r, SZCS) == if Count(rPr, SZCS) == 0 then 1 else Count(rPr, SZCS)
    ensures |rPr| > 0 ==> |r| > 0 && r[0].tag == rPr[0].tag
    ensures Without(r, {SZCS}) == Without(rPr, {SZCS})
    ensures forall u | u != SZCS :: Only(r, u) == Only(rPr, u)
  {
    Upsert(rPr, SZCS, map[VAL := HalfPoints(size)], false)
  }

  /** `w:bCs`: added for bold, the first one removed for not bold, untouched when bold is not given. */
  function BoldCs(rPr: seq<Element>, bold: Option<bool>): (r: seq<Element>)
    ensures bold == Some(true) ==> Count(r, BCS) == if Count(rPr, BCS) == 0 then 1 else Count(rPr, BCS)
    ensures bold == Some(false) ==> Count(r, BCS) == if Count(rPr, BCS) == 0 then 0 else Count(rPr, BCS) - 1
    ensures bold.None? ==> r == rPr
    ensures |rPr| > 0 && rPr[0].tag != BCS ==> |r| > 0 && r[0].tag == rPr[0].tag
    ensures Without(r, {BCS}) == Without(rPr, {BCS})
    ensures forall u | u != BCS :: Only(r, u) == Only(rPr, u)
  {
    if bold == Some(true) then EnsureChild(rPr, BCS)
    else if bold == Some(false) then RemoveFirst(rPr, BCS)
    else rPr
  }

  /** `w:rtl` for a run with Arabic text, added only when missing. */
  function RtlFor(rPr: seq<Element>, arabic: bool): (r: seq<Element>)
    ensures arabic ==> Count(r, RTL) == if Count(rPr, RTL) == 0 then 1 else Count(rPr, RTL)
    ensures !arabic ==> r == rPr
    ensures rPr <= r
    ensures Without(r, {RTL}) == Without(rPr, {RTL})
    ensures forall u | u != RTL :: Only(r, u) == Only(rPr, u)
  {
    if arabic then EnsureChild(rPr, RTL) else rPr
  }

  /** `set_run_font(run, ar, lat, size, bold, color)` */
  function SetRunFont(run: Run, ar: string, lat: string, size: nat, bold: Option<bool>, color: Option<Rgb>): Run {
    var arabic := HasArabic(RunText(run.kids));
    var rPr := RtlFor(BoldCs(SizeCs(FontSlots(run.rPr, if arabic then ar else lat, ar), size), bold), arabic);
    var font := run.font.(size := Some(size),
                          bold := if bold.Some? then bold else run.font.bold,
                          color := if color.Some? then color else run.font.color);
    Run(rPr, run.kids, font)
  }

  /** The font slots of a styled run follow its script; an existing rFonts is reused, a missing one goes first. */
  lemma RunFontSlots(run: Run, ar: string, lat: string, size: nat, bold: Option<bool>, color: Option<Rgb>)
    ensures var r := SetRunFont(run, ar, lat, size, bold, color);
            var f := Find(r.rPr, RFONTS);
            var face := if HasArabic(RunText(run.kids)) then ar else lat;
            f.Some? && CS in f.value.attrs && ASCII in f.value.attrs && HANSI in f.value.attrs
            && f.value.attrs[CS] == ar && f.value.attrs[ASCII] == face && f.value.attrs[HANSI] == face
    ensures var r := SetRunFont(run, ar, lat, size, bold, color);
            Count(r.rPr, RFONTS) == if Count(run.rPr, RFONTS) == 0 then 1 else Count(run.rPr, RFONTS)
    ensures var r := SetRunFont(run, ar, lat, size, bold, color);
            Count(run.rPr, RFONTS) == 0 ==> |r.rPr| > 0 && r.rPr[0].tag == RFONTS
  {
    var arabic := HasArabic(RunText(run.kids));
    var p1 := FontSlots(run.rPr, if arabic then ar else lat, ar);
    var p2 := SizeCs(p1, size);
    var p3 := BoldCs(p2, bold);
    var p4 := RtlFor(p3, arabic);
    assert Only(p4, RFONTS) == Only(p1, RFONTS);
    if Count(run.rPr, RFONTS) == 0 {
      assert p4[0] == p3[0];
    }
  }

  /** The complex-script size of a styled run is twice the point size, in an szCs that is reused when present. */
  lemma RunFontSize(run: Run, ar: string, lat: string, size: nat, bold: Option<bool>, color: Option<Rgb>)
    ensures var r := SetRunFont(run, ar, lat, size, bold, color);
            r.font.size == Some(size)
            && Find(r.rPr, SZCS).Some? && VAL in Find(r.rPr, SZCS).value.attrs
            && ParseNat(Find(r.rPr, SZCS).value.attrs[VAL]) == 2 * size
    ensures var r := SetRunFont(run, ar, lat, size, bold, color);
            Count(r.rPr, SZCS) == if Count(run.rPr, SZCS) == 0 then 1 else Count(run.rPr, SZCS)
  {
    var arabic := HasArabic(RunText(run.kids));
    var p1 := FontSlots(run.rPr, if arabic then ar else lat, ar);
    var p2 := SizeCs(p1, size);
    var p3 := BoldCs(p2, bold);
    var p4 := RtlFor(p3, arabic);
    assert Only(p4, SZCS) == Only(p2, SZCS);
    assert Only(p1, SZCS) == Only(run.rPr, SZCS);
  }

  /** Bold given as true guarantees a bCs, false removes the first one, nothing given leaves bold and bCs alone. */
  lemma RunFontBold(run: Run, ar: string, lat: string, size: nat, bold: Option<bool>, color: Option<Rgb>)
    ensures var r := SetRunFont(run, ar, lat, size, bold, color);
            bold == Some(true) ==> r.font.bold == Some(true) && Count(r.rPr, BCS) >= 1
    ensures var r := SetRunFont(run, ar, lat, size, bold, color);
            bold == Some(false) ==> (r.font.bold == Some(false)
              && Count(r.rPr, BCS) == (if Count(run.rPr, BCS) == 0 then 0 else Count(run.rPr, BCS) - 1))
    ensures var r := SetRunFont(run, ar, lat, size, bold, color);
            bold.None? ==> r.font.bold == run.font.bold && Count(r.rPr, BCS) == Count(run.rPr, BCS)
  {
    var arabic := HasArabic(RunText(run.kids));
    var p1 := FontSlots(run.rPr, if arabic then ar else lat, ar);
    var p2 := SizeCs(p1, size);
    var p3 := BoldCs(p2, bold);
    var p4 := RtlFor(p3, arabic);
    assert SetRunFont(run, ar, lat, size, bold, color).rPr == p4;
    assert Count(p4, BCS) == Count(p3, BCS) by {
      assert Only(p4, BCS) == Only(p3, BCS);
    }
    assert Count(p2, BCS) == Count(run.rPr, BCS) by {
      assert Only(p2, BCS) == Only(p1, BCS) == Only(run.rPr, BCS);
    }
  }

  /** An Arabic run ends up with exactly as many rtl as before, or one if it had none; other runs keep theirs. */
  lemma RunFontRtl(run: Run, ar: string, lat: string, size: nat, bold: Option<bool>, color: Option<Rgb>)
    ensures var r := SetRunFont(run, ar, lat, size, bold, color);
            HasArabic(RunText(run.kids)) ==> Count(r.rPr, RTL) == if Count(run.rPr, RTL) == 0 then 1 else Count(run.rPr, RTL)
    ensures var r := SetRunFont(run, ar, lat, size, bold, color);
            !HasArabic(RunText(run.kids)) ==> Count(r.rPr, RTL) == Count(run.rPr, RTL)
  {
    var arabic := HasArabic(RunText(run.kids));
    var p1 := FontSlots(run.rPr, if arabic then ar else lat, ar);
    var p2 := SizeCs(p1, size);
    var p3 := BoldCs(p2, bold);
    assert Only(p3, RTL) == Only(p2, RTL) == Only(p1, RTL) == Only(run.rPr, RTL);
  }

  /** Styling a run sets `font.name` to the face of its script and leaves its content, its other font properties and every other rPr child alone. */
  lemma RunFontRest(run: Run, ar: string, lat: string, size: nat, bold: Option<bool>, color: Option<Rgb>)
    ensures var r := SetRunFont(run, ar, lat, size, bold, color);
            r.kids == run.kids && r.font.italic == run.font.italic
            && FontName(r.rPr) == Some(if HasArabic(RunText(run.kids)) then ar else lat)
            && r.font.color == (if color.Some? then color else run.font.color)
    ensures var r := SetRunFont(run, ar, lat, size, bold, color);
            Without(r.rPr, {RFONTS, SZCS, BCS, RTL}) == Without(run.rPr, {RFONTS, SZCS, BCS, RTL})
  {
    var ts := {RFONTS, SZCS, BCS, RTL};
    var arabic := HasArabic(RunText(run.kids));
    var p1 := FontSlots(run.rPr, if arabic then ar else lat, ar);
    var p2 := SizeCs(p1, size);
    var p3 := BoldCs(p2, bold);
    var p4 := RtlFor(p3, arabic);
    WithoutWider(p1, run.rPr, RFONTS, ts);
    WithoutWider(p2, p1, SZCS, ts);
    WithoutWider(p3, p2, BCS, ts);
    WithoutWider(p4, p3, RTL, ts);
    RunFontSlots(run, ar, lat, size, bold, color);
  }

  // ---------------------------------------------------------------------------
  // Paragraphs
  // ---------------------------------------------------------------------------

  /** An optional argument overrides the property it names; `None` leaves it as it was. */
  function Override<T>(arg: Option<T>, old_: Option<T>): (r: Option<T>)
    ensures arg.Some? ==> r == arg
    ensures arg.None? ==> r == old_
  {
    if arg.Some? then arg else old_
  }

  /** A flag that can only switch its property on. */
  function SwitchOn(flag: bool, old_: Option<bool>): (r: Option<bool>)
    ensures flag ==> r == Some(true)
    ensures !flag ==> r == old_
  {
    if flag then Some(true) else old_
  }

  /**
    * `set_paragraph_format(para, alignment, space_before, space_after,
    * line_spacing, keep_next, page_break_before, first_line_indent)`
    */
  function SetParagraphFormat(p: Paragraph, alignment: Option<Align>, spaceBefore: Option<nat>, spaceAfter: Option<nat>,
                              lineSpacing: Option<nat>, keepNext: bool, pageBreakBefore: bool,
                              firstLineIndent: Option<int>): (r: Paragraph)
    ensures alignment.Some? ==> r.format.alignment == alignment
    ensures alignment.None? ==> r.format.alignment == p.format.alignment
    ensures spaceBefore.Some? ==> r.format.spaceBefore == spaceBefore
    ensures spaceBefore.None? ==> r.format.spaceBefore == p.format.spaceBefore
    ensures spaceAfter.Some? ==> r.format.spaceAfter == spaceAfter
    ensures spaceAfter.None? ==> r.format.spaceAfter == p.format.spaceAfter
    ensures lineSpacing.Some? ==> r.format.lineSpacing == lineSpacing
    ensures lineSpacing.None? ==> r.format.lineSpacing == p.format.lineSpacing
    ensures firstLineIndent.Some? ==> r.format.firstLineIndent == firstLineIndent
    ensures firstLineIndent.None? ==> r.format.firstLineIndent == p.format.firstLineIndent
    // keep-with-next and page-break-before are only ever switched on
    ensures keepNext ==> r.format.keepWithNext == Some(true)
    ensures !keepNext ==> r.format.keepWithNext == p.format.keepWithNext
    ensures pageBreakBefore ==> r.format.pageBreakBefore == Some(true)
    ensures !pageBreakBefore ==> r.format.pageBreakBefore == p.format.pageBreakBefore
    // always right-to-left: a bidi is added when there is none and never duplicated
    ensures Count(r.pPr, BIDI) == if Count(p.pPr, BIDI) == 0 then 1 else Count(p.pPr, BIDI)
    ensures Without(r.pPr, {BIDI}) == Without(p.pPr, {BIDI})
    ensures r.runs == p.runs && r.style == p.style
  {
    var f := p.format;
    var format := Format(Override(alignment, f.alignment), Override(spaceBefore, f.spaceBefore),
                         Override(spaceAfter, f.spaceAfter), Override(lineSpacing, f.lineSpacing),
                         SwitchOn(keepNext, f.keepWithNext), SwitchOn(pageBreakBefore, f.pageBreakBefore),
                         Override(firstLineIndent, f.firstLineIndent));
    p.(format := format, pPr := EnsureChild(p.pPr, BIDI))
  }

  /** Formatting a paragraph a second time with the same arguments changes nothing more. */
  lemma SetParagraphFormatIdempotent(p: Paragraph, alignment: Option<Align>, spaceBefore: Option<nat>, spaceAfter: Option<nat>,
                                     lineSpacing: Option<nat>, keepNext: bool, pageBreakBefore: bool,
                                     firstLineIndent: Option<int>)
    ensures var once := SetParagraphFormat(p, alignment, spaceBefore, spaceAfter, lineSpacing, keepNext, pageBreakBefore, firstLineIndent);
            SetParagraphFormat(once, alignment, spaceBefore, spaceAfter, lineSpacing, keepNext, pageBreakBefore, firstLineIndent) == once
  {
    var once := SetParagraphFormat(p, alignment, spaceBefore, spaceAfter, lineSpacing, keepNext, pageBreakBefore, firstLineIndent);
    assert Count(once.pPr, BIDI) > 0;
  }

  /** A paragraph with at most one bidi before comes out with exactly one. */
  lemma ExactlyOneBidi(p: Paragraph, alignment: Option<Align>, spaceBefore: Option<nat>, spaceAfter: Option<nat>,
                       lineSpacing: Option<nat>, keepNext: bool, pageBreakBefore: bool, firstLineIndent: Option<int>)
    requires Count(p.pPr, BIDI) <= 1
    ensures Count(SetParagraphFormat(p, alignment, spaceBefore, spaceAfter, lineSpacing, keepNext,
                                     pageBreakBefore, firstLineIndent).pPr, BIDI) == 1
  {
  }

  /** `set_paragraph_runs_font(para, size_pt, bold, color)` as a value: every run restyled, nothing else touched. */
  function RunsFont(p: Paragraph, size: nat, bold: Option<bool>, color: Option<Rgb>): (r: Paragraph)
    ensures |r.runs| == |p.runs| && r.style == p.style && r.format == p.format && r.pPr == p.pPr
    ensures forall i | 0 <= i < |p.runs| :: r.runs[i] == SetRunFont(p.runs[i], ARABIC_FONT, LATIN_FONT, size, bold, color)
  {
    p.(runs := seq(|p.runs|, i requires 0 <= i < |p.runs| => SetRunFont(p.runs[i], ARABIC_FONT, LATIN_FONT, size, bold, color)))
  }

  /** A loop over the runs of a paragraph that applies `f` to each, in place. */
  method EachRun(p: Paragraph, f: Run -> Run) returns (r: Paragraph)
    ensures r.style == p.style && r.format == p.format && r.pPr == p.pPr && |r.runs| == |p.runs|
    ensures forall j | 0 <= j < |p.runs| :: r.runs[j] == f(p.runs[j])
  {
    var runs := p.runs;
    for i := 0 to |runs|
      invariant |runs| == |p.runs|
      invariant forall j | 0 <= j < i :: runs[j] == f(p.runs[j])
      invariant forall j | i <= j < |runs| :: runs[j] == p.runs[j]
    {
      runs := runs[i := f(runs[i])];
    }
    r := p.(runs := runs);
  }

  /** `set_paragraph_runs_font(para, size_pt, bold, color)`: `set_run_font` on every run of the paragraph. */
  method SetParagraphRunsFont(p: Paragraph, size: nat, bold: Option<bool>, color: Option<Rgb>) returns (r: Paragraph)
    ensures r == RunsFont(p, size, bold, color)
  {
    r := EachRun(p, run => SetRunFont(run, ARABIC_FONT, LATIN_FONT, size, bold, color));
  }

  /** Runs with the same content read the same, whatever their properties. */
  lemma {:induction false} SameKidsSameText(a: seq<Run>, b: seq<Run>)
    requires |a| == |b| && forall i | 0 <= i < |a| :: a[i].kids == b[i].kids
    ensures ParaText(a) == ParaText(b)
    decreases |a|
  {
    if a != [] {
      SameKidsSameText(a[1..], b[1..]);
    }
  }

  /** Restyling runs never changes what the paragraph reads. */
  lemma RunsFontKeepsText(p: Paragraph, size: nat, bold: Option<bool>, color: Option<Rgb>)
    ensures ParaText(RunsFont(p, size, bold, color).runs) == ParaText(p.runs)
  {
    var r := RunsFont(p, size, bold, color);
    forall i | 0 <= i < |p.runs| ensures r.runs[i].kids == p.runs[i].kids {
      RunFontRest(p.runs[i], ARABIC_FONT, LATIN_FONT, size, bold, color);
    }
    SameKidsSameText(r.runs, p.runs);
  }

  // ---------------------------------------------------------------------------
  // Borders and tables
  // ---------------------------------------------------------------------------

  /** One `w:top` / `w:bottom` / ... border edge. */
  function Edge(side: string, sz: nat, space: string, color: string): Element {
    Element(Wq(side), map[VAL := "single", Wq("sz") := NatToString(sz), Wq("space") := space, Wq("color") := color], [], "")
  }

  const PBDR: QName := Wq("pBdr")

  /** A `w:pBdr` holding `edges`, appended to the paragraph properties. */
  function AppendBorder(p: Paragraph, edges: seq<Element>): (r: Paragraph)
    ensures Count(r.pPr, PBDR) == Count(p.pPr, PBDR) + 1
    ensures p.pPr <= r.pPr && r.pPr[|r.pPr| - 1].tag == PBDR && r.pPr[|r.pPr| - 1].kids == edges
    ensures forall u | u != PBDR :: Only(r.pPr, u) == Only(p.pPr, u)
    ensures r.runs == p.runs && r.format == p.format && r.style == p.style
  {
    var b := Element(PBDR, map[], edges, "");
    assert [b][1..] == [];
    forall u { OnlyConcat(p.pPr, [b], u); }
    p.(pPr := p.pPr + [b])
  }

  /** `add_bottom_border(para, sz, color)`: a `w:pBdr` with a bottom edge, appended to the paragraph properties. */
  function AddBottomBorder(p: Paragraph, sz: nat, color: string): (r: Paragraph)
    ensures Count(r.pPr, PBDR) == Count(p.pPr, PBDR) + 1
    ensures p.pPr <= r.pPr && r.pPr[|r.pPr| - 1].kids == [Edge("bottom", sz, "1", color)]
    ensures forall u | u != PBDR :: Only(r.pPr, u) == Only(p.pPr, u)
    ensures r.runs == p.runs && r.format == p.format && r.style == p.style
  {
    AppendBorder(p, [Edge("bottom", sz, "1", color)])
  }

  /** `add_top_and_bottom_border(para, sz, color)` */
  function AddTopAndBottomBorder(p: Paragraph, sz: nat, color: string): (r: Paragraph)
    ensures Count(r.pPr, PBDR) == Count(p.pPr, PBDR) + 1
    ensures p.pPr <= r.pPr && r.pPr[|r.pPr| - 1].kids == [Edge("top", sz, "1", color), Edge("bottom", sz, "1", color)]
    ensures forall u | u != PBDR :: Only(r.pPr, u) == Only(p.pPr, u)
    ensures r.runs == p.runs && r.format == p.format && r.style == p.style
  {
    AppendBorder(p, [Edge("top", sz, "1", color), Edge("bottom", sz, "1", color)])
  }

  const TC_BORDERS: QName := Wq("tcBorders")
  const V_ALIGN: QName := Wq("vAlign")
  const SHD: QName := Wq("shd")

  /** `set_cell_borders(cell, sz=4, color='000000')`: the four edges of the cell. */
  const CELL_BORDERS: Element := Element(TC_BORDERS, map[], [
    Edge("top", 4, "0", "000000"), Edge("bottom", 4, "0", "000000"),
    Edge("left", 4, "0", "000000"), Edge("right", 4, "0", "000000")], "")

  const CENTERED: Element := Element(V_ALIGN, map[VAL := "center"], [], "")

  /** `set_cell_shading(cell, 'D9E2F3')` */
  const HEADER_SHADING: Element := Element(SHD, map[Wq("fill") := "D9E2F3", VAL := "clear"], [], "")

  /** What `set_table_style` does to one paragraph of a cell; `header` for the cells of row 0. */
  function CellPara(header: bool, p: Paragraph): Paragraph {
    var q := RunsFont(SetParagraphFormat(p, Some(Center), Some(2), Some(2), Some(115), false, false, None), 11, None, None);
    if header then RunsFont(q, 11, Some(true), None) else q
  }

  /** The cell properties after `set_cell_borders`, the vertical alignment and, for a header cell, the shading. */
  function DressedTcPr(header: bool, tcPr: seq<Element>): seq<Element> {
    tcPr + [CELL_BORDERS, CENTERED] + (if header then [HEADER_SHADING] else [])
  }

  /** What `set_table_style` does to one cell. */
  function StyledCell(header: bool, c: Cell): Cell {
    Cell(DressedTcPr(header, c.tcPr), seq(|c.paras|, k requires 0 <= k < |c.paras| => CellPara(header, c.paras[k])))
  }

  /** `set_table_style(table)` as a value: the table centred, each cell styled as a header cell in row 0. */
  function StyledTable(t: Table): (r: Table)
    ensures r.centered && |r.rows| == |t.rows|
    ensures forall i | 0 <= i < |t.rows| :: |r.rows[i]| == |t.rows[i]|
    ensures forall i, j | 0 <= i < |t.rows| && 0 <= j < |t.rows[i]| :: r.rows[i][j] == StyledCell(i == 0, t.rows[i][j])
  {
    Table(true, seq(|t.rows|, i requires 0 <= i < |t.rows| =>
                  seq(|t.rows[i]|, j requires 0 <= j < |t.rows[i]| => StyledCell(i == 0, t.rows[i][j]))))
  }

  /** A loop over a list (a cell's paragraphs, the document's sections) that applies `f` to each item, in place. */
  method Each<T>(xs: seq<T>, f: T -> T) returns (r: seq<T>)
    ensures |r| == |xs|
    ensures forall k | 0 <= k < |xs| :: r[k] == f(xs[k])
  {
    r := xs;
    for k := 0 to |r|
      invariant |r| == |xs|
      invariant forall j | 0 <= j < k :: r[j] == f(xs[j])
      invariant forall j | k <= j < |r| :: r[j] == xs[j]
    {
      r := r[k := f(r[k])];
    }
  }

  /** The body of the cell loop of `set_table_style`. */
  method StyleCell(header: bool, c: Cell) returns (r: Cell)
    ensures r == StyledCell(header, c)
  {
    var tcPr := c.tcPr + [CELL_BORDERS, CENTERED];
    var paras := Each(c.paras, p => CellPara(false, p));
    if header {
      tcPr := tcPr + [HEADER_SHADING];
      paras := Each(paras, p => RunsFont(p, 11, Some(true), None));
    }
    r := Cell(tcPr, paras);
  }

  /** `set_table_style(table)`: every row, every cell, header row first. */
  method SetTableStyle(t: Table) returns (r: Table)
    ensures r == StyledTable(t)
  {
    var rows := t.rows;
    for i := 0 to |rows|
      invariant |rows| == |t.rows|
      invariant forall a | 0 <= a < i :: rows[a] == StyledTable(t).rows[a]
      invariant forall a | i <= a < |rows| :: rows[a] == t.rows[a]
    {
      var row := rows[i];
      for j := 0 to |row|
        invariant |row| == |t.rows[i]|
        invariant forall b | 0 <= b < j :: row[b] == StyledCell(i == 0, t.rows[i][b])
        invariant forall b | j <= b < |row| :: row[b] == t.rows[i][b]
      {
        var cell := StyleCell(i == 0, row[j]);
        row := row[j := cell];
      }
      rows := rows[i := row];
    }
    r := Table(true, rows);
  }

  /** Every cell gets borders and vertical centring; only a header cell gets the shading. */
  lemma CellDressed(header: bool, c: Cell)
    ensures var d := DressedTcPr(header, c.tcPr);
            Count(d, TC_BORDERS) == Count(c.tcPr, TC_BORDERS) + 1
            && Count(d, V_ALIGN) == Count(c.tcPr, V_ALIGN) + 1
            && Count(d, SHD) == Count(c.tcPr, SHD) + (if header then 1 else 0)
            && c.tcPr <= d && d[|c.tcPr| + 1] == CENTERED
            && (header <==> HEADER_SHADING in d[|c.tcPr|..])
  {
    AppendedCounts(c.tcPr, CELL_BORDERS, CENTERED, HEADER_SHADING, header);
  }

  /** Appending two children and, when `extra`, a third, all of different tags, adds one of each tag. */
  lemma {:induction false} AppendedCounts(t: seq<Element>, a: Element, b: Element, s: Element, extra: bool)
    requires a.tag != b.tag && a.tag != s.tag && b.tag != s.tag
    ensures var d := t + [a, b] + (if extra then [s] else []);
            Count(d, a.tag) == Count(t, a.tag) + 1 && Count(d, b.tag) == Count(t, b.tag) + 1
            && Count(d, s.tag) == Count(t, s.tag) + (if extra then 1 else 0)
            && t <= d && d[|t| + 1] == b && (extra <==> s in d[|t|..])
  {
    var tail := if extra then [s] else [];
    var more := [a] + [b] + tail;
    var d := t + [a, b] + tail;
    assert d == t + more;
    assert d[|t|..] == more;
    forall u ensures Count(d, u) == Count(t, u) + Count(more, u) {
      OnlyConcat(t, more, u);
    }
    forall u ensures Only(more, u) == Only([a], u) + Only([b], u) + Only(tail, u) {
      OnlyConcat([a] + [b], tail, u);
      OnlyConcat([a], [b], u);
    }
    OnlyOne(a, a.tag); OnlyOne(b, a.tag); OnlyOne(s, a.tag);
    OnlyOne(a, b.tag); OnlyOne(b, b.tag); OnlyOne(s, b.tag);
    OnlyOne(a, s.tag); OnlyOne(b, s.tag); OnlyOne(s, s.tag);
  }

  /** Every run of a cell is set in 11 points; only header-cell runs become bold, the others keep their weight. */
  lemma CellRunsSized(header: bool, p: Paragraph, m: nat)
    requires m < |p.runs|
    ensures var q := CellPara(header, p);
            |q.runs| == |p.runs| && q.format.alignment == Some(Center)
            && q.format.spaceBefore == Some(2) && q.format.spaceAfter == Some(2)
            && q.runs[m].font.size == Some(11)
            && (header ==> q.runs[m].font.bold == Some(true) && Count(q.runs[m].rPr, BCS) >= 1)
            && (!header ==> q.runs[m].font.bold == p.runs[m].font.bold
                            && Count(q.runs[m].rPr, BCS) == Count(p.runs[m].rPr, BCS))
  {
    var f := SetParagraphFormat(p, Some(Center), Some(2), Some(2), Some(115), false, false, None);
    var q0 := RunsFont(f, 11, None, None);
    RunFontSize(f.runs[m], ARABIC_FONT, LATIN_FONT, 11, None, None);
    RunFontBold(f.runs[m], ARABIC_FONT, LATIN_FONT, 11, None, None);
    if header {
      RunFontSize(q0.runs[m], ARABIC_FONT, LATIN_FONT, 11, Some(true), None);
      RunFontBold(q0.runs[m], ARABIC_FONT, LATIN_FONT, 11, Some(true), None);
    }
  }

  // ---------------------------------------------------------------------------
  // Headers and footers
  // ---------------------------------------------------------------------------

  /** The first paragraph of a story, added when the story has none. */
  function FirstPara(s: Story): Paragraph {
    if |s.paras| > 0 then s.paras[0] else EMPTY_PARAGRAPH
  }

  /** The story's paragraphs with the first one replaced (or added) by `p`. */
  function WithFirst(s: Story, p: Paragraph): (r: Story)
    ensures |r.paras| == if |s.paras| == 0 then 1 else |s.paras|
    ensures r.paras[0] == p && r.paras[1..] == (if |s.paras| == 0 then [] else s.paras[1..])
    ensures !r.linked
  {
    Story(false, [p] + (if |s.paras| == 0 then [] else s.paras[1..]))
  }

  /** A run added to the footer holding the single field child `kid`, after `set_run_font(r, size_pt=11)`. */
  function FieldRun(kid: Element): (r: Run)
    ensures r.kids == [kid]
  {
    SetRunFont(Run([], [kid], NO_FONT), ARABIC_FONT, LATIN_FONT, 11, None, None)
  }

  /** The PAGE field runs of the footer, one per field child, each styled on its own. */
  function FieldRuns(kids: seq<Element>): (r: seq<Run>)
    ensures |r| == |kids| && forall k | 0 <= k < |kids| :: r[k] == FieldRun(kids[k])
  {
    seq(|kids|, k requires 0 <= k < |kids| => FieldRun(kids[k]))
  }

  /** The style python-docx gives the paragraph of a new header part. */
  const HEADER_STYLE: string := "Header"

  /** The style python-docx gives the paragraph of a new footer part. */
  const FOOTER_STYLE: string := "Footer"

  /**
    * The header half of `add_header_footer`: the header is unlinked (a linked
    * one gets a part of its own holding one empty "Header" paragraph), then its
    * first paragraph is emptied, aligned and ruled underneath.
    */
  function HeaderLine(s: Story): (r: Story)
    ensures !r.linked && |r.paras| == (if s.linked || |s.paras| == 0 then 1 else |s.paras|)
    ensures !s.linked && |s.paras| > 0 ==> r.paras[1..] == s.paras[1..]
    ensures s.linked ==> r.paras[0].style == HEADER_STYLE && Count(r.paras[0].pPr, PBDR) == 1
    ensures !s.linked ==> r.paras[0].style == FirstPara(s).style
                          && Count(r.paras[0].pPr, PBDR) == Count(FirstPara(s).pPr, PBDR) + 1
    ensures var h := r.paras[0];
            ParaText(h.runs) == "" && h.format.alignment == Some(Left) && Count(h.pPr, BIDI) >= 1
  {
    var u := Unlink(s, HEADER_STYLE);
    var b := SetParagraphFormat(Blank(FirstPara(u)), Some(Left), None, None, None, false, false, None);
    var hp := AddBottomBorder(b, 4, "808080");
    WithFirst(u, hp)
  }

  /** The footer paragraph: emptied, centred, and followed by one styled run per field child. */
  function FooterPara(p: Paragraph, kids: seq<Element>): (r: Paragraph)
    ensures |r.runs| == 1 + |kids| && ParaText(r.runs[..1]) == ""
    ensures forall k | 0 <= k < |kids| :: r.runs[1 + k].kids == [kids[k]]
    ensures r.format.alignment == Some(Center) && Count(r.pPr, BIDI) >= 1 && r.style == p.style
  {
    var fq := SetParagraphFormat(Blank(p), Some(Center), None, None, None, false, false, None);
    var fr := FieldRuns(kids);
    var runs := fq.runs + fr;
    AfterFirst(fq.runs, fr);
    fq.(runs := runs)
  }

  /** The parts of a list whose first part is a single item. */
  lemma AfterFirst<T>(a: seq<T>, b: seq<T>)
    requires |a| == 1
    ensures (a + b)[..1] == a && |a + b| == 1 + |b|
    ensures forall k | 0 <= k < |b| :: (a + b)[1 + k] == b[k]
  {
  }

  /**
    * The footer half of `add_header_footer`: the footer is unlinked (a linked
    * one gets a part of its own holding one empty "Footer" paragraph), then its
    * first paragraph is emptied, centred and followed by the PAGE field.
    */
  function FooterField(s: Story): (r: Story)
    ensures !r.linked && |r.paras| == (if s.linked || |s.paras| == 0 then 1 else |s.paras|)
    ensures !s.linked && |s.paras| > 0 ==> r.paras[1..] == s.paras[1..]
    ensures s.linked ==> r.paras[0].style == FOOTER_STYLE
    ensures !s.linked ==> r.paras[0].style == FirstPara(s).style
    ensures var f := r.paras[0];
            |f.runs| == 4 && ParaText(f.runs[..1]) == "" && PageFieldAt(f.runs, 1)
            && f.format.alignment == Some(Center) && Count(f.pPr, BIDI) >= 1
  {
    var u := Unlink(s, FOOTER_STYLE);
    WithFirst(u, FooterPara(FirstPara(u), PAGE_FIELD))
  }

  /** `add_header_footer(section)` */
  function AddHeaderFooter(hf: HeaderFooter): HeaderFooter {
    HeaderFooter(HeaderLine(hf.header), FooterField(hf.footer))
  }

  /** A field run carries no text, so it is set in 11 points with the Latin face and gets no rtl. */
  lemma FieldRunLatin(kid: Element)
    requires ChildText(kid) == ""
    ensures var r := FieldRun(kid);
            r.font.size == Some(11)
            && Find(r.rPr, RFONTS).Some? && ASCII in Find(r.rPr, RFONTS).value.attrs
            && Find(r.rPr, RFONTS).value.attrs[ASCII] == LATIN_FONT
            && Count(r.rPr, RTL) == 0
  {
    var run := Run([], [kid], NO_FONT);
    assert RunText(run.kids) == "" by {
      assert run.kids[1..] == [];
    }
    RunFontSlots(run, ARABIC_FONT, LATIN_FONT, 11, None, None);
    RunFontSize(run, ARABIC_FONT, LATIN_FONT, 11, None, None);
    RunFontRtl(run, ARABIC_FONT, LATIN_FONT, 11, None, None);
  }

  /** The loop over `doc.sections` that gives every section its header and footer. */
  method AddHeadersFooters(doc: Document)
    modifies doc
    ensures |doc.sections| == |old(doc.sections)|
    ensures forall i | 0 <= i < |doc.sections| ::
              doc.sections[i] == old(doc.sections)[i].(hf := AddHeaderFooter(old(doc.sections)[i].hf))
    ensures doc.paras == old(doc.paras) && doc.tables == old(doc.tables)
  {
    var secs := Each(doc.sections, (s: Section) => s.(hf := AddHeaderFooter(s.hf)));
    doc.sections := secs;
  }

  // ---------------------------------------------------------------------------
  // The styling rules of `main`: title page, front matter, headings, body
  // ---------------------------------------------------------------------------

  /** The arguments of one `set_paragraph_format` + `set_paragraph_runs_font` pair, and whether a page break comes first. */
  datatype Look = Look(align: Align, before: nat, after: nat, spacing: Option<nat>, indent: Option<int>,
                       keepNext: bool, pageBreak: bool, size: nat, bold: Option<bool>, color: Option<Rgb>)

  /** `insert_page_break_before` when asked, then the paragraph format, then the font of every run. */
  function Dress(p: Paragraph, l: Look): (r: Paragraph)
    ensures r.format.alignment == Some(l.align)
    ensures r.format.spaceBefore == Some(l.before) && r.format.spaceAfter == Some(l.after)
    ensures l.spacing.Some? ==> r.format.lineSpacing == l.spacing
    ensures l.spacing.None? ==> r.format.lineSpacing == p.format.lineSpacing
    ensures l.indent.Some? ==> r.format.firstLineIndent == l.indent
    ensures l.indent.None? ==> r.format.firstLineIndent == p.format.firstLineIndent
    ensures l.keepNext ==> r.format.keepWithNext == Some(true)
    ensures !l.keepNext ==> r.format.keepWithNext == p.format.keepWithNext
    ensures l.pageBreak ==> r.format.pageBreakBefore == Some(true)
    ensures !l.pageBreak ==> r.format.pageBreakBefore == p.format.pageBreakBefore
    ensures Count(r.pPr, BIDI) == if Count(p.pPr, BIDI) == 0 then 1 else Count(p.pPr, BIDI)
    ensures Without(r.pPr, {BIDI}) == Without(p.pPr, {BIDI})
    ensures r.style == p.style && |r.runs| == |p.runs|
    ensures forall m | 0 <= m < |p.runs| :: r.runs[m] == SetRunFont(p.runs[m], ARABIC_FONT, LATIN_FONT, l.size, l.bold, l.color)
  {
    var q := if l.pageBreak then SetParagraphFormat(p, None, None, None, None, false, true, None) else p;
    RunsFont(SetParagraphFormat(q, Some(l.align), Some(l.before), Some(l.after), l.spacing, l.keepNext, false, l.indent),
             l.size, l.bold, l.color)
  }

  /** Dressing a paragraph leaves its text as it was. */
  lemma DressKeepsText(p: Paragraph, l: Look)
    ensures ParaText(Dress(p, l).runs) == ParaText(p.runs)
  {
    var q := if l.pageBreak then SetParagraphFormat(p, None, None, None, None, false, true, None) else p;
    RunsFontKeepsText(SetParagraphFormat(q, Some(l.align), Some(l.before), Some(l.after), l.spacing, l.keepNext, false, l.indent),
                      l.size, l.bold, l.color);
  }

  /** Every run of a dressed paragraph has the look's size, and its bold when the look gives one. */
  lemma DressRun(p: Paragraph, l: Look, m: nat)
    requires m < |p.runs|
    ensures var run := Dress(p, l).runs[m];
            run.font.size == Some(l.size)
            && (l.bold == Some(true) ==> run.font.bold == Some(true) && Count(run.rPr, BCS) >= 1)
            && (l.bold.None? ==> run.font.bold == p.runs[m].font.bold)
            && (l.color.Some? ==> run.font.color == l.color)
  {
    RunFontSize(p.runs[m], ARABIC_FONT, LATIN_FONT, l.size, l.bold, l.color);
    RunFontBold(p.runs[m], ARABIC_FONT, LATIN_FONT, l.size, l.bold, l.color);
    RunFontRest(p.runs[m], ARABIC_FONT, LATIN_FONT, l.size, l.bold, l.color);
  }

  const NAVY: Rgb := Rgb(31, 56, 100)

  /** Paragraphs 0 to 4: institution, thesis type, host and students, supervision, class year. */
  const TITLE_LOOKS: seq<Look> := [
    Look(Center, 36, 48, None, None, false, false, 16, Some(true), None),
    Look(Center, 48, 24, None, None, false, false, 16, Some(true), None),
    Look(Center, 24, 12, None, None, false, false, 14, Some(true), None),
    Look(Center, 12, 12, None, None, false, false, 14, Some(true), None),
    Look(Center, 48, 0, None, None, false, false, 16, Some(true), None)]

  const DEDICATION_TITLE: Look := Look(Center, 72, 48, None, None, false, true, 26, Some(true), Some(NAVY))
  const PART_TITLE: Look := Look(Center, 72, 36, None, None, false, true, 26, Some(true), Some(NAVY))
  const DEDICATION_TEXT: Look := Look(Left, 6, 12, Some(180), Some(0), false, false, 15, None, None)
  const ACKNOWLEDGMENT_TEXT: Look := Look(Left, 6, 12, Some(180), None, false, false, 15, None, None)
  const ABSTRACT_TEXT: Look := Look(Justify, 4, 8, Some(180), None, false, false, 14, None, None)

  /** The title page (0-4) and the three front-matter blocks (5-12, 13-19, 20-24); `None` from 25 on. */
  function FrontLook(i: nat): (l: Option<Look>)
    ensures l.Some? <==> i < 25
    ensures l.Some? && l.value.pageBreak <==> i == 5 || i == 13 || i == 20
  {
    if i < 5 then Some(TITLE_LOOKS[i])
    else if i == 5 then Some(DEDICATION_TITLE)
    else if i <= 12 then Some(DEDICATION_TEXT)
    else if i == 13 || i == 20 then Some(PART_TITLE)
    else if i <= 19 then Some(ACKNOWLEDGMENT_TEXT)
    else if i <= 24 then Some(ABSTRACT_TEXT)
    else None
  }

  /** The two marks of the thesis-title paragraph: part of the title, and the start of the thesis type. */
  const TITLE_MARK: string := "تحديات وكالات الأسفار"
  const TYPE_MARK: string := "مذكــ"

  /** Whether paragraph 1 gets the rules above and below that stand in for the title box. */
  predicate TitleBoxed(text: string) {
    Contains(text, TITLE_MARK) || Contains(text, TYPE_MARK)
  }

  /** The fixed-index rule for paragraph `i`, with the title box of paragraph 1. */
  function Front(i: nat, p: Paragraph): (r: Paragraph)
    ensures i >= 25 ==> r == p
    ensures r.style == p.style && ParaText(r.runs) == ParaText(p.runs)
    ensures FrontLook(i).Some? ==> var l := FrontLook(i).value;
              r.format.alignment == Some(l.align) && r.format.spaceBefore == Some(l.before)
              && r.format.spaceAfter == Some(l.after) && Count(r.pPr, BIDI) >= 1
  {
    match FrontLook(i)
    case None => p
    case Some(l) =>
      var q := Dress(p, l);
      DressKeepsText(p, l);
      if i == 1 && TitleBoxed(ParaText(q.runs)) then AddTopAndBottomBorder(q, 8, "000000") else q
  }

  /** Away from paragraph 1, the fixed-index rule is just its look. */
  lemma FrontAt(i: nat, p: Paragraph, l: Look)
    requires FrontLook(i) == Some(l) && i != 1
    ensures Front(i, p) == Dress(p, l)
  {
  }

  const HEADING_1: string := "Heading 1"
  const HEADING_2: string := "Heading 2"
  const HEADING_3: string := "Heading 3"
  const HEADING_4: string := "Heading 4"
  const NORMAL: string := "Normal"

  const CHAPTER_LOOK: Look := Look(Center, 0, 36, None, None, false, true, 24, Some(true), Some(NAVY))
  const SECTION_LOOK: Look := Look(Left, 24, 12, None, None, true, false, 18, Some(true), Some(Rgb(46, 64, 87)))
  const SUBSECTION_LOOK: Look := Look(Left, 18, 8, None, None, true, false, 16, Some(true), Some(Rgb(55, 65, 81)))
  const SUBSUBSECTION_LOOK: Look := Look(Left, 14, 6, None, None, true, false, 14, Some(true), Some(Rgb(75, 85, 99)))

  /** A chapter heading: page break, centred, navy 24 pt, ruled underneath. */
  function Chapter(p: Paragraph): (r: Paragraph)
    ensures r.style == p.style && r.format.pageBreakBefore == Some(true) && r.format.alignment == Some(Center)
    ensures Count(r.pPr, PBDR) == Count(p.pPr, PBDR) + 1
    ensures r.pPr[|r.pPr| - 1].kids == [Edge("bottom", 6, "1", "1F3864")]
  {
    var q := Dress(p, CHAPTER_LOOK);
    assert Count(q.pPr, PBDR) == Count(p.pPr, PBDR) by {
      OnlyWithoutOther(q.pPr, BIDI, PBDR);
      OnlyWithoutOther(p.pPr, BIDI, PBDR);
    }
    AddBottomBorder(q, 6, "1F3864")
  }

  /** The heading loops: each heading level gets its own look; every other style passes through. */
  function Headings(p: Paragraph): (r: Paragraph)
    ensures r.style == p.style
    ensures p.style != HEADING_1 && p.style != HEADING_2 && p.style != HEADING_3 && p.style != HEADING_4 ==> r == p
  {
    var p1 := if p.style == HEADING_1 then Chapter(p) else p;
    var p2 := if p1.style == HEADING_2 then Dress(p1, SECTION_LOOK) else p1;
    var p3 := if p2.style == HEADING_3 then Dress(p2, SUBSECTION_LOOK) else p2;
    if p3.style == HEADING_4 then Dress(p3, SUBSUBSECTION_LOOK) else p3
  }

  const LIST_LOOK: Look := Look(Left, 2, 2, Some(150), Some(0), false, false, 14, None, None)
  const BODY_LOOK: Look := Look(Justify, 0, 6, Some(150), None, false, false, 14, None, None)

  const LIST_MARKERS: seq<string> := ["--", "►", "•"]

  /** A list item starts with one of the list markers. */
  predicate IsListItem(text: string) {
    exists k | 0 <= k < |LIST_MARKERS| :: StartsWith(text, LIST_MARKERS[k])
  }

  /** The body rule from index 25 on: Normal paragraphs with text become list items or justified text. */
  function Body(p: Paragraph): (r: Paragraph)
    ensures r.style == p.style
    ensures p.style != NORMAL || Strip(ParaText(p.runs)) == "" ==> r == p
  {
    var text := Strip(ParaText(p.runs));
    if p.style != NORMAL || text == "" then p
    else if IsListItem(text) then Dress(p, LIST_LOOK)
    else Dress(p, BODY_LOOK)
  }

  /** What the whole of the paragraph styling does to the paragraph at index `i`. */
  function Styled(i: nat, p: Paragraph): Paragraph {
    var h := Headings(Front(i, p));
    if i >= 25 then Body(h) else h
  }

  // ---------------------------------------------------------------------------
  // The styling loops of `main` over the open document
  // ---------------------------------------------------------------------------

  /** An `if total > i:` block: the paragraph at `i`, when there is one, is restyled by `f`. */
  method StyleAt(doc: Document, i: nat, f: Paragraph -> Paragraph)
    modifies doc
    ensures |doc.paras| == |old(doc.paras)|
    ensures forall j | 0 <= j < |doc.paras| :: doc.paras[j] == if j == i then f(old(doc.paras)[j]) else old(doc.paras)[j]
    ensures doc.tables == old(doc.tables) && doc.sections == old(doc.sections)
  {
    if |doc.paras| > i {
      doc.paras := doc.paras[i := f(doc.paras[i])];
    }
  }

  /** `for i in range(lo, min(hi, total))`, every paragraph restyled by `f`. */
  method StyleRange(doc: Document, lo: nat, hi: nat, f: Paragraph -> Paragraph)
    modifies doc
    ensures |doc.paras| == |old(doc.paras)|
    ensures forall j | 0 <= j < |doc.paras| ::
              doc.paras[j] == if lo <= j < hi then f(old(doc.paras)[j]) else old(doc.paras)[j]
    ensures doc.tables == old(doc.tables) && doc.sections == old(doc.sections)
  {
    var i := lo;
    while i < hi && i < |doc.paras|
      invariant |doc.paras| == |old(doc.paras)| && lo <= i && (i <= hi || i == lo)
      invariant forall j | 0 <= j < |doc.paras| ::
                  doc.paras[j] == if lo <= j < i then f(old(doc.paras)[j]) else old(doc.paras)[j]
      invariant doc.tables == old(doc.tables) && doc.sections == old(doc.sections)
      decreases hi - i
    {
      doc.paras := doc.paras[i := f(doc.paras[i])];
      i := i + 1;
    }
  }

  /** One `if total > i:` block of the title page: line `i` takes its look. */
  method DressLine(doc: Document, i: nat)
    requires i < |TITLE_LOOKS|
    modifies doc
    ensures |doc.paras| == |old(doc.paras)|
    ensures forall j | 0 <= j < |doc.paras| ::
              doc.paras[j] == if j == i then Dress(old(doc.paras)[j], TITLE_LOOKS[i]) else old(doc.paras)[j]
    ensures doc.tables == old(doc.tables) && doc.sections == old(doc.sections)
  {
    if |doc.paras| > i {
      doc.paras := doc.paras[i := Dress(doc.paras[i], TITLE_LOOKS[i])];
    }
  }

  /** The five `if total > i:` blocks of the title page, before the title box. */
  method StyleTitleLines(doc: Document)
    modifies doc
    ensures |doc.paras| == |old(doc.paras)|
    ensures forall j | 0 <= j < |doc.paras| ::
              doc.paras[j] == if j < 5 then Dress(old(doc.paras)[j], TITLE_LOOKS[j]) else old(doc.paras)[j]
    ensures doc.tables == old(doc.tables) && doc.sections == old(doc.sections)
  {
    ghost var ps := doc.paras;
    DressLine(doc, 0);
    assert TitleDressed(ps, doc.paras, 1);
    DressLine(doc, 1);
    assert TitleDressed(ps, doc.paras, 2);
    DressLine(doc, 2);
    assert TitleDressed(ps, doc.paras, 3);
    DressLine(doc, 3);
    assert TitleDressed(ps, doc.paras, 4);
    DressLine(doc, 4);
    assert TitleDressed(ps, doc.paras, 5);
  }

  /** The first `n` title lines of `ps` are dressed in `qs` and the rest are as they were. */
  ghost predicate TitleDressed(ps: seq<Paragraph>, qs: seq<Paragraph>, n: nat)
    requires n <= |TITLE_LOOKS|
  {
    |qs| == |ps| && forall j | 0 <= j < |qs| :: qs[j] == if j < n then Dress(ps[j], TITLE_LOOKS[j]) else ps[j]
  }

  /** The title box: rules above and below paragraph 1 when its text carries one of the title marks. */
  method BoxTitle(doc: Document)
    modifies doc
    ensures |old(doc.paras)| > 1 && TitleBoxed(ParaText(old(doc.paras)[1].runs)) ==>
              doc.paras == old(doc.paras)[1 := AddTopAndBottomBorder(old(doc.paras)[1], 8, "000000")]
    ensures !(|old(doc.paras)| > 1 && TitleBoxed(ParaText(old(doc.paras)[1].runs))) ==> doc.paras == old(doc.paras)
    ensures doc.tables == old(doc.tables) && doc.sections == old(doc.sections)
  {
    if |doc.paras| > 1 && TitleBoxed(ParaText(doc.paras[1].runs)) {
      doc.paras := doc.paras[1 := AddTopAndBottomBorder(doc.paras[1], 8, "000000")];
    }
  }

  /** Paragraph 1 is dressed first and then boxed according to the text it then has. */
  lemma FrontTitle(p: Paragraph)
    ensures var q := Dress(p, TITLE_LOOKS[1]);
            Front(1, p) == if TitleBoxed(ParaText(q.runs)) then AddTopAndBottomBorder(q, 8, "000000") else q
  {
  }

  /** The title page, paragraphs 0 to 4, and the rules around the title in paragraph 1. */
  method StyleTitlePage(doc: Document)
    modifies doc
    ensures |doc.paras| == |old(doc.paras)|
    ensures forall j | 0 <= j < |doc.paras| ::
              doc.paras[j] == if 0 <= j < 5 then Front(j, old(doc.paras)[j]) else old(doc.paras)[j]
    ensures doc.tables == old(doc.tables) && doc.sections == old(doc.sections)
  {
    ghost var ps := doc.paras;
    StyleTitleLines(doc);
    BoxTitle(doc);
    forall j | 0 <= j < 5 && j < |ps| ensures doc.paras[j] == Front(j, ps[j]) {
      if j == 1 {
        FrontTitle(ps[j]);
      } else {
        FrontAt(j, ps[j], TITLE_LOOKS[j]);
      }
    }
  }

  /** The dedication: its title at 5 on a new page, its text at 6 to 12. */
  method StyleDedication(doc: Document)
    modifies doc
    ensures |doc.paras| == |old(doc.paras)|
    ensures forall j | 0 <= j < |doc.paras| ::
              doc.paras[j] == if 5 <= j < 13 then Front(j, old(doc.paras)[j]) else old(doc.paras)[j]
    ensures doc.tables == old(doc.tables) && doc.sections == old(doc.sections)
  {
    ghost var ps := doc.paras;
    var title, text := DEDICATION_TITLE, DEDICATION_TEXT;
    StyleAt(doc, 5, p => Dress(p, title));
    StyleRange(doc, 6, 13, p => Dress(p, text));
    forall j | 5 <= j < 13 && j < |ps| ensures doc.paras[j] == Front(j, ps[j]) {
      FrontAt(j, ps[j], if j == 5 then title else text);
    }
  }

  /** The acknowledgments: its title at 13 on a new page, its text at 14 to 19. */
  method StyleAcknowledgments(doc: Document)
    modifies doc
    ensures |doc.paras| == |old(doc.paras)|
    ensures forall j | 0 <= j < |doc.paras| ::
              doc.paras[j] == if 13 <= j < 20 then Front(j, old(doc.paras)[j]) else old(doc.paras)[j]
    ensures doc.tables == old(doc.tables) && doc.sections == old(doc.sections)
  {
    ghost var ps := doc.paras;
    var title, text := PART_TITLE, ACKNOWLEDGMENT_TEXT;
    StyleAt(doc, 13, p => Dress(p, title));
    StyleRange(doc, 14, 20, p => Dress(p, text));
    forall j | 13 <= j < 20 && j < |ps| ensures doc.paras[j] == Front(j, ps[j]) {
      FrontAt(j, ps[j], if j == 13 then title else text);
    }
  }

  /** The abstract: its title at 20 on a new page, its text at 21 to 24. */
  method StyleAbstract(doc: Document)
    modifies doc
    ensures |doc.paras| == |old(doc.paras)|
    ensures forall j | 0 <= j < |doc.paras| ::
              doc.paras[j] == if 20 <= j < 25 then Front(j, old(doc.paras)[j]) else old(doc.paras)[j]
    ensures doc.tables == old(doc.tables) && doc.sections == old(doc.sections)
  {
    ghost var ps := doc.paras;
    var title, text := PART_TITLE, ABSTRACT_TEXT;
    StyleAt(doc, 20, p => Dress(p, title));
    StyleRange(doc, 21, 25, p => Dress(p, text));
    forall j | 20 <= j < 25 && j < |ps| ensures doc.paras[j] == Front(j, ps[j]) {
      FrontAt(j, ps[j], if j == 20 then title else text);
    }
  }

  /** Sections 3 and 4 of `main`: the title page and the front matter, block by block. */
  method StyleFrontMatter(doc: Document)
    modifies doc
    ensures |doc.paras| == |old(doc.paras)|
    ensures forall j | 0 <= j < |doc.paras| ::
              doc.paras[j] == if 0 <= j < 25 then Front(j, old(doc.paras)[j]) else old(doc.paras)[j]
    ensures doc.tables == old(doc.tables) && doc.sections == old(doc.sections)
  {
    StyleTitlePage(doc);
    StyleDedication(doc);
    StyleAcknowledgments(doc);
    StyleAbstract(doc);
  }

  /** The first loop of the chapter rule: the indices of the `Heading 1` paragraphs, in order. */
  method ChapterIndices(ps: seq<Paragraph>) returns (idx: seq<nat>)
    ensures forall k | 0 <= k < |idx| :: idx[k] < |ps| && ps[idx[k]].style == HEADING_1
    ensures forall j | 0 <= j < |ps| && ps[j].style == HEADING_1 :: j in idx
    ensures forall a, b | 0 <= a < b < |idx| :: idx[a] < idx[b]
  {
    idx := [];
    for i := 0 to |ps|
      invariant forall k | 0 <= k < |idx| :: idx[k] < i && ps[idx[k]].style == HEADING_1
      invariant forall j | 0 <= j < i && ps[j].style == HEADING_1 :: j in idx
      invariant forall a, b | 0 <= a < b < |idx| :: idx[a] < idx[b]
    {
      if ps[i].style == HEADING_1 {
        idx := idx + [i];
      }
    }
  }

  /** The chapter rule: every `Heading 1` paragraph, found first and then styled one by one. */
  method StyleChapters(doc: Document)
    modifies doc
    ensures |doc.paras| == |old(doc.paras)|
    ensures forall j | 0 <= j < |doc.paras| ::
              doc.paras[j] == if old(doc.paras)[j].style == HEADING_1 then Chapter(old(doc.paras)[j]) else old(doc.paras)[j]
    ensures doc.tables == old(doc.tables) && doc.sections == old(doc.sections)
  {
    var idx := ChapterIndices(doc.paras);
    doc.paras := EachAt(doc.paras, idx, Chapter);
  }

  /** The loop over the collected indices: the item at each of them, none twice, is replaced by `f` of it. */
  method EachAt<T>(xs: seq<T>, idx: seq<nat>, f: T -> T) returns (r: seq<T>)
    requires forall k | 0 <= k < |idx| :: idx[k] < |xs|
    requires forall a, b | 0 <= a < b < |idx| :: idx[a] < idx[b]
    ensures |r| == |xs|
    ensures forall j | 0 <= j < |xs| :: r[j] == if j in idx then f(xs[j]) else xs[j]
  {
    r := xs;
    for k := 0 to |idx|
      invariant |r| == |xs|
      invariant forall j | 0 <= j < |xs| :: r[j] == if j in idx[..k] then f(xs[j]) else xs[j]
    {
      assert idx[k] !in idx[..k];
      assert idx[..k + 1] == idx[..k] + [idx[k]];
      r := r[idx[k] := f(r[idx[k]])];
    }
    assert idx[..|idx|] == idx;
  }

  /** `for i, p in enumerate(paras): if p.style.name == name:` applying `f`. */
  method StyleWhere(doc: Document, name: string, f: Paragraph -> Paragraph)
    modifies doc
    ensures |doc.paras| == |old(doc.paras)|
    ensures forall j | 0 <= j < |doc.paras| ::
              doc.paras[j] == if old(doc.paras)[j].style == name then f(old(doc.paras)[j]) else old(doc.paras)[j]
    ensures doc.tables == old(doc.tables) && doc.sections == old(doc.sections)
  {
    for i := 0 to |doc.paras|
      invariant |doc.paras| == |old(doc.paras)|
      invariant forall j | 0 <= j < |doc.paras| ::
                  doc.paras[j] == if j < i && old(doc.paras)[j].style == name then f(old(doc.paras)[j]) else old(doc.paras)[j]
      invariant doc.tables == old(doc.tables) && doc.sections == old(doc.sections)
    {
      if doc.paras[i].style == name {
        doc.paras := doc.paras[i := f(doc.paras[i])];
      }
    }
  }

  /** The marker loop of the body rule: whether the stripped text starts with a list marker. */
  method DetectList(text: string) returns (isList: bool)
    ensures isList <==> IsListItem(text)
  {
    isList := false;
    for k := 0 to |LIST_MARKERS|
      invariant isList <==> exists m | 0 <= m < k :: StartsWith(text, LIST_MARKERS[m])
    {
      if StartsWith(text, LIST_MARKERS[k]) {
        isList := true;
        break;
      }
    }
  }

  /** One step of the body rule: blank and non-Normal paragraphs are skipped, the others classified. */
  method StyleBodyParagraph(p: Paragraph) returns (r: Paragraph)
    ensures r == Body(p)
  {
    r := p;
    var text := Strip(ParaText(p.runs));
    if p.style == NORMAL && text != "" {
      var isList := DetectList(text);
      var look := if isList then LIST_LOOK else BODY_LOOK;
      r := Dress(p, look);
    }
  }

  /** The body rule: `for i in range(25, total)`. */
  method StyleBody(doc: Document)
    modifies doc
    ensures |doc.paras| == |old(doc.paras)|
    ensures forall j | 0 <= j < |doc.paras| :: doc.paras[j] == if j >= 25 then Body(old(doc.paras)[j]) else old(doc.paras)[j]
    ensures doc.tables == old(doc.tables) && doc.sections == old(doc.sections)
  {
    var i := 25;
    while i < |doc.paras|
      invariant |doc.paras| == |old(doc.paras)| && 25 <= i
      invariant forall j | 0 <= j < |doc.paras| ::
                  doc.paras[j] == if 25 <= j < i then Body(old(doc.paras)[j]) else old(doc.paras)[j]
      invariant doc.tables == old(doc.tables) && doc.sections == old(doc.sections)
      decreases |doc.paras| - i
    {
      var r := StyleBodyParagraph(doc.paras[i]);
      doc.paras := doc.paras[i := r];
      i := i + 1;
    }
  }

  /** The four heading loops of section 5 of `main`, chapters first. */
  method StyleHeadings(doc: Document)
    modifies doc
    ensures |doc.paras| == |old(doc.paras)|
    ensures forall j | 0 <= j < |doc.paras| :: doc.paras[j] == Headings(old(doc.paras)[j])
    ensures doc.tables == old(doc.tables) && doc.sections == old(doc.sections)
  {
    StyleChapters(doc);
    StyleWhere(doc, HEADING_2, p => Dress(p, SECTION_LOOK));
    StyleWhere(doc, HEADING_3, p => Dress(p, SUBSECTION_LOOK));
    StyleWhere(doc, HEADING_4, p => Dress(p, SUBSUBSECTION_LOOK));
  }

  /** Sections 3 to 5 of `main`: the paragraph rules in the order they run. */
  method StyleParagraphs(doc: Document)
    modifies doc
    ensures |doc.paras| == |old(doc.paras)|
    ensures forall j | 0 <= j < |doc.paras| :: doc.paras[j] == Styled(j, old(doc.paras)[j])
    ensures doc.tables == old(doc.tables) && doc.sections == old(doc.sections)
  {
    StyleFrontMatter(doc);
    StyleHeadings(doc);
    StyleBody(doc);
  }

  /** Section 6 of `main`: `set_table_style` on every table. */
  method StyleTables(doc: Document)
    modifies doc
    ensures |doc.tables| == |old(doc.tables)|
    ensures forall k | 0 <= k < |doc.tables| :: doc.tables[k] == StyledTable(old(doc.tables)[k])
    ensures doc.paras == old(doc.paras) && doc.sections == old(doc.sections)
  {
    for k := 0 to |doc.tables|
      invariant |doc.tables| == |old(doc.tables)|
      invariant forall j | 0 <= j < |doc.tables| ::
                  doc.tables[j] == if j < k then StyledTable(old(doc.tables)[j]) else old(doc.tables)[j]
      invariant doc.paras == old(doc.paras) && doc.sections == old(doc.sections)
    {
      var t := SetTableStyle(doc.tables[k]);
      doc.tables := doc.tables[k := t];
    }
  }

  /** Sections 3 to 7 of `main`: paragraphs, tables, then headers and footers. */
  method StyleDocument(doc: Document)
    modifies doc
    ensures |doc.paras| == |old(doc.paras)| && |doc.tables| == |old(doc.tables)| && |doc.sections| == |old(doc.sections)|
    ensures forall j | 0 <= j < |doc.paras| :: doc.paras[j] == Styled(j, old(doc.paras)[j])
    ensures forall k | 0 <= k < |doc.tables| :: doc.tables[k] == StyledTable(old(doc.tables)[k])
    ensures forall k | 0 <= k < |doc.sections| ::
              doc.sections[k] == old(doc.sections)[k].(hf := AddHeaderFooter(old(doc.sections)[k].hf))
  {
    StyleParagraphs(doc);
    StyleTables(doc);
    AddHeadersFooters(doc);
  }

  // ---------------------------------------------------------------------------
  // What the paragraph rules guarantee
  // ---------------------------------------------------------------------------

  /**
    * From index 25 on, a Normal paragraph with text is a list item (left, 2 pt
    * before and after, indent 0) when its stripped text starts with a list
    * marker, and justified text (0 pt before, 6 pt after) otherwise; both get
    * line spacing 1.5, right-to-left direction, and keep their text.
    */
  lemma BodyClassified(i: nat, p: Paragraph)
    requires i >= 25 && p.style == NORMAL && Strip(ParaText(p.runs)) != ""
    ensures var r := Styled(i, p);
            var list := IsListItem(Strip(ParaText(p.runs)));
            (list ==> r.format.alignment == Some(Left) && r.format.spaceBefore == Some(2)
                      && r.format.spaceAfter == Some(2) && r.format.firstLineIndent == Some(0))
            && (!list ==> r.format.alignment == Some(Justify) && r.format.spaceBefore == Some(0)
                          && r.format.spaceAfter == Some(6) && r.format.firstLineIndent == p.format.firstLineIndent)
            && r.format.lineSpacing == Some(150) && Count(r.pPr, BIDI) >= 1
            && ParaText(r.runs) == ParaText(p.runs)
  {
    assert Front(i, p) == p;
    assert Headings(p) == p;
    DressKeepsText(p, LIST_LOOK);
    DressKeepsText(p, BODY_LOOK);
  }

  /** Every run of a body paragraph with text ends up in 14 points. */
  lemma BodyRunsSized(i: nat, p: Paragraph, m: nat)
    requires i >= 25 && p.style == NORMAL && Strip(ParaText(p.runs)) != "" && m < |p.runs|
    ensures Styled(i, p).runs[m].font.size == Some(14)
  {
    assert Front(i, p) == p;
    assert Headings(p) == p;
    DressRun(p, LIST_LOOK, m);
    DressRun(p, BODY_LOOK, m);
  }

  /** From index 25 on, a blank Normal paragraph and a paragraph of any other non-heading style are left alone. */
  lemma BodySkipped(i: nat, p: Paragraph)
    requires i >= 25
    requires p.style != HEADING_1 && p.style != HEADING_2 && p.style != HEADING_3 && p.style != HEADING_4
    requires p.style != NORMAL || Strip(ParaText(p.runs)) == ""
    ensures Styled(i, p) == p
  {
    assert Front(i, p) == p;
  }

  /** Before index 25 the body rule never applies: a Normal paragraph there gets its fixed-index look only. */
  lemma FrontOnly(i: nat, p: Paragraph)
    requires i < 25 && p.style == NORMAL
    ensures var r := Styled(i, p); var l := FrontLook(i).value;
            r == Front(i, p) && r.format.alignment == Some(l.align)
            && r.format.spaceBefore == Some(l.before) && r.format.spaceAfter == Some(l.after)
  {
  }

  /** Paragraph 1 is ruled above and below exactly when its text carries one of the title marks. */
  lemma TitleBox(p: Paragraph)
    requires p.style == NORMAL
    ensures var r := Styled(1, p);
            (TitleBoxed(ParaText(p.runs)) ==>
              (Count(r.pPr, PBDR) == Count(p.pPr, PBDR) + 1
               && r.pPr[|r.pPr| - 1].kids == [Edge("top", 8, "1", "000000"), Edge("bottom", 8, "1", "000000")]))
            && (!TitleBoxed(ParaText(p.runs)) ==> Count(r.pPr, PBDR) == Count(p.pPr, PBDR))
  {
    var q := Dress(p, TITLE_LOOKS[1]);
    FrontTitle(p);
    DressKeepsText(p, TITLE_LOOKS[1]);
    assert Only(q.pPr, PBDR) == Only(p.pPr, PBDR) by {
      OnlyWithoutOther(q.pPr, BIDI, PBDR);
      OnlyWithoutOther(p.pPr, BIDI, PBDR);
    }
  }

  /** From index 25 on, the paragraph rules come down to the heading rules and the body rules. */
  lemma StyledAs(i: nat, p: Paragraph, d: Paragraph)
    requires i >= 25 && Front(i, p) == p && Headings(p) == d && Body(d) == d
    ensures Styled(i, p) == d
  {
  }

  /** From index 25 on, a section heading (levels 2 to 4) is kept with the next paragraph, aligned left, and bold. */
  lemma HeadingKeptWithNext(i: nat, p: Paragraph, m: nat)
    requires i >= 25 && (p.style == HEADING_2 || p.style == HEADING_3 || p.style == HEADING_4) && m < |p.runs|
    ensures KeptHeading(Styled(i, p), m)
  {
    StyledSubHeading(i, p);
    LevelKept(p, m);
  }

  /** From index 25 on, a section heading goes through its own heading rule and nothing else. */
  lemma StyledSubHeading(i: nat, p: Paragraph)
    requires i >= 25 && (p.style == HEADING_2 || p.style == HEADING_3 || p.style == HEADING_4)
    ensures Styled(i, p) == Dress(p, LevelLook(p.style))
  {
    var d := Dress(p, LevelLook(p.style));
    SubHeading(p);
    assert Body(d) == d by {
      assert d.style == p.style != NORMAL;
    }
    StyledAs(i, p, d);
  }

  /** Kept with the next paragraph, aligned left, and run `m` bold with a `bCs`. */
  predicate KeptHeading(r: Paragraph, m: nat) {
    m < |r.runs| && r.format.keepWithNext == Some(true) && r.format.alignment == Some(Left)
    && r.runs[m].font.bold == Some(true) && Count(r.runs[m].rPr, BCS) >= 1
  }

  /** The look of a section heading of level 2, 3 or 4. */
  function LevelLook(style: string): Look {
    if style == HEADING_2 then SECTION_LOOK else if style == HEADING_3 then SUBSECTION_LOOK else SUBSUBSECTION_LOOK
  }

  /** A section heading goes through exactly one of the heading rules. */
  lemma SubHeading(p: Paragraph)
    requires p.style == HEADING_2 || p.style == HEADING_3 || p.style == HEADING_4
    ensures Headings(p) == Dress(p, LevelLook(p.style))
  {
    assert HEADING_1 != HEADING_2 && HEADING_1 != HEADING_3 && HEADING_1 != HEADING_4;
    assert HEADING_2 != HEADING_3 && HEADING_2 != HEADING_4 && HEADING_3 != HEADING_4;
  }

  /** Every section heading look keeps with the next paragraph, aligns left and sets bold. */
  lemma LevelKept(p: Paragraph, m: nat)
    requires m < |p.runs|
    ensures KeptHeading(Dress(p, LevelLook(p.style)), m)
  {
    var l := LevelLook(p.style);
    assert l.keepNext && l.align == Left && l.bold == Some(true);
    DressRun(p, l, m);
  }

  /** From index 25 on, a chapter heading starts a new page, is centred and gets one more border. */
  lemma ChapterOnNewPage(i: nat, p: Paragraph)
    requires i >= 25 && p.style == HEADING_1
    ensures var r := Styled(i, p);
            r.format.pageBreakBefore == Some(true) && r.format.alignment == Some(Center)
            && Count(r.pPr, PBDR) == Count(p.pPr, PBDR) + 1
  {
    var c := Chapter(p);
    assert Front(i, p) == p;
    assert Headings(p) == c by {
      assert c.style == HEADING_1 != HEADING_2 && HEADING_1 != HEADING_3 && HEADING_1 != HEADING_4;
    }
    assert Body(c) == c by {
      assert c.style == HEADING_1 != NORMAL;
    }
  }
}
