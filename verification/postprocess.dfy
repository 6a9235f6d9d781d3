/**
  * The post-processing pass run on the styled document: every paragraph is
  * marked right-to-left, every run gets its complex-script font, its
  * Latin-or-Arabic font slots, `rtl` when its text is Arabic and a
  * complex-script size chosen from the paragraph's style name; table-cell
  * paragraphs get size 12, and every section is marked right-to-left.
  */
module Postprocess {
  import opened Xml
  import opened Docx
  import Style

  // ---------------------------------------------------------------------------
  // One run
  // ---------------------------------------------------------------------------

  /** The rFonts settings: `cs` the given face, `ascii` and `hAnsi` that face for Arabic text and Times New Roman otherwise. */
  function FontAttrs(font: string, arabic: bool): map<QName, string> {
    var face := if arabic then font else LATIN_FONT;
    map[CS := font, ASCII := face, HANSI := face]
  }

  /** The first `rFonts` takes the settings; when there is none, one is appended last. */
  function Fonts(rPr: seq<Element>, font: string, arabic: bool): (r: seq<Element>)
    ensures var f := Find(r, RFONTS);
            f.Some? && CS in f.value.attrs && ASCII in f.value.attrs && HANSI in f.value.attrs
            && f.value.attrs[CS] == font
            && f.value.attrs[ASCII] == (if arabic then font else LATIN_FONT)
            && f.value.attrs[HANSI] == (if arabic then font else LATIN_FONT)
    ensures Count(r, RFONTS) == if Count(rPr, RFONTS) == 0 then 1 else Count(rPr, RFONTS)
    ensures Count(rPr, RFONTS) == 0 ==> IndexOf(r, RFONTS) == Some(|rPr|)
    ensures Without(r, {RFONTS}) == Without(rPr, {RFONTS})
    ensures forall u | u != RFONTS :: Only(r, u) == Only(rPr, u)
  {
    CountZeroIff(rPr, RFONTS);
    Upsert(rPr, RFONTS, FontAttrs(font, arabic), false)
  }

  /** What `set_paragraph_rtl_and_font` does to one run. */
  function PostRun(run: Run, font: string, size: nat): Run {
    var arabic := HasArabic(RunText(run.kids));
    run.(rPr := Style.SizeCs(Style.RtlFor(Fonts(run.rPr, font, arabic), arabic), size))
  }

  /** `cs` is always the given face; `ascii` and `hAnsi` are that face exactly when the run's text has an Arabic character. */
  lemma PostRunFonts(run: Run, font: string, size: nat)
    ensures var f := Find(PostRun(run, font, size).rPr, RFONTS);
            var arabic := HasArabic(RunText(run.kids));
            f.Some? && CS in f.value.attrs && ASCII in f.value.attrs && HANSI in f.value.attrs
            && f.value.attrs[CS] == font
            && (arabic ==> f.value.attrs[ASCII] == font && f.value.attrs[HANSI] == font)
            && (!arabic ==> f.value.attrs[ASCII] == LATIN_FONT && f.value.attrs[HANSI] == LATIN_FONT)
    ensures var r := PostRun(run, font, size);
            Count(r.rPr, RFONTS) == if Count(run.rPr, RFONTS) == 0 then 1 else Count(run.rPr, RFONTS)
  {
    var arabic := HasArabic(RunText(run.kids));
    var p1 := Fonts(run.rPr, font, arabic);
    var p2 := Style.RtlFor(p1, arabic);
    var p3 := Style.SizeCs(p2, size);
    assert Only(p3, RFONTS) == Only(p2, RFONTS) == Only(p1, RFONTS);
  }

  /** An Arabic run ends up with its rtl, or a new one; any other run keeps the rtl it had, so none is ever removed. */
  lemma PostRunRtl(run: Run, font: string, size: nat)
    ensures var r := PostRun(run, font, size);
            HasArabic(RunText(run.kids)) ==> Count(r.rPr, RTL) == if Count(run.rPr, RTL) == 0 then 1 else Count(run.rPr, RTL)
    ensures var r := PostRun(run, font, size);
            !HasArabic(RunText(run.kids)) ==> Count(r.rPr, RTL) == Count(run.rPr, RTL)
  {
    var arabic := HasArabic(RunText(run.kids));
    var p1 := Fonts(run.rPr, font, arabic);
    var p2 := Style.RtlFor(p1, arabic);
    var p3 := Style.SizeCs(p2, size);
    assert Only(p3, RTL) == Only(p2, RTL);
    assert Only(p1, RTL) == Only(run.rPr, RTL);
  }

  /** The first szCs holds twice the point size, and there is exactly one more szCs only when there was none. */
  lemma PostRunSize(run: Run, font: string, size: nat)
    ensures var z := Find(PostRun(run, font, size).rPr, SZCS);
            z.Some? && VAL in z.value.attrs && ParseNat(z.value.attrs[VAL]) == 2 * size
    ensures var r := PostRun(run, font, size);
            Count(r.rPr, SZCS) == if Count(run.rPr, SZCS) == 0 then 1 else Count(run.rPr, SZCS)
  {
    var arabic := HasArabic(RunText(run.kids));
    var p1 := Fonts(run.rPr, font, arabic);
    var p2 := Style.RtlFor(p1, arabic);
    assert Only(p2, SZCS) == Only(p1, SZCS) == Only(run.rPr, SZCS);
  }

  /** The run's content, its font properties and every other rPr child are left alone. */
  lemma PostRunRest(run: Run, font: string, size: nat)
    ensures var r := PostRun(run, font, size);
            r.kids == run.kids && r.font == run.font
            && Without(r.rPr, {RFONTS, RTL, SZCS}) == Without(run.rPr, {RFONTS, RTL, SZCS})
  {
    var ts := {RFONTS, RTL, SZCS};
    var arabic := HasArabic(RunText(run.kids));
    var p1 := Fonts(run.rPr, font, arabic);
    var p2 := Style.RtlFor(p1, arabic);
    var p3 := Style.SizeCs(p2, size);
    WithoutWider(p1, run.rPr, RFONTS, ts);
    WithoutWider(p2, p1, RTL, ts);
    WithoutWider(p3, p2, SZCS, ts);
  }

  /** Attributes already holding the values to be set are left as they are. */
  lemma SettledAttrs(attrs: map<QName, string>, vals: map<QName, string>)
    requires forall k | k in vals :: k in attrs && attrs[k] == vals[k]
    ensures attrs + vals == attrs
  {
  }

  /** Post-processing a run a second time with the same face and size changes nothing. */
  lemma PostRunIdempotent(run: Run, font: string, size: nat)
    ensures PostRun(PostRun(run, font, size), font, size) == PostRun(run, font, size)
  {
    var arabic := HasArabic(RunText(run.kids));
    var x := Style.SizeCs(Style.RtlFor(Fonts(run.rPr, font, arabic), arabic), size);
    assert PostRun(run, font, size) == run.(rPr := x);
    assert Fonts(x, font, arabic) == x by {
      FontsSettle(run.rPr, font, arabic, size);
    }
    assert Style.RtlFor(x, arabic) == x by {
      RtlSettles(run.rPr, font, arabic, size);
    }
    assert Style.SizeCs(x, size) == x by {
      SizeSettles(run.rPr, font, arabic, size);
    }
  }

  lemma FontsSettle(rPr: seq<Element>, font: string, arabic: bool, size: nat)
    ensures var x := Style.SizeCs(Style.RtlFor(Fonts(rPr, font, arabic), arabic), size);
            Fonts(x, font, arabic) == x
  {
    var p1 := Fonts(rPr, font, arabic);
    var p2 := Style.RtlFor(p1, arabic);
    var x := Style.SizeCs(p2, size);
    assert Find(x, RFONTS) == Find(p1, RFONTS) by {
      assert Only(x, RFONTS) == Only(p2, RFONTS) == Only(p1, RFONTS);
    }
    UpsertFixed(x, RFONTS, FontAttrs(font, arabic));
  }

  lemma RtlSettles(rPr: seq<Element>, font: string, arabic: bool, size: nat)
    ensures var x := Style.SizeCs(Style.RtlFor(Fonts(rPr, font, arabic), arabic), size);
            Style.RtlFor(x, arabic) == x
  {
    var p1 := Fonts(rPr, font, arabic);
    var p2 := Style.RtlFor(p1, arabic);
    var x := Style.SizeCs(p2, size);
    if arabic {
      assert Count(x, RTL) > 0 by {
        assert Only(x, RTL) == Only(p2, RTL);
      }
      assert EnsureChild(x, RTL) == x;
    }
  }

  lemma SizeSettles(rPr: seq<Element>, font: string, arabic: bool, size: nat)
    ensures var x := Style.SizeCs(Style.RtlFor(Fonts(rPr, font, arabic), arabic), size);
            Style.SizeCs(x, size) == x
  {
    var x := Style.SizeCs(Style.RtlFor(Fonts(rPr, font, arabic), arabic), size);
    UpsertFixed(x, SZCS, map[VAL := Style.HalfPoints(size)]);
  }

  /** An upsert whose values the first child of that tag already holds changes nothing. */
  lemma UpsertFixed(x: seq<Element>, t: QName, vals: map<QName, string>)
    requires Find(x, t).Some? && forall k | k in vals :: k in Find(x, t).value.attrs && Find(x, t).value.attrs[k] == vals[k]
    ensures Upsert(x, t, vals, false) == x
  {
    SettledAttrs(Find(x, t).value.attrs, vals);
    UpsertSettled(x, t, vals, false);
  }

  // ---------------------------------------------------------------------------
  // One paragraph
  // ---------------------------------------------------------------------------

  /** What `set_paragraph_rtl_and_font(para, font, size)` leaves a paragraph as. */
  function PostParagraph(p: Paragraph, font: string, size: nat): (r: Paragraph)
    ensures Count(r.pPr, BIDI) == if Count(p.pPr, BIDI) == 0 then 1 else Count(p.pPr, BIDI)
    ensures p.pPr <= r.pPr && forall u | u != BIDI :: Only(r.pPr, u) == Only(p.pPr, u)
    ensures r.style == p.style && r.format == p.format && |r.runs| == |p.runs|
    ensures forall m | 0 <= m < |p.runs| :: r.runs[m] == PostRun(p.runs[m], font, size)
  {
    Paragraph(p.style, p.format, EnsureChild(p.pPr, BIDI),
              seq(|p.runs|, m requires 0 <= m < |p.runs| => PostRun(p.runs[m], font, size)))
  }

  /** `set_paragraph_rtl_and_font(para, font, size)`: bidi on the paragraph, then the run loop. */
  method SetParagraphRtlAndFont(p: Paragraph, font: string, size: nat) returns (r: Paragraph)
    ensures r == PostParagraph(p, font, size)
  {
    var q := p.(pPr := EnsureChild(p.pPr, BIDI));
    r := Style.EachRun(q, run => PostRun(run, font, size));
  }

  /** Post-processing keeps what a paragraph reads. */
  lemma PostParagraphKeepsText(p: Paragraph, font: string, size: nat)
    ensures ParaText(PostParagraph(p, font, size).runs) == ParaText(p.runs)
  {
    var r := PostParagraph(p, font, size);
    Style.SameKidsSameText(r.runs, p.runs);
  }

  /** Post-processing a paragraph a second time with the same face and size changes nothing. */
  lemma PostParagraphIdempotent(p: Paragraph, font: string, size: nat)
    ensures PostParagraph(PostParagraph(p, font, size), font, size) == PostParagraph(p, font, size)
  {
    var r := PostParagraph(p, font, size);
    var rr := PostParagraph(r, font, size);
    forall m | 0 <= m < |p.runs| ensures rr.runs[m] == r.runs[m] {
      PostRunIdempotent(p.runs[m], font, size);
    }
  }

  // ---------------------------------------------------------------------------
  // The document
  // ---------------------------------------------------------------------------

  /** The size chosen by substring tests on the style name, first match wins. */
  function SizeForStyle(style: string): (n: nat)
    ensures Contains(style, "Heading 1") <==> n == 22
    ensures n == 18 <==> !Contains(style, "Heading 1") && Contains(style, "Heading 2")
    ensures n == 16 <==> !Contains(style, "Heading 1") && !Contains(style, "Heading 2") && Contains(style, "Heading 3")
    ensures n == 14 <==> !Contains(style, "Heading 1") && !Contains(style, "Heading 2") && !Contains(style, "Heading 3")
  {
    if Contains(style, "Heading 1") then 22
    else if Contains(style, "Heading 2") then 18
    else if Contains(style, "Heading 3") then 16
    else if Contains(style, "Heading 4") then 14
    else 14
  }

  /** The body loop's treatment of one paragraph. */
  function PostBody(p: Paragraph): Paragraph {
    PostParagraph(p, ARABIC_FONT, SizeForStyle(p.style))
  }

  /** The table loop's treatment of one cell: every paragraph at size 12, the cell properties untouched. */
  function PostCell(c: Cell): (r: Cell)
    ensures r.tcPr == c.tcPr && |r.paras| == |c.paras|
    ensures forall k | 0 <= k < |c.paras| :: r.paras[k] == PostParagraph(c.paras[k], ARABIC_FONT, 12)
  {
    c.(paras := seq(|c.paras|, k requires 0 <= k < |c.paras| => PostParagraph(c.paras[k], ARABIC_FONT, 12)))
  }

  /** The table loop's treatment of one table: every cell of every row. */
  function PostTable(t: Table): (r: Table)
    ensures r.centered == t.centered && |r.rows| == |t.rows|
    ensures forall i | 0 <= i < |t.rows| :: |r.rows[i]| == |t.rows[i]|
    ensures forall i, j | 0 <= i < |t.rows| && 0 <= j < |t.rows[i]| :: r.rows[i][j] == PostCell(t.rows[i][j])
  {
    t.(rows := seq(|t.rows|, i requires 0 <= i < |t.rows| =>
                 seq(|t.rows[i]|, j requires 0 <= j < |t.rows[i]| => PostCell(t.rows[i][j]))))
  }

  /** The loop over `doc.paragraphs`: the size dispatch on each style name. */
  method PostParagraphs(doc: Document)
    modifies doc
    ensures |doc.paras| == |old(doc.paras)|
    ensures forall j | 0 <= j < |doc.paras| :: doc.paras[j] == PostBody(old(doc.paras)[j])
    ensures doc.tables == old(doc.tables) && doc.sections == old(doc.sections)
  {
    for j := 0 to |doc.paras|
      invariant |doc.paras| == |old(doc.paras)|
      invariant forall k | 0 <= k < |doc.paras| ::
                  doc.paras[k] == if k < j then PostBody(old(doc.paras)[k]) else old(doc.paras)[k]
      invariant doc.tables == old(doc.tables) && doc.sections == old(doc.sections)
    {
      var p := doc.paras[j];
      var size: nat;
      if Contains(p.style, "Heading 1") {
        size := 22;
      } else if Contains(p.style, "Heading 2") {
        size := 18;
      } else if Contains(p.style, "Heading 3") {
        size := 16;
      } else if Contains(p.style, "Heading 4") {
        size := 14;
      } else {
        size := 14;
      }
      p := SetParagraphRtlAndFont(p, ARABIC_FONT, size);
      doc.paras := doc.paras[j := p];
    }
  }

  /** The loop over one table's rows, cells and cell paragraphs. */
  method PostTableCells(t: Table) returns (r: Table)
    ensures r == PostTable(t)
  {
    var rows := t.rows;
    for i := 0 to |rows|
      invariant |rows| == |t.rows|
      invariant forall a | 0 <= a < i :: rows[a] == PostTable(t).rows[a]
      invariant forall a | i <= a < |rows| :: rows[a] == t.rows[a]
    {
      var row := rows[i];
      for j := 0 to |row|
        invariant |row| == |t.rows[i]|
        invariant forall b | 0 <= b < j :: row[b] == PostCell(t.rows[i][b])
        invariant forall b | j <= b < |row| :: row[b] == t.rows[i][b]
      {
        var paras := Style.Each(row[j].paras, p => PostParagraph(p, ARABIC_FONT, 12));
        row := row[j := row[j].(paras := paras)];
      }
      rows := rows[i := row];
    }
    r := t.(rows := rows);
  }

  /** The loop over `doc.tables`. */
  method PostTables(doc: Document)
    modifies doc
    ensures |doc.tables| == |old(doc.tables)|
    ensures forall k | 0 <= k < |doc.tables| :: doc.tables[k] == PostTable(old(doc.tables)[k])
    ensures doc.paras == old(doc.paras) && doc.sections == old(doc.sections)
  {
    for k := 0 to |doc.tables|
      invariant |doc.tables| == |old(doc.tables)|
      invariant forall j | 0 <= j < |doc.tables| ::
                  doc.tables[j] == if j < k then PostTable(old(doc.tables)[j]) else old(doc.tables)[j]
      invariant doc.paras == old(doc.paras) && doc.sections == old(doc.sections)
    {
      var t := PostTableCells(doc.tables[k]);
      doc.tables := doc.tables[k := t];
    }
  }

  /** The loop over `doc.sections`: a bidi in every sectPr, appended only when missing. */
  method PostSections(doc: Document)
    modifies doc
    ensures |doc.sections| == |old(doc.sections)|
    ensures forall k | 0 <= k < |doc.sections| ::
              doc.sections[k] == old(doc.sections)[k].(sectPr := EnsureChild(old(doc.sections)[k].sectPr, BIDI))
    ensures doc.paras == old(doc.paras) && doc.tables == old(doc.tables)
  {
    var secs := Style.Each(doc.sections, (s: Section) => s.(sectPr := EnsureChild(s.sectPr, BIDI)));
    doc.sections := secs;
  }

  /** The whole script between loading and saving: paragraphs, tables, sections. */
  method PostprocessDocument(doc: Document)
    modifies doc
    ensures |doc.paras| == |old(doc.paras)| && |doc.tables| == |old(doc.tables)| && |doc.sections| == |old(doc.sections)|
    ensures forall j | 0 <= j < |doc.paras| :: doc.paras[j] == PostBody(old(doc.paras)[j])
    ensures forall k | 0 <= k < |doc.tables| :: doc.tables[k] == PostTable(old(doc.tables)[k])
    ensures forall k | 0 <= k < |doc.sections| ::
              doc.sections[k] == old(doc.sections)[k].(sectPr := EnsureChild(old(doc.sections)[k].sectPr, BIDI))
  {
    PostParagraphs(doc);
    PostTables(doc);
    PostSections(doc);
  }

  // ---------------------------------------------------------------------------
  // What the pass guarantees
  // ---------------------------------------------------------------------------

  /** Every section ends up with exactly one bidi if it had none, and keeps every other sectPr child. */
  lemma SectionBidi(s: Section)
    ensures var t := EnsureChild(s.sectPr, BIDI);
            Count(t, BIDI) >= 1 && (Count(s.sectPr, BIDI) == 0 ==> Count(t, BIDI) == 1)
            && s.sectPr <= t && Without(t, {BIDI}) == Without(s.sectPr, {BIDI})
  {
  }

  /** The first szCs of a run's properties holds `size` in half-points. */
  predicate SizedAt(rPr: seq<Element>, size: nat) {
    var z := Find(rPr, SZCS);
    z.Some? && VAL in z.value.attrs && z.value.attrs[VAL] == Style.HalfPoints(size)
  }

  /** A body paragraph's runs are sized by its style: 22, 18 or 16 points for headings 1 to 3, 14 for the rest. */
  lemma BodyRunSized(p: Paragraph, m: nat)
    requires m < |p.runs|
    ensures SizedAt(PostBody(p).runs[m].rPr, SizeForStyle(p.style))
  {
    var arabic := HasArabic(RunText(p.runs[m].kids));
    var size := SizeForStyle(p.style);
    var x := Style.RtlFor(Fonts(p.runs[m].rPr, ARABIC_FONT, arabic), arabic);
    assert PostBody(p).runs[m].rPr == Style.SizeCs(x, size);
  }

  /** Every run of every table cell gets a complex-script size of 12 points. */
  lemma CellRunSized(c: Cell, k: nat, m: nat)
    requires k < |c.paras| && m < |c.paras[k].runs|
    ensures m < |PostCell(c).paras[k].runs| && SizedAt(PostCell(c).paras[k].runs[m].rPr, 12)
  {
    var run := c.paras[k].runs[m];
    var arabic := HasArabic(RunText(run.kids));
    var x := Style.RtlFor(Fonts(run.rPr, ARABIC_FONT, arabic), arabic);
    assert PostCell(c).paras[k].runs[m].rPr == Style.SizeCs(x, 12);
  }
}
