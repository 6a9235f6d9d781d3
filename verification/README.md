# Arabic thesis to DOCX: a Dafny model of the conversion pipeline

This project models the core of `agenceVoyageAndPlatforms`, a small Python
pipeline that turns an Arabic LaTeX thesis into a Word document and proves
properties of the model. The pipeline has four stages:

1. `convert_to_docx.py` resolves `\input{}` recursively. It then cleans the
   LaTeX with a fixed chain of regular-expression substitutions: citations are
   turned into readable author names, and layout commands, environments,
   `\fcolorbox` and `\multirow` wrappers, comments and runs of blank lines are
   removed or collapsed.
2. `style_docx.py` restyles the converted document in place:
   - run fonts (Arabic face for the complex script, with `rtl` for Arabic text);
   - paragraph formats (always right-to-left through `bidi`);
   - the title page and front matter at fixed paragraph indices, heading
     levels and body paragraphs (list items or justified text);
   - tables, with a shaded header row;
   - headers and footers, with a PAGE field.
3. `postprocess_docx.py` runs a second pass. It makes sure every paragraph,
   table cell and section is right-to-left and every run has its Arabic face
   and complex-script size.
4. `merge_docs.py` builds the final document:
   - `_rf` and `_bidi` style runs and paragraphs;
   - `copy_body` copies the styled body from the introduction on, remapping
     relationship ids;
   - `setup_sections` adds a section break before the introduction, resets the
     body section's page setup, numbers its pages, and empties the headers and
     footers of the front matter.

Modules, one file each:

- `Xml` (`xml.dfy`): element trees as values, and the lxml idioms the scripts
  use (`find`, `findall`, find-or-append, remove, attribute upsert). It also
  holds Python's `str(n)` and `str.strip()`.
- `Docx` (`docx.dfy`): the python-docx view of a document (runs, paragraphs,
  cells, tables, headers and footers, sections), `has_arabic`, and the
  `Document` class whose paragraphs, tables and sections the scripts edit in
  place.
- `Patterns` (`patterns.dfy`): the fragment of Python's `re` the cleaning
  chain uses. It covers literal heads, `[^x]*` groups, optional groups,
  `[\d.]+`, `\b`, leftmost `re.search` and leftmost non-overlapping `re.sub`.
- `Braces` (`braces.dfy`): the brace-depth scan shared by `remove_fcolorbox`
  and `remove_multirow`.
- `Normalizer` (`normalizer.dfy`): `resolve_inputs`, `replace_cite` and the
  whole of `clean_latex`.
- `Style` (`style.dfy`): the helpers of `style_docx.py` and the styling rules
  of its `main`.
- `Postprocess` (`postprocess.dfy`): the post-processing pass.
- `Merge` (`merge.dfy`): `_rf`, `_bidi`, `copy_body` and `setup_sections`.
  The `Package` class holds the document's body children and one header and
  footer per section.

Code that changes the document in place is modelled imperatively:

- the loops of `style_docx.py` `main` and of `postprocess_docx.py` are methods
  on `Docx.Document`;
- `copy_body` and `setup_sections` are methods on `Merge.Package`;
- every other loop is a method proved against a specification function.

The specification functions carry the properties the scripts rely on.

## Model

| member | source | states |
|---|---|---|
| Xml.EnsureChild | agenceVoyageAndPlatforms/postprocess_docx.py:12-16 | find-or-append: afterwards exactly one child of the tag exists if there was none, otherwise the list is unchanged; children of other tags are kept in order |
| Xml.RemoveFirst | agenceVoyageAndPlatforms/style_docx.py:74-81 | `remove(find(t))`: one fewer child of the tag, or none if there was none; every other tag keeps its children |
| Xml.RemoveAll | agenceVoyageAndPlatforms/merge_docs.py:385 | after `for o in findall(t): remove(o)` no child of the tag is left and every other child stays in order |
| Xml.Upsert | agenceVoyageAndPlatforms/style_docx.py:49-61 | the first child of the tag gets the new attribute values; when the tag is missing, a fresh child carrying exactly those values goes first or last; the count and all other children are kept |
| Xml.ParseNatToString | agenceVoyageAndPlatforms/style_docx.py:69 | the decimal text written into a `w:val` reads back as the same number |
| Xml.Strip | agenceVoyageAndPlatforms/style_docx.py:608 | `str.strip()`: the result is a slice of the text with only whitespace before and after it, neither starts nor ends with whitespace, and is empty exactly when the text is all whitespace |
| Docx.HasArabic | agenceVoyageAndPlatforms/style_docx.py:40-41 | true exactly when some character is in U+0600–U+06FF or U+0750–U+077F |
| Docx.HasArabicConcat | agenceVoyageAndPlatforms/style_docx.py:40-41 | a concatenation has Arabic text exactly when one of its parts does |
| Docx.Clear | agenceVoyageAndPlatforms/merge_docs.py:403 | `p.clear()` removes every run and keeps the paragraph properties, format and style |
| Docx.Blank | agenceVoyageAndPlatforms/style_docx.py:249 | `p.text = ''` leaves a single empty run and keeps properties, format and style |
| Docx.RunText | agenceVoyageAndPlatforms/style_docx.py:54 | `run.text`: `w:t` text, a tab for `w:tab` and `w:ptab`, a newline for `w:cr` and a line-type `w:br`, a hyphen for `w:noBreakHyphen`; specified by SameKidsSameText |
| Docx.ParaText | agenceVoyageAndPlatforms/style_docx.py:608 | `paragraph.text`, the runs' text in order; specified by RunsFontKeepsText, DressKeepsText and Merge.NoText |
| Docx.Unlink | agenceVoyageAndPlatforms/style_docx.py:243-262 | `is_linked_to_previous = False`; specified by HeaderLine, FooterField and Merge.ClearStory |
| Docx.Document.constructor | agenceVoyageAndPlatforms/style_docx.py:293 | the open document holds the given paragraphs, tables and sections |
| Patterns.ScanTo | agenceVoyageAndPlatforms/convert_to_docx.py:82 | `[^}]*`: the first position holding the closing character, or the end; nothing before it is that character |
| Patterns.SkipDigits | agenceVoyageAndPlatforms/convert_to_docx.py:111 | `[\d.]+`: the end of the longest run of digits and dots |
| Patterns.MatchFrom | agenceVoyageAndPlatforms/convert_to_docx.py:88-101 | a match ends inside the text, and strictly after its start when the pattern has a literal head |
| Patterns.Search | agenceVoyageAndPlatforms/convert_to_docx.py:124 | `re.search` returns the leftmost match: it matches there and at no earlier position; `None` means no position matches |
| Patterns.Sub | agenceVoyageAndPlatforms/convert_to_docx.py:68-198 | `re.sub`; specified by SubFromNoMatch, SubInert, SubWhole and SubOne |
| Patterns.SubFrom | agenceVoyageAndPlatforms/convert_to_docx.py:68-198 | `re.sub` from a position on; specified by SubFromNoMatch and SubOne |
| Patterns.SubFromNoMatch | agenceVoyageAndPlatforms/convert_to_docx.py:88-101 | `re.sub` with no match copies the text unchanged |
| Patterns.SubInert | agenceVoyageAndPlatforms/convert_to_docx.py:88-101 | text that lacks a character of the pattern's literal head is left alone |
| Patterns.SubWhole | agenceVoyageAndPlatforms/convert_to_docx.py:82-85 | a one-argument command pattern applied to exactly `\cmd{arg}` replaces the whole text once, by what the replacement makes of it |
| Patterns.SubOne | agenceVoyageAndPlatforms/convert_to_docx.py:88-101 | `re.sub` on text holding one match, with no match possible before or after it, replaces that match by what the replacement makes of it and copies the rest |
| Braces.Directive | agenceVoyageAndPlatforms/convert_to_docx.py:122 | the search pattern of the flattening loops begins with a literal, so it never matches the empty string |
| Braces.Close | agenceVoyageAndPlatforms/convert_to_docx.py:130-137 | the depth scan stops inside the text and always advances when it starts open |
| Braces.Slice | agenceVoyageAndPlatforms/convert_to_docx.py:139 | Python slicing gives an empty result when the end is before the start, and `hi - lo` characters otherwise |
| Braces.FlattenStep | agenceVoyageAndPlatforms/convert_to_docx.py:123-140 | one round shortens the text; it fails exactly when `re.search` finds no directive |
| Braces.Flatten | agenceVoyageAndPlatforms/convert_to_docx.py:121-141 | the loop ends with no `\cmd{..}{..}{` left and the text no longer than before |
| Braces.ScanClose | agenceVoyageAndPlatforms/convert_to_docx.py:130-137 | the `while pos < len(text) and depth > 0` loop stops where the depth scan says |
| Braces.RemoveBraced | agenceVoyageAndPlatforms/convert_to_docx.py:150-168 | `remove_fcolorbox` and `remove_multirow` compute the flattened text |
| Braces.DepthAfterCons | agenceVoyageAndPlatforms/convert_to_docx.py:132-137 | the depth after a text is the depth after its first character, then after the rest |
| Braces.CloseOver | agenceVoyageAndPlatforms/convert_to_docx.py:132-137 | a stretch that keeps the depth positive only changes the depth the scan continues with |
| Braces.HeadLayout | agenceVoyageAndPlatforms/convert_to_docx.py:122 | where the command, both arguments and the third opening brace sit in `\cmd{a}{b}{` |
| Braces.MatchHead | agenceVoyageAndPlatforms/convert_to_docx.py:122 | the head pattern matches exactly the head of the text |
| Braces.HeadMatches | agenceVoyageAndPlatforms/convert_to_docx.py:124 | text starting with `\cmd{a}{b}{` has its leftmost directive at 0, ending after the third brace |
| Braces.StepBalanced | agenceVoyageAndPlatforms/convert_to_docx.py:119-142 | `\cmd{a}{b}{c}rest` with balanced `c` becomes `c rest`: the wrapper goes and the content stays |
| Braces.StepUnterminated | agenceVoyageAndPlatforms/convert_to_docx.py:137-140 | with no closing brace the head goes and so does the last character of the content (`pos - 1`) |
| Braces.FlattenInert | agenceVoyageAndPlatforms/convert_to_docx.py:121-141 | text without a backslash comes back unchanged |
| Normalizer.ApplyAllConcat | agenceVoyageAndPlatforms/convert_to_docx.py:78-198 | running two blocks of substitutions in a row is running their concatenation |
| Normalizer.ReplaceCite | agenceVoyageAndPlatforms/convert_to_docx.py:72-75 | `replace_cite`; specified by CiteReplaced |
| Normalizer.CiteReplaced | agenceVoyageAndPlatforms/convert_to_docx.py:72-75 | `\parencite{key}` becomes the parenthesised readable name for a known key and the parenthesised key otherwise |
| Normalizer.TextEnglishKept | agenceVoyageAndPlatforms/convert_to_docx.py:82 | `\textenglish{x}` becomes `x` |
| Normalizer.InputFile | agenceVoyageAndPlatforms/convert_to_docx.py:56-58 | the included file name always ends in `.tex`, and a name that already does is unchanged |
| Normalizer.Resolve | agenceVoyageAndPlatforms/convert_to_docx.py:65-69 | an answer is a text one more pass leaves unchanged; `None` means none of the first `fuel + 1` iterates is settled |
| Normalizer.ResolveInputs | agenceVoyageAndPlatforms/convert_to_docx.py:53-69 | `resolve_inputs` returns the first text an `\input` pass leaves unchanged |
| Normalizer.Fixpoint | agenceVoyageAndPlatforms/convert_to_docx.py:65-69 | the `while content != prev` loop computes the resolution, and its answer is settled |
| Normalizer.ResolveFindsFirst | agenceVoyageAndPlatforms/convert_to_docx.py:65-69 | the answer is the first settled iterate whenever it lies within the bound |
| Normalizer.ResolveMonotone | agenceVoyageAndPlatforms/convert_to_docx.py:65-69 | allowing more passes never changes an answer already reached |
| Normalizer.ResolvePlain | agenceVoyageAndPlatforms/convert_to_docx.py:65-69 | text with no backslash is returned at once |
| Normalizer.InputPass | agenceVoyageAndPlatforms/convert_to_docx.py:55-68 | one `re.sub` pass of `replace_input`; specified by ResolveIncludes and ResolveMissing |
| Normalizer.ResolveIncludes | agenceVoyageAndPlatforms/convert_to_docx.py:55-62 | `\input{name}` of an existing file becomes that file's text |
| Normalizer.ResolveMissing | agenceVoyageAndPlatforms/convert_to_docx.py:63 | `\input{name}` of a missing file is left as it is |
| Normalizer.SizeRules | agenceVoyageAndPlatforms/convert_to_docx.py:104-106 | rule i is the whole-word removal `\cmd\b` of command i, one per font-size command, in the commands' order |
| Normalizer.StripComments | agenceVoyageAndPlatforms/convert_to_docx.py:180-182 | the two comment passes; specified by StripFromGuarded, LineCommentsGone, InlineCommentsGone and StripFromInert |
| Normalizer.StripFromGuarded | agenceVoyageAndPlatforms/convert_to_docx.py:180-182 | every `%` left by the comment scan stands where the pattern cannot open a comment |
| Normalizer.InlineCommentsGone | agenceVoyageAndPlatforms/convert_to_docx.py:182 | after the inline pass every remaining `%` is escaped as `\%` |
| Normalizer.LineCommentsGone | agenceVoyageAndPlatforms/convert_to_docx.py:180 | after the line pass no line starts with `%` |
| Normalizer.StripFromInert | agenceVoyageAndPlatforms/convert_to_docx.py:180-182 | text without `%` is left alone by both comment passes |
| Normalizer.RunEnd | agenceVoyageAndPlatforms/convert_to_docx.py:196 | the maximal run of newlines from a position |
| Normalizer.Collapse | agenceVoyageAndPlatforms/convert_to_docx.py:196 | `\n{4,}` → three newlines: the result has no four newlines in a row |
| Normalizer.CollapseLongRun | agenceVoyageAndPlatforms/convert_to_docx.py:196 | a run of four or more newlines between text that does not continue it becomes exactly three newlines, and the text on either side is collapsed on its own |
| Normalizer.CollapseFromBounded | agenceVoyageAndPlatforms/convert_to_docx.py:196 | collapsing from any position leaves no run of four newlines and keeps a leading visible character |
| Normalizer.CollapseFromNoop | agenceVoyageAndPlatforms/convert_to_docx.py:196 | text with no run of four newlines is unchanged |
| Normalizer.CollapseIdempotent | agenceVoyageAndPlatforms/convert_to_docx.py:196 | collapsing twice is collapsing once |
| Normalizer.CollapseFromVisible | agenceVoyageAndPlatforms/convert_to_docx.py:196 | collapsing from a position keeps every character other than newline, in order |
| Normalizer.CollapseKeepsText | agenceVoyageAndPlatforms/convert_to_docx.py:196 | collapsing blank lines removes newlines only |
| Normalizer.Clean | agenceVoyageAndPlatforms/convert_to_docx.py:78-198 | `clean_latex` as its stages in source order; its output never holds four newlines in a row |
| Normalizer.ApplyAllPlain | agenceVoyageAndPlatforms/convert_to_docx.py:82-193 | substitutions whose patterns all start with a backslash or bracket leave plain text alone |
| Normalizer.PlainUnchanged | agenceVoyageAndPlatforms/convert_to_docx.py:78-198 | prose without markup passes through the whole of `clean_latex` unchanged |
| Normalizer.DropsVspace | agenceVoyageAndPlatforms/convert_to_docx.py:88 | the `\vspace` rule removes `\vspace{arg}` and `\vspace*{arg}` with the argument and keeps the text around them |
| Normalizer.DropsBare | agenceVoyageAndPlatforms/convert_to_docx.py:89-90 | a rule dropping a bare command such as `\vfill` or `\newpage` removes it and keeps the text around it |
| Normalizer.CleanSpaced | agenceVoyageAndPlatforms/convert_to_docx.py:78-198 | prose opened by `\vspace*{arg}` and closed by `\newpage` comes out of `clean_latex` as the prose alone |
| Normalizer.CleanSpacingExample | agenceVoyageAndPlatforms/convert_to_docx.py:88-90 | `\vspace*{1cm}text\newpage` comes out of `clean_latex` as `text` |
| Normalizer.RemoveSizes | agenceVoyageAndPlatforms/convert_to_docx.py:104-106 | the loop over font-size commands applies one rule per command, in order |
| Normalizer.ApplyThree | agenceVoyageAndPlatforms/convert_to_docx.py:115-117 | three rules in sequence are the three substitutions one after another |
| Normalizer.RemoveEnvironments | agenceVoyageAndPlatforms/convert_to_docx.py:114-117 | the loop over environments applies three removals each, in order |
| Normalizer.CleanLatex | agenceVoyageAndPlatforms/convert_to_docx.py:78-198 | the imperative `clean_latex` computes `Clean`, so its output has no four newlines in a row |
| Style.HalfPoints | agenceVoyageAndPlatforms/style_docx.py:69 | the `szCs` value is a decimal numeral reading twice the point size |
| Style.FontSlots | agenceVoyageAndPlatforms/style_docx.py:49-61 | the first rFonts gets `ascii`/`hAnsi` = the chosen face and `cs` = the Arabic face; a missing rFonts is inserted first; all other children are kept |
| Style.UpsertSlots | agenceVoyageAndPlatforms/style_docx.py:56-61 | the three font slots set on the rFonts read back with the values given |
| Style.SizeCs | agenceVoyageAndPlatforms/style_docx.py:65-69 | the first szCs holds the size in half-points; there is exactly one more szCs only when there was none; nothing else changes |
| Style.BoldCs | agenceVoyageAndPlatforms/style_docx.py:72-81 | bold true guarantees a bCs (adding one only when missing); bold false removes the first bCs; no bold leaves them alone |
| Style.RtlFor | agenceVoyageAndPlatforms/style_docx.py:88-92 | an Arabic run has an rtl afterwards (added only when missing); other runs are untouched |
| Style.RunFontSlots | agenceVoyageAndPlatforms/style_docx.py:49-61 | after `set_run_font`, `cs` is the Arabic face, and `ascii`/`hAnsi` are the Arabic face exactly when the run's text has Arabic |
| Style.RunFontSize | agenceVoyageAndPlatforms/style_docx.py:64-69 | the run's size is the point size and its first szCs holds twice that |
| Style.RunFontBold | agenceVoyageAndPlatforms/style_docx.py:72-81 | bold is set as given, and bCs follows the three-way rule |
| Style.RunFontRtl | agenceVoyageAndPlatforms/style_docx.py:88-92 | an Arabic run keeps its rtl count, or gets exactly one when it had none; a non-Arabic run keeps its rtl count |
| Style.RunFontRest | agenceVoyageAndPlatforms/style_docx.py:44-92 | `font.name` (the first rFonts' `ascii`) becomes the face of the run's script; content, italic and every rPr child other than rFonts, szCs, bCs and rtl are unchanged |
| Style.SetRunFont | agenceVoyageAndPlatforms/style_docx.py:44-92 | `set_run_font`; specified by RunFontSlots, RunFontSize, RunFontBold, RunFontRtl and RunFontRest |
| Style.Override | agenceVoyageAndPlatforms/style_docx.py:101-111 | an argument that is given replaces the property, and `None` keeps it |
| Style.SwitchOn | agenceVoyageAndPlatforms/style_docx.py:116-120 | `keep_next` and `page_break_before` can only switch their property on |
| Style.SetParagraphFormat | agenceVoyageAndPlatforms/style_docx.py:95-130 | each format field follows its argument or is kept; exactly one more bidi only when there was none; other pPr children, runs and style are unchanged |
| Style.SetParagraphFormatIdempotent | agenceVoyageAndPlatforms/style_docx.py:95-130 | formatting twice with the same arguments is formatting once |
| Style.RunsFont | agenceVoyageAndPlatforms/style_docx.py:133-136 | every run is restyled by `set_run_font`, and the paragraph's properties are untouched |
| Style.EachRun | agenceVoyageAndPlatforms/style_docx.py:135-136 | the loop over the runs applies the step to each run, in place |
| Style.SetParagraphRunsFont | agenceVoyageAndPlatforms/style_docx.py:133-136 | the loop computes `RunsFont` |
| Style.SameKidsSameText | agenceVoyageAndPlatforms/style_docx.py:54 | runs with the same content read the same, whatever their properties |
| Style.RunsFontKeepsText | agenceVoyageAndPlatforms/style_docx.py:133-136 | restyling the runs never changes the paragraph's text |
| Style.AppendBorder | agenceVoyageAndPlatforms/style_docx.py:141-149 | exactly one more pBdr, appended last with the given edges; everything else kept |
| Style.AddBottomBorder | agenceVoyageAndPlatforms/style_docx.py:139-149 | one more pBdr, last, holding a single bottom edge of the given size and colour |
| Style.AddTopAndBottomBorder | agenceVoyageAndPlatforms/style_docx.py:152-163 | one more pBdr, last, holding the top edge and then the bottom edge |
| Style.StyledTable | agenceVoyageAndPlatforms/style_docx.py:210-237 | the table is centred and keeps its shape; each cell is styled, as a header cell exactly in row 0 |
| Style.Each | agenceVoyageAndPlatforms/style_docx.py:225-237 | the loops over a cell's paragraphs and over the sections apply the step to each item, in place, keeping the length |
| Style.StyleCell | agenceVoyageAndPlatforms/style_docx.py:216-237 | one cell's treatment computes `StyledCell` |
| Style.SetTableStyle | agenceVoyageAndPlatforms/style_docx.py:210-237 | the row and cell loops compute `StyledTable` |
| Style.CellDressed | agenceVoyageAndPlatforms/style_docx.py:185-223 | every cell gains one tcBorders and one centred vAlign, kept after its old properties; the shading is added exactly for a header cell |
| Style.CellRunsSized | agenceVoyageAndPlatforms/style_docx.py:224-237 | a cell paragraph is centred with 2 pt before and after; every run is 11 pt; header runs are bold with a bCs; other runs keep their weight |
| Style.WithFirst | agenceVoyageAndPlatforms/style_docx.py:243-248 | a story with its own part, whose first paragraph (added when there is none) is replaced and the rest kept |
| Style.FieldRun | agenceVoyageAndPlatforms/style_docx.py:267-284 | a footer field run holds only its field child |
| Style.FieldRuns | agenceVoyageAndPlatforms/style_docx.py:267-284 | one styled run per field child, in order |
| Style.HeaderLine | agenceVoyageAndPlatforms/style_docx.py:241-254 | the header is unlinked: a linked header becomes one paragraph in the "Header" style with a single bottom rule, a header with its own part keeps its later paragraphs and its first paragraph's style and gains one rule; either way the first paragraph is emptied, left-aligned and right-to-left |
| Style.FooterPara | agenceVoyageAndPlatforms/style_docx.py:263-284 | an empty first run followed by one run per field child; centred and right-to-left, in the paragraph's own style |
| Style.FooterField | agenceVoyageAndPlatforms/style_docx.py:255-284 | the footer is unlinked: a linked footer becomes one paragraph in the "Footer" style, a footer with its own part keeps its later paragraphs and its first paragraph's style; either way the first paragraph is centred and holds an empty run and then the three PAGE-field runs |
| Style.FieldRunLatin | agenceVoyageAndPlatforms/style_docx.py:283-284 | a field run has no text, so it gets 11 pt, the Latin face and no rtl |
| Style.AddHeadersFooters | agenceVoyageAndPlatforms/style_docx.py:641-642 | every section gets its header and footer (linked ones first get parts of their own); paragraphs and tables are untouched |
| Style.AddHeaderFooter | agenceVoyageAndPlatforms/style_docx.py:240-284 | `add_header_footer` on one section; specified by HeaderLine and FooterField, one for each story |
| Style.Dress | agenceVoyageAndPlatforms/style_docx.py:513-518 | an optional page break, then the look's format (one bidi) and the look's font on every run; the style is kept |
| Style.DressKeepsText | agenceVoyageAndPlatforms/style_docx.py:44-136 | styling a paragraph never changes its text |
| Style.DressRun | agenceVoyageAndPlatforms/style_docx.py:133-136 | each run gets the look's size, its bold and colour when the look has them, and otherwise keeps its own bold |
| Style.FrontLook | agenceVoyageAndPlatforms/style_docx.py:445-560 | a fixed-index look exists exactly for paragraphs 0–24; the page break comes exactly at 5, 13 and 20 |
| Style.Front | agenceVoyageAndPlatforms/style_docx.py:445-560 | paragraphs 0–24 take their look's alignment, spacing and a bidi, keeping style and text; from 25 on nothing changes |
| Style.Chapter | agenceVoyageAndPlatforms/style_docx.py:572-578 | a Heading 1 gets a page break, centring and one more border: a navy bottom rule |
| Style.Headings | agenceVoyageAndPlatforms/style_docx.py:572-602 | the four heading loops keep the style and leave every non-heading paragraph unchanged |
| Style.Body | agenceVoyageAndPlatforms/style_docx.py:605-630 | the body rule keeps the style and leaves non-Normal and blank paragraphs unchanged |
| Style.StyleAt | agenceVoyageAndPlatforms/style_docx.py:445-449 | an `if total > i:` block changes paragraph `i` only, when it exists |
| Style.StyleRange | agenceVoyageAndPlatforms/style_docx.py:521-526 | `for i in range(lo, min(hi, total))` restyles exactly the paragraphs in range |
| Style.DressLine | agenceVoyageAndPlatforms/style_docx.py:445-498 | one title-page line takes its look, and nothing else changes |
| Style.StyleTitleLines | agenceVoyageAndPlatforms/style_docx.py:445-498 | paragraphs 0–4 take their title looks, and the rest is untouched |
| Style.BoxTitle | agenceVoyageAndPlatforms/style_docx.py:502-506 | paragraph 1 gets top and bottom rules exactly when its text carries the title or thesis-type mark |
| Style.FrontTitle | agenceVoyageAndPlatforms/style_docx.py:452-506 | paragraph 1 is first dressed and then boxed according to its dressed text |
| Style.StyleTitlePage | agenceVoyageAndPlatforms/style_docx.py:445-506 | paragraphs 0–4 follow the fixed-index rule, and nothing else changes |
| Style.StyleDedication | agenceVoyageAndPlatforms/style_docx.py:513-526 | paragraphs 5–12 follow the fixed-index rule, and nothing else changes |
| Style.StyleAcknowledgments | agenceVoyageAndPlatforms/style_docx.py:530-543 | paragraphs 13–19 follow the fixed-index rule, and nothing else changes |
| Style.StyleAbstract | agenceVoyageAndPlatforms/style_docx.py:547-560 | paragraphs 20–24 follow the fixed-index rule, and nothing else changes |
| Style.StyleFrontMatter | agenceVoyageAndPlatforms/style_docx.py:445-560 | paragraphs 0–24 follow the fixed-index rule; tables and sections are untouched |
| Style.ChapterIndices | agenceVoyageAndPlatforms/style_docx.py:566-569 | the collected indices are exactly the Heading 1 paragraphs, strictly increasing |
| Style.StyleChapters | agenceVoyageAndPlatforms/style_docx.py:566-578 | exactly the Heading 1 paragraphs are restyled as chapters |
| Style.EachAt | agenceVoyageAndPlatforms/style_docx.py:572-578 | the loop over increasing indices changes exactly the listed items |
| Style.StyleWhere | agenceVoyageAndPlatforms/style_docx.py:581-602 | a `for p in paras: if p.style.name == name` loop restyles exactly the paragraphs of that style |
| Style.DetectList | agenceVoyageAndPlatforms/style_docx.py:613-617 | the marker loop says "list" exactly when the stripped text starts with a list marker |
| Style.StyleBodyParagraph | agenceVoyageAndPlatforms/style_docx.py:606-630 | one step of the body loop computes `Body` |
| Style.StyleBody | agenceVoyageAndPlatforms/style_docx.py:605-630 | paragraphs from 25 on follow the body rule; earlier ones are untouched |
| Style.StyleHeadings | agenceVoyageAndPlatforms/style_docx.py:566-602 | every paragraph goes through the four heading loops in order |
| Style.Styled | agenceVoyageAndPlatforms/style_docx.py:445-630 | the end state of the paragraph at index `i`; specified by FrontOnly, TitleBox, ChapterOnNewPage, StyledSubHeading, BodyClassified, BodyRunsSized and BodySkipped |
| Style.StyleParagraphs | agenceVoyageAndPlatforms/style_docx.py:445-630 | each paragraph ends up as `Styled(i, p)`: fixed-index rule, then headings, then, from 25 on, the body rule |
| Style.StyleTables | agenceVoyageAndPlatforms/style_docx.py:635-636 | every table is styled; paragraphs and sections are untouched |
| Style.StyleDocument | agenceVoyageAndPlatforms/style_docx.py:437-642 | paragraphs, tables, then headers and footers, each as its rule says |
| Style.BodyClassified | agenceVoyageAndPlatforms/style_docx.py:605-630 | from 25 on, a Normal paragraph with text becomes a list item (left, 2/2 pt, indent 0) when it starts with a marker, and justified text (0/6 pt) otherwise; both get line spacing 1.5 and a bidi, and keep their text |
| Style.BodyRunsSized | agenceVoyageAndPlatforms/style_docx.py:620-630 | every run of a body paragraph with text is set in 14 pt |
| Style.BodySkipped | agenceVoyageAndPlatforms/style_docx.py:606-609 | from 25 on, blank Normal paragraphs and other non-heading styles are left exactly as they were |
| Style.FrontOnly | agenceVoyageAndPlatforms/style_docx.py:445-560 | before index 25 a Normal paragraph gets its fixed-index look only, never the body rule |
| Style.TitleBox | agenceVoyageAndPlatforms/style_docx.py:502-506 | paragraph 1 is ruled above and below exactly when its text carries a title mark |
| Style.StyledSubHeading | agenceVoyageAndPlatforms/style_docx.py:581-602 | from 25 on, a level 2–4 heading goes through its own heading rule and nothing else |
| Style.SubHeading | agenceVoyageAndPlatforms/style_docx.py:581-602 | a level 2–4 heading matches exactly one heading loop |
| Style.LevelKept | agenceVoyageAndPlatforms/style_docx.py:581-602 | every level 2–4 look keeps with next, aligns left and makes runs bold with a bCs |
| Style.HeadingKeptWithNext | agenceVoyageAndPlatforms/style_docx.py:581-602 | from 25 on, a section heading is kept with the next paragraph, aligned left, and bold |
| Style.ChapterOnNewPage | agenceVoyageAndPlatforms/style_docx.py:572-578 | from 25 on, a chapter heading starts a new page, is centred and gains one border |
| Postprocess.Fonts | agenceVoyageAndPlatforms/postprocess_docx.py:23-37 | the first rFonts gets `cs` = the face, and `ascii`/`hAnsi` = that face for Arabic text and Times New Roman otherwise; a missing rFonts is appended last; all else kept |
| Postprocess.PostRun | agenceVoyageAndPlatforms/postprocess_docx.py:19-51 | `set_paragraph_rtl_and_font` on one run; specified by PostRunFonts, PostRunRtl, PostRunSize, PostRunRest and PostRunIdempotent |
| Postprocess.PostRunFonts | agenceVoyageAndPlatforms/postprocess_docx.py:23-37 | `cs` is always the face; `ascii`/`hAnsi` are the face exactly when the run has Arabic text |
| Postprocess.PostRunRtl | agenceVoyageAndPlatforms/postprocess_docx.py:40-44 | an Arabic run ends with an rtl (added only when missing); any other run keeps its rtl; none is removed |
| Postprocess.PostRunSize | agenceVoyageAndPlatforms/postprocess_docx.py:47-51 | the first szCs holds twice the point size; one more szCs exactly when there was none |
| Postprocess.PostRunRest | agenceVoyageAndPlatforms/postprocess_docx.py:19-51 | content, font properties and every other rPr child are untouched |
| Postprocess.UpsertFixed | agenceVoyageAndPlatforms/postprocess_docx.py:23-51 | a find-or-add whose values are already set changes nothing |
| Postprocess.FontsSettle | agenceVoyageAndPlatforms/postprocess_docx.py:23-37 | after one pass the rFonts already holds the values a second pass would set |
| Postprocess.RtlSettles | agenceVoyageAndPlatforms/postprocess_docx.py:40-44 | after one pass an Arabic run already has its rtl |
| Postprocess.SizeSettles | agenceVoyageAndPlatforms/postprocess_docx.py:47-51 | after one pass the szCs already holds the size |
| Postprocess.PostRunIdempotent | agenceVoyageAndPlatforms/postprocess_docx.py:19-51 | post-processing a run twice is post-processing it once |
| Postprocess.PostParagraph | agenceVoyageAndPlatforms/postprocess_docx.py:9-51 | exactly one more bidi only when there was none; other pPr children, style and format are kept; every run is post-processed |
| Postprocess.SetParagraphRtlAndFont | agenceVoyageAndPlatforms/postprocess_docx.py:9-51 | the run loop computes `PostParagraph` |
| Postprocess.PostParagraphKeepsText | agenceVoyageAndPlatforms/postprocess_docx.py:9-51 | post-processing never changes what a paragraph reads |
| Postprocess.PostParagraphIdempotent | agenceVoyageAndPlatforms/postprocess_docx.py:9-51 | post-processing a paragraph twice with the same arguments is doing it once |
| Postprocess.SizeForStyle | agenceVoyageAndPlatforms/postprocess_docx.py:55-65 | 22 exactly when the style name contains "Heading 1"; 18 exactly for "Heading 2" without "Heading 1"; 16 likewise for "Heading 3"; 14 otherwise |
| Postprocess.PostCell | agenceVoyageAndPlatforms/postprocess_docx.py:70-72 | every paragraph of a cell is post-processed at 12 pt; the cell properties are untouched |
| Postprocess.PostTable | agenceVoyageAndPlatforms/postprocess_docx.py:68-72 | every cell of every row is post-processed; shape and alignment are kept |
| Postprocess.PostParagraphs | agenceVoyageAndPlatforms/postprocess_docx.py:54-65 | every body paragraph is post-processed at its style's size; tables and sections are untouched |
| Postprocess.PostBody | agenceVoyageAndPlatforms/postprocess_docx.py:54-65 | the body loop on one paragraph; specified by BodyRunSized |
| Postprocess.PostTableCells | agenceVoyageAndPlatforms/postprocess_docx.py:69-72 | the row, cell and paragraph loops compute `PostTable` |
| Postprocess.PostTables | agenceVoyageAndPlatforms/postprocess_docx.py:68-72 | every table is post-processed; paragraphs and sections are untouched |
| Postprocess.PostSections | agenceVoyageAndPlatforms/postprocess_docx.py:75-80 | every sectPr gets a bidi only when missing; paragraphs and tables are untouched |
| Postprocess.PostprocessDocument | agenceVoyageAndPlatforms/postprocess_docx.py:54-80 | paragraphs, tables and sections, each as its loop says |
| Postprocess.SectionBidi | agenceVoyageAndPlatforms/postprocess_docx.py:75-80 | a section ends with exactly one bidi if it had none and keeps every other child |
| Postprocess.BodyRunSized | agenceVoyageAndPlatforms/postprocess_docx.py:54-65 | a body run's szCs is 22, 18 or 16 pt for headings 1–3 and 14 pt otherwise |
| Postprocess.CellRunSized | agenceVoyageAndPlatforms/postprocess_docx.py:68-72 | every table-cell run gets a 12 pt complex-script size |
| Merge.RfFontsFirst | agenceVoyageAndPlatforms/merge_docs.py:29-46 | after `_rf` the run has exactly one rFonts, the fresh one, first among its properties |
| Merge.RfPropsFirst | agenceVoyageAndPlatforms/merge_docs.py:29-46 | the property list `_rf` builds keeps its fresh rFonts first and alone |
| Merge.RfSizeOnce | agenceVoyageAndPlatforms/merge_docs.py:29-46 | after `_rf` the run has exactly one szCs, holding twice the point size, and its size is the point size |
| Merge.RfKeeps | agenceVoyageAndPlatforms/merge_docs.py:29-46 | children other than rFonts and szCs survive `_rf`'s font and size steps unchanged |
| Merge.RfBold | agenceVoyageAndPlatforms/merge_docs.py:29-46 | `_rf` always sets bold, and adds a bCs for bold without ever removing one |
| Merge.RfRtl | agenceVoyageAndPlatforms/merge_docs.py:29-46 | `_rf` guarantees an rtl whatever the script, adding one only when missing |
| Merge.RfRest | agenceVoyageAndPlatforms/merge_docs.py:29-46 | `font.name` (the first rFonts' `ascii`) becomes the Latin face `fl`; content and every property other than rFonts, szCs, bCs and rtl are kept |
| Merge.Rf | agenceVoyageAndPlatforms/merge_docs.py:29-46 | `_rf`; specified by RfFontsFirst, RfSizeOnce, RfBold, RfRtl and RfRest |
| Merge.Bidi | agenceVoyageAndPlatforms/merge_docs.py:48-51 | a bidi is appended to the pPr only when missing; everything else is kept |
| Merge.FirstWhere | agenceVoyageAndPlatforms/merge_docs.py:277-279 | the first index satisfying the test, or `None` when no index does |
| Merge.FindFirst | agenceVoyageAndPlatforms/merge_docs.py:277-279 | the search loop with `break` computes `FirstWhere` |
| Merge.LastWhere | agenceVoyageAndPlatforms/merge_docs.py:310-313 | the last index satisfying the test, or the length when none does |
| Merge.FindLast | agenceVoyageAndPlatforms/merge_docs.py:311-313 | the `reversed` loop with `break` computes `LastWhere` |
| Merge.StartIndex | agenceVoyageAndPlatforms/merge_docs.py:275-280 | the first Heading 1 mentioning the introduction, and 25 when there is none |
| Merge.FindStart | agenceVoyageAndPlatforms/merge_docs.py:275-280 | the loop computes `StartIndex` |
| Merge.NthP | agenceVoyageAndPlatforms/merge_docs.py:284-293 | the body index of the `p` preceded by exactly `n` `p` children; `None` exactly when there are at most `n` of them |
| Merge.ElementStart | agenceVoyageAndPlatforms/merge_docs.py:284-291 | the counting loop computes `NthP` |
| Merge.NthPExtend | agenceVoyageAndPlatforms/merge_docs.py:286-291 | once the `n`-th `p` lies in a prefix, the whole list locates it at the same place |
| Merge.BuildRidMap | agenceVoyageAndPlatforms/merge_docs.py:298-305 | the relationship loop computes `RidMap` |
| Merge.RidMap | agenceVoyageAndPlatforms/merge_docs.py:298-305 | `rid_map`; specified by RidMapKeys and computed by BuildRidMap |
| Merge.RidMapKeys | agenceVoyageAndPlatforms/merge_docs.py:298-305 | an id is a key exactly when its relationship is an internal image or external hyperlink, and then maps to what `relate_to` returned; no other key exists |
| Merge.RemapValue | agenceVoyageAndPlatforms/merge_docs.py:322-324 | `r:embed`, `r:link` and `r:id` values present in the map are rewritten; everything else is kept |
| Merge.Remap | agenceVoyageAndPlatforms/merge_docs.py:320-324 | the deep copy keeps tag, text, attribute names and children, and rewrites relationship attributes at every depth |
| Merge.RemapShape | agenceVoyageAndPlatforms/merge_docs.py:320-324 | a copy differs from its original only in relationship attribute values, at any depth |
| Merge.RemapEmpty | agenceVoyageAndPlatforms/merge_docs.py:320-324 | with an empty map the copy equals the original |
| Merge.Copies | agenceVoyageAndPlatforms/merge_docs.py:316-329 | the copies hold no `sectPr` |
| Merge.CopiesCount | agenceVoyageAndPlatforms/merge_docs.py:316-329 | one copy per child that is not a `sectPr`, in order; without `sectPr` children the copies are the remapped children themselves |
| Merge.SectStaysLast | agenceVoyageAndPlatforms/merge_docs.py:325-326 | the destination's last `sectPr` is still the last after the copies go in front of it |
| Merge.Splice | agenceVoyageAndPlatforms/merge_docs.py:315-329 | the copy loop puts the copies, in order, in front of the insertion point and counts them |
| Merge.AddBreak | agenceVoyageAndPlatforms/merge_docs.py:364-379 | the break sectPr is appended to the first pPr, or to a new pPr put first when there is none; all else kept |
| Merge.ReplaceAfter | agenceVoyageAndPlatforms/merge_docs.py:385-388 | remove-all-then-append drops the tag from the front part and puts the new child last |
| Merge.ReplaceFour | agenceVoyageAndPlatforms/merge_docs.py:385-398 | the four replacements drop those four tags and end the list with the four new children, in order |
| Merge.FourShape | agenceVoyageAndPlatforms/merge_docs.py:385-398 | after the four replacements each tag occurs once, the four close the list in order, and the rest is kept |
| Merge.ResetSect | agenceVoyageAndPlatforms/merge_docs.py:382-398 | the reset of the body `sectPr`; specified by ResetSectShape |
| Merge.ResetSectShape | agenceVoyageAndPlatforms/merge_docs.py:382-398 | the body section ends with exactly one pgSz (A4), pgMar (thesis margins), pgNumType (from 1) and bidi, and keeps its other children |
| Merge.PSectListConcat | agenceVoyageAndPlatforms/merge_docs.py:401 | paragraph sections of a concatenation are those of its parts |
| Merge.Sections | agenceVoyageAndPlatforms/merge_docs.py:401 | `doc.sections`; specified by SectionsConcat, SectionsAt, BreakSections and BreakElsewhere |
| Merge.SectionsConcat | agenceVoyageAndPlatforms/merge_docs.py:401 | `doc.sections` of concatenated bodies is the concatenation of their sections |
| Merge.SectionsAt | agenceVoyageAndPlatforms/merge_docs.py:401 | replacing one body child replaces only that child's sections |
| Merge.BreakSects | agenceVoyageAndPlatforms/merge_docs.py:364-379 | a `w:p` given the break gains exactly that one section, right after those of its first pPr |
| Merge.BreakSections | agenceVoyageAndPlatforms/merge_docs.py:364-379 | the break adds exactly one section to `doc.sections`, where that paragraph's first pPr ends, and moves no other |
| Merge.BreakElsewhere | agenceVoyageAndPlatforms/merge_docs.py:359-379 | a break given to a `p` outside the main namespace makes no section |
| Merge.SwapSection | agenceVoyageAndPlatforms/merge_docs.py:382-398 | swapping one body `sectPr` for another swaps that one section in place |
| Merge.ResetSections | agenceVoyageAndPlatforms/merge_docs.py:382-398 | resetting the body's own `sectPr` changes that one section in place |
| Merge.ClearStory | agenceVoyageAndPlatforms/merge_docs.py:418-424 | unlinking and clearing leaves an unlinked story with no runs; a linked one gets a single empty paragraph |
| Merge.PageFooter | agenceVoyageAndPlatforms/merge_docs.py:401-415 | the last footer is unlinked; its first paragraph (added when missing) is centred, right-to-left and holds only the PAGE field, whose runs are 11 pt and named by the Latin face; later paragraphs are empty |
| Merge.PageRunsShape | agenceVoyageAndPlatforms/merge_docs.py:406-415 | three field runs with no text, in 11 pt, each with an rFonts naming the Latin face, as `font.name = LF` writes it |
| Merge.NoText | agenceVoyageAndPlatforms/merge_docs.py:406-414 | runs holding only field characters or instructions give no paragraph text |
| Merge.Framed | agenceVoyageAndPlatforms/merge_docs.py:401-424 | the footer step and the front-matter loop keep the number of sections |
| Merge.FramedShape | agenceVoyageAndPlatforms/merge_docs.py:401-424 | every section but the last has an unlinked, empty header and footer; the last keeps its header and numbers its pages |
| Merge.BreakTarget | agenceVoyageAndPlatforms/merge_docs.py:356-364 | the last `p` before the heading when it has children (`if prev:`); otherwise there is no break |
| Merge.SetupAligned | agenceVoyageAndPlatforms/merge_docs.py:364-398 | after the break and the reset there is still one header and footer per section |
| Merge.BrokenAligned | agenceVoyageAndPlatforms/merge_docs.py:364-379 | after the break there is still one header and footer per section |
| Merge.LinkedStories | agenceVoyageAndPlatforms/merge_docs.py:325-328 | `n` sections, each following the previous section's header and footer |
| Merge.SpliceSections | agenceVoyageAndPlatforms/merge_docs.py:325-326 | children put in front of position `l` bring their sections in front of the sections from `l` on |
| Merge.PlaceBreak | agenceVoyageAndPlatforms/merge_docs.py:356-379 | the break step computes `Broken` on the body and `Storied` on the sections |
| Merge.FindBreak | agenceVoyageAndPlatforms/merge_docs.py:358-362 | the backward loop computes `BreakTarget` |
| Merge.ResetBodySection | agenceVoyageAndPlatforms/merge_docs.py:382-398 | the reset step computes `ResetLast` |
| Merge.FrameStories | agenceVoyageAndPlatforms/merge_docs.py:401-424 | the footer step and the front-matter loop compute `Framed` |
| Merge.EachButLast | agenceVoyageAndPlatforms/merge_docs.py:401-424 | the last item is transformed by one step, and every earlier item by the other |
| Merge.EachBefore | agenceVoyageAndPlatforms/merge_docs.py:418-424 | the loop over `doc.sections[:-1]` applies the step to each earlier item, in place |
| Merge.SetupOn | agenceVoyageAndPlatforms/merge_docs.py:336-424 | without an introduction heading nothing changes; otherwise the body is broken and reset, the stories are framed, and "no sections" is reported exactly when none are left |
| Merge.CopyPlan | agenceVoyageAndPlatforms/merge_docs.py:275-313 | the three searches of `copy_body`, given the source paragraphs read off the body's `p` children: the start element, the rid map and the insertion point |
| Merge.CopyInto | agenceVoyageAndPlatforms/merge_docs.py:272-331 | with a start element, the remapped copies go in front of the last `sectPr`, each section they bring gets a linked header and footer, and true is returned; otherwise nothing changes and false is returned |
| Merge.FindIntro | agenceVoyageAndPlatforms/merge_docs.py:341-351 | the loop computes the first introduction heading |
| Merge.InsertCopies | agenceVoyageAndPlatforms/merge_docs.py:315-329 | the copies are spliced at the insertion point, with one linked story per section they bring |
| Merge.Package.constructor | agenceVoyageAndPlatforms/merge_docs.py:434 | the package holds the given body and stories |
| Merge.Package.CopyBody | agenceVoyageAndPlatforms/merge_docs.py:272-331 | `copy_body` on the package keeps one story per section and leaves it as `CopiedAs` describes |
| Merge.Package.SetupSections | agenceVoyageAndPlatforms/merge_docs.py:336-424 | `setup_sections` on the package keeps one story per section, and leaves it unchanged without an introduction; otherwise broken, reset and framed |

## Left out

- Reading and writing files, running pandoc, `create_reference_docx` and the two `main` functions (convert_to_docx.py:201-411, merge_docs.py:429-494) are not modelled. They are I/O and process control. File contents enter `resolve_inputs` as a map from path to text.
- The front-matter builders of merge_docs.py (`_ap`, `_box`, `_deco`, `_hr`, `_page_border` and the `build_*` functions, lines 53-268) build fixed pages out of literal text and are not modelled.
- The per-section page setup and `sectPr` bidi at style_docx.py:298-311 and the style definitions at style_docx.py:313-435 are not modelled. They set each section's margins, page size and direction and the style sheet's fixed values, and the paragraph and table rules read none of them.
- `add_box_border` (style_docx.py:166-177) is defined but never called, so it is not modelled.
- The `thesis_title_idx` search at style_docx.py:475-485 is not modelled. It has no effect on the document.
- Line spacings are decimals in the source (1.15, 1.5, 1.8); the model stores them as hundredths. Lengths in centimetres are held as twip constants.
- The order of children inside `rPr`, `pPr` and `sectPr` is kept as the scripts produce it. The model does not reorder them to the OOXML schema order, as Word does on save.
- Merged table cells are not modelled: each cell of a row is distinct, whereas python-docx repeats a merged cell.
- `Docx.IsArabic`, `Patterns.IsWordChar` and `Patterns.IsDigitOrDot` use the Arabic blocks and ASCII ranges the thesis uses. They do not use the full Unicode categories of Python's `\w` and `\d`.
- Normalizer.Resolve: `resolve_inputs` loops until nothing changes and may never stop on a self-including file. The model takes a bound on the number of changing passes and answers `None` when the bound runs out.
- Merge.RidMap: `relate_to` is a parameter of the model; python-docx part creation is not modelled. The `try/except: pass` around it is not modelled, so a relationship whose `relate_to` fails is not modelled.
- Document elements are values in the model. The aliasing between python-docx proxies and the lxml tree is not modelled.
- `add_header_footer` takes a `header_text` parameter that its body never uses; the model leaves it out.
- Merge.Package.SetupSections: when the document has no section at all, `doc.sections[-1]` raises `IndexError`. The model reports `NoSections` instead.
- Merge.Package.SetupSections: the `try/except: pass` around clearing the front-matter stories is not modelled, because that clearing cannot fail on these values.
- Merge.Package.CopyBody: a section break inside a copied paragraph makes a new section. The model gives it a linked header and footer. The headers and footers that python-docx would find behind any copied references are not modelled.
- Console output (`print`) and warnings are left out; `copy_body`'s result and `setup_sections`' outcome are returned instead.
- Python's `re` module is modelled only for the pattern shapes the cleaning chain uses.
- Paragraph content other than direct runs, such as `w:hyperlink`, is not modelled. `Paragraph.text` is read from the direct runs only. A paragraph whose text sits inside a hyperlink therefore counts as blank for the body rule (style_docx.py:606-617), the title-box test (style_docx.py:503) and the search for the introduction (merge_docs.py:278).
