/**
  * The merge script that assembles the final document: its run and
  * paragraph helpers `_rf` and `_bidi`, the splice that copies the styled
  * body from the general introduction on into the new document with its
  * image and hyperlink relationships renumbered, and the section rewrite
  * that starts page numbering at the introduction.
  */
module Merge {
  import opened Xml
  import opened Docx
  import Style

  // ---------------------------------------------------------------------------
  // `_rf` and `_bidi`
  // ---------------------------------------------------------------------------

  /** The fresh `rFonts` of `_rf`: `cs` the Arabic face, `ascii` and `hAnsi` the Latin one, whatever the text. */
  function RfFonts(fa: string, fl: string): Element {
    Element(RFONTS, map[CS := fa, ASCII := fl, HANSI := fl], [], "")
  }

  /** The fresh `szCs` of `_rf`: the size in half-points. */
  function RfSize(sz: nat): Element {
    Element(SZCS, map[VAL := Style.HalfPoints(sz)], [], "")
  }

  /** `_rf(run, fa, fl, sz, bold, color, italic)` */
  function Rf(run: Run, fa: string, fl: string, sz: nat, bold: bool, color: Option<Rgb>, italic: bool): Run {
    var p1 := [RfFonts(fa, fl)] + RemoveAll(run.rPr, RFONTS);
    var p2 := RemoveAll(p1, SZCS) + [RfSize(sz)];
    var p3 := if bold then EnsureChild(p2, BCS) else p2;
    var font := run.font.(size := Some(sz), bold := Some(bold),
                          italic := if italic then Some(true) else run.font.italic,
                          color := if color.Some? then color else run.font.color);
    Run(EnsureChild(p3, RTL), run.kids, font)
  }

  /** After `_rf` the run holds exactly one rFonts, the fresh one, as its first property. */
  lemma RfFontsFirst(run: Run, fa: string, fl: string, sz: nat, bold: bool, color: Option<Rgb>, italic: bool)
    ensures var r := Rf(run, fa, fl, sz, bold, color, italic);
            |r.rPr| > 0 && r.rPr[0] == RfFonts(fa, fl) && Count(r.rPr, RFONTS) == 1
  {
    RfPropsFirst(run.rPr, RfFonts(fa, fl), RfSize(sz), bold);
  }

  /** The property list `_rf` builds keeps its fresh `rFonts` first and alone. */
  lemma RfPropsFirst(rPr: seq<Element>, f: Element, z: Element, bold: bool)
    requires f.tag == RFONTS && z.tag == SZCS
    ensures var p2 := RemoveAll([f] + RemoveAll(rPr, RFONTS), SZCS) + [z];
            var p4 := EnsureChild(if bold then EnsureChild(p2, BCS) else p2, RTL);
            |p4| > 0 && p4[0] == f && Count(p4, RFONTS) == 1
  {
    var p0 := RemoveAll(rPr, RFONTS);
    var p1 := [f] + p0;
    assert p1[0] == f && Only(p1, RFONTS) == [f] by {
      OnlyConcat([f], p0, RFONTS);
    }
    var q := RemoveAll(p1, SZCS);
    assert q[0] == f && Only(q, RFONTS) == [f];
    var p2 := q + [z];
    assert p2[0] == f && Only(p2, RFONTS) == [f] by {
      OnlyConcat(q, [z], RFONTS);
    }
    var p3 := if bold then EnsureChild(p2, BCS) else p2;
    assert p3[0] == f && Only(p3, RFONTS) == [f];
  }

  /** After `_rf` the run holds exactly one szCs, the fresh one with twice the point size, and its size is `sz`. */
  lemma RfSizeOnce(run: Run, fa: string, fl: string, sz: nat, bold: bool, color: Option<Rgb>, italic: bool)
    ensures var r := Rf(run, fa, fl, sz, bold, color, italic);
            r.font.size == Some(sz) && Count(r.rPr, SZCS) == 1 && Find(r.rPr, SZCS) == Some(RfSize(sz))
            && ParseNat(RfSize(sz).attrs[VAL]) == 2 * sz
  {
    var p1 := [RfFonts(fa, fl)] + RemoveAll(run.rPr, RFONTS);
    var q := RemoveAll(p1, SZCS);
    var p2 := q + [RfSize(sz)];
    OnlyConcat(q, [RfSize(sz)], SZCS);
    assert Only(p2, SZCS) == [RfSize(sz)];
    var p3 := if bold then EnsureChild(p2, BCS) else p2;
    var p4 := EnsureChild(p3, RTL);
    assert Only(p4, SZCS) == Only(p3, SZCS) == [RfSize(sz)];
  }

  /** The bCs and rtl of the run survive the rFonts and szCs steps of `_rf` as they were. */
  lemma RfKeeps(run: Run, fa: string, fl: string, sz: nat, u: QName)
    requires u != RFONTS && u != SZCS
    ensures Only(RemoveAll([RfFonts(fa, fl)] + RemoveAll(run.rPr, RFONTS), SZCS) + [RfSize(sz)], u) == Only(run.rPr, u)
  {
    var p0 := RemoveAll(run.rPr, RFONTS);
    var q := RemoveAll([RfFonts(fa, fl)] + p0, SZCS);
    OnlyConcat([RfFonts(fa, fl)], p0, u);
    OnlyConcat(q, [RfSize(sz)], u);
  }

  /** `_rf` always sets bold, and adds a bCs for bold without ever removing one. */
  lemma RfBold(run: Run, fa: string, fl: string, sz: nat, bold: bool, color: Option<Rgb>, italic: bool)
    ensures var r := Rf(run, fa, fl, sz, bold, color, italic);
            r.font.bold == Some(bold)
            && (bold ==> Count(r.rPr, BCS) == if Count(run.rPr, BCS) == 0 then 1 else Count(run.rPr, BCS))
            && (!bold ==> Count(r.rPr, BCS) == Count(run.rPr, BCS))
  {
    var p2 := RemoveAll([RfFonts(fa, fl)] + RemoveAll(run.rPr, RFONTS), SZCS) + [RfSize(sz)];
    RfKeeps(run, fa, fl, sz, BCS);
    var p3 := if bold then EnsureChild(p2, BCS) else p2;
    assert Only(EnsureChild(p3, RTL), BCS) == Only(p3, BCS);
  }

  /** `_rf` guarantees an rtl whatever the run's script, adding one only when missing. */
  lemma RfRtl(run: Run, fa: string, fl: string, sz: nat, bold: bool, color: Option<Rgb>, italic: bool)
    ensures var r := Rf(run, fa, fl, sz, bold, color, italic);
            Count(r.rPr, RTL) == if Count(run.rPr, RTL) == 0 then 1 else Count(run.rPr, RTL)
  {
    var p2 := RemoveAll([RfFonts(fa, fl)] + RemoveAll(run.rPr, RFONTS), SZCS) + [RfSize(sz)];
    RfKeeps(run, fa, fl, sz, RTL);
    var p3 := if bold then EnsureChild(p2, BCS) else p2;
    assert Only(p3, RTL) == Only(p2, RTL);
  }

  /** `_rf` makes `font.name` the Latin face and keeps the run's content and every property other than rFonts, szCs, bCs and rtl. */
  lemma RfRest(run: Run, fa: string, fl: string, sz: nat, bold: bool, color: Option<Rgb>, italic: bool)
    ensures var r := Rf(run, fa, fl, sz, bold, color, italic);
            r.kids == run.kids && FontName(r.rPr) == Some(fl)
            && r.font.italic == (if italic then Some(true) else run.font.italic)
            && r.font.color == (if color.Some? then color else run.font.color)
            && Without(r.rPr, {RFONTS, SZCS, BCS, RTL}) == Without(run.rPr, {RFONTS, SZCS, BCS, RTL})
  {
    var ts := {RFONTS, SZCS, BCS, RTL};
    var p0 := RemoveAll(run.rPr, RFONTS);
    var p1 := [RfFonts(fa, fl)] + p0;
    var q := RemoveAll(p1, SZCS);
    var p2 := q + [RfSize(sz)];
    var p3 := if bold then EnsureChild(p2, BCS) else p2;
    var p4 := EnsureChild(p3, RTL);
    WithoutWider(p0, run.rPr, RFONTS, ts);
    WithoutConcat([RfFonts(fa, fl)], p0, ts);
    WithoutWider(q, p1, SZCS, ts);
    WithoutConcat(q, [RfSize(sz)], ts);
    if bold { WithoutWider(p3, p2, BCS, ts); }
    WithoutWider(p4, p3, RTL, ts);
    assert FontName(p4) == Some(fl) by {
      RfFontsFirst(run, fa, fl, sz, bold, color, italic);
      FontNameFirst(p4, RfFonts(fa, fl));
    }
  }

  /** `_bidi(p)`: a bidi in the paragraph properties, appended only when missing. */
  function Bidi(p: Paragraph): (r: Paragraph)
    ensures Count(r.pPr, BIDI) == if Count(p.pPr, BIDI) == 0 then 1 else Count(p.pPr, BIDI)
    ensures p.pPr <= r.pPr && Without(r.pPr, {BIDI}) == Without(p.pPr, {BIDI})
    ensures r.runs == p.runs && r.format == p.format && r.style == p.style
  {
    p.(pPr := EnsureChild(p.pPr, BIDI))
  }

  // ---------------------------------------------------------------------------
  // Searches over a list
  // ---------------------------------------------------------------------------

  /** The first index from `i` on whose item satisfies `f`. */
  function FirstWhere<T>(xs: seq<T>, f: T -> bool, i: nat): (r: Option<nat>)
    requires i <= |xs|
    ensures r.Some? ==> i <= r.value < |xs| && f(xs[r.value]) && forall j | i <= j < r.value :: !f(xs[j])
    ensures r.None? ==> forall j | i <= j < |xs| :: !f(xs[j])
    decreases |xs| - i
  {
    if i == |xs| then None else if f(xs[i]) then Some(i) else FirstWhere(xs, f, i + 1)
  }

  /** `for x in xs: if f(x): ...; break` */
  method FindFirst<T>(xs: seq<T>, f: T -> bool) returns (r: Option<nat>)
    ensures r == FirstWhere(xs, f, 0)
  {
    r := None;
    var i := 0;
    while i < |xs|
      invariant 0 <= i <= |xs| && FirstWhere(xs, f, 0) == FirstWhere(xs, f, i)
    {
      if f(xs[i]) {
        r := Some(i);
        return;
      }
      i := i + 1;
    }
  }

  /** The last index whose item satisfies `f`, or `|xs|` when there is none. */
  function LastWhere<T>(xs: seq<T>, f: T -> bool): (r: nat)
    ensures r <= |xs|
    ensures r < |xs| ==> f(xs[r]) && forall j | r < j < |xs| :: !f(xs[j])
    ensures r == |xs| ==> forall j | 0 <= j < |xs| :: !f(xs[j])
  {
    if xs == [] then 0
    else if f(xs[|xs| - 1]) then |xs| - 1
    else
      var r := LastWhere(xs[..|xs| - 1], f);
      if r == |xs| - 1 then |xs| else r
  }

  /** `for x in reversed(xs): if f(x): ...; break` */
  method FindLast<T>(xs: seq<T>, f: T -> bool) returns (r: nat)
    ensures r == LastWhere(xs, f)
  {
    var i := |xs|;
    while i > 0
      invariant 0 <= i <= |xs| && forall j | i <= j < |xs| :: !f(xs[j])
    {
      i := i - 1;
      if f(xs[i]) {
        r := i;
        return;
      }
    }
    r := |xs|;
  }

  // ---------------------------------------------------------------------------
  // `copy_body`: where the body starts
  // ---------------------------------------------------------------------------

  const INTRO: string := "المقدمة"

  /** A paragraph in the Heading 1 style whose text mentions the introduction. */
  predicate IsIntroPara(p: Paragraph) {
    p.style == "Heading 1" && Contains(ParaText(p.runs), INTRO)
  }

  /** `start_idx`: the first introduction heading, or paragraph 25 when there is none. */
  function StartIndex(paras: seq<Paragraph>): (start: nat)
    ensures (exists i | 0 <= i < |paras| :: IsIntroPara(paras[i])) ==>
              start < |paras| && IsIntroPara(paras[start]) && forall j | 0 <= j < start :: !IsIntroPara(paras[j])
    ensures (forall i | 0 <= i < |paras| :: !IsIntroPara(paras[i])) ==> start == 25
  {
    match FirstWhere(paras, IsIntroPara, 0)
    case Some(i) => i
    case None => 25
  }

  /** The loop over `body_doc.paragraphs` that finds `start_idx`. */
  method FindStart(paras: seq<Paragraph>) returns (start: nat)
    ensures start == StartIndex(paras)
  {
    var found := FindFirst(paras, IsIntroPara);
    start := if found.Some? then found.value else 25;
  }

  /** A body child whose local name is `p`, whatever its namespace. */
  predicate IsP(e: Element) { e.tag.local == "p" }

  /** A body child whose local name is `sectPr`, whatever its namespace. */
  predicate IsSectLocal(e: Element) { e.tag.local == "sectPr" }

  /** The number of `p` children. */
  function PCount(kids: seq<Element>): nat {
    if kids == [] then 0 else PCount(kids[..|kids| - 1]) + (if IsP(kids[|kids| - 1]) then 1 else 0)
  }

  /** The body index of the `p` child with exactly `n` `p` children before it. */
  function NthP(kids: seq<Element>, n: nat): (r: Option<nat>)
    ensures r.Some? ==> r.value < |kids| && IsP(kids[r.value]) && PCount(kids[..r.value]) == n && PCount(kids) > n
    ensures r.None? <==> PCount(kids) <= n
  {
    if kids == [] then None
    else
      var init := kids[..|kids| - 1];
      var r := NthP(init, n);
      if r.Some? then
        assert init[..r.value] == kids[..r.value];
        r
      else if IsP(kids[|kids| - 1]) && PCount(init) == n then
        assert kids[..|kids| - 1] == init;
        Some(|kids| - 1)
      else None
  }

  /** The loop that finds `el_start`, counting `p` children only. */
  method ElementStart(kids: seq<Element>, start: nat) returns (el: Option<nat>)
    ensures el == NthP(kids, start)
  {
    var pc := 0;
    el := None;
    for idx := 0 to |kids|
      invariant pc == PCount(kids[..idx]) && pc <= start
      invariant NthP(kids[..idx], start).None?
    {
      assert kids[..idx + 1][..idx] == kids[..idx];
      if IsP(kids[idx]) {
        if pc == start {
          el := Some(idx);
          NthPExtend(kids, idx + 1, start);
          return;
        }
        pc := pc + 1;
      }
    }
    assert kids[..|kids|] == kids;
  }

  /** Once the `n`-th `p` is in a prefix, longer prefixes locate it at the same place. */
  lemma {:induction false} NthPExtend(kids: seq<Element>, i: nat, n: nat)
    requires i <= |kids| && NthP(kids[..i], n).Some?
    ensures NthP(kids, n) == NthP(kids[..i], n)
    decreases |kids| - i
  {
    if i < |kids| {
      var k := kids[..i + 1];
      assert k[..|k| - 1] == kids[..i];
      NthPExtend(kids, i + 1, n);
    } else {
      assert kids[..i] == kids;
    }
  }

  // ---------------------------------------------------------------------------
  // `copy_body`: relationship ids
  // ---------------------------------------------------------------------------

  const IMAGE_REL: string := "http://schemas.openxmlformats.org/officeDocument/2006/relationships/image"
  const HLINK_REL: string := "http://schemas.openxmlformats.org/officeDocument/2006/relationships/hyperlink"

  /** One relationship of the source part: its id, its type, whether its target is external, and the target. */
  datatype Rel = Rel(rId: string, relType: string, external: bool, target: string)

  /** Only internal images and external hyperlinks are carried over. */
  predicate Carried(rel: Rel) {
    (rel.relType == IMAGE_REL && !rel.external) || (rel.relType == HLINK_REL && rel.external)
  }

  /** `rid_map` after the loop over the first `|rels|` relationships; `relateTo` stands for `final_doc.part.relate_to`. */
  function RidMap(rels: seq<Rel>, relateTo: Rel -> string): map<string, string> {
    if rels == [] then map[]
    else
      var m := RidMap(rels[..|rels| - 1], relateTo);
      var rel := rels[|rels| - 1];
      if Carried(rel) then m[rel.rId := relateTo(rel)] else m
  }

  /** The loop over `body_doc.part.rels.values()`. */
  method BuildRidMap(rels: seq<Rel>, relateTo: Rel -> string) returns (m: map<string, string>)
    ensures m == RidMap(rels, relateTo)
  {
    m := map[];
    for i := 0 to |rels|
      invariant m == RidMap(rels[..i], relateTo)
    {
      assert rels[..i + 1][..i] == rels[..i];
      if Carried(rels[i]) {
        m := m[rels[i].rId := relateTo(rels[i])];
      }
    }
    assert rels[..|rels|] == rels;
  }

  /** The relationships of a part have distinct ids. */
  predicate DistinctIds(rels: seq<Rel>) {
    forall i, j | 0 <= i < j < |rels| :: rels[i].rId != rels[j].rId
  }

  /**
    * A relationship id is a key of `rid_map` exactly when its relationship is
    * carried over, and it then maps to what `relate_to` gave; no other key exists.
    */
  lemma {:induction false} RidMapKeys(rels: seq<Rel>, relateTo: Rel -> string)
    requires DistinctIds(rels)
    ensures var m := RidMap(rels, relateTo);
            forall i | 0 <= i < |rels| :: (rels[i].rId in m <==> Carried(rels[i]))
              && (Carried(rels[i]) ==> m[rels[i].rId] == relateTo(rels[i]))
    ensures forall k | k in RidMap(rels, relateTo) :: exists i | 0 <= i < |rels| :: rels[i].rId == k
  {
    if rels != [] {
      var init := rels[..|rels| - 1];
      var last := rels[|rels| - 1];
      var m0 := RidMap(init, relateTo);
      var m := RidMap(rels, relateTo);
      assert m == if Carried(last) then m0[last.rId := relateTo(last)] else m0;
      assert forall i | 0 <= i < |init| :: (init[i].rId in m0 <==> Carried(init[i]))
                                          && (Carried(init[i]) ==> m0[init[i].rId] == relateTo(init[i])) by {
        RidMapKeys(init, relateTo);
      }
      assert forall k | k in m0 :: exists i | 0 <= i < |init| :: init[i].rId == k by {
        RidMapKeys(init, relateTo);
      }
      forall j | 0 <= j < |init| ensures init[j].rId != last.rId {
        assert init[j] == rels[j];
      }
      forall i | 0 <= i < |rels|
        ensures (rels[i].rId in m <==> Carried(rels[i])) && (Carried(rels[i]) ==> m[rels[i].rId] == relateTo(rels[i]))
      {
        if i < |init| {
          assert rels[i] == init[i] && rels[i].rId != last.rId;
        }
      }
      forall k | k in m ensures exists i | 0 <= i < |rels| :: rels[i].rId == k {
        if k !in RidMap(init, relateTo) {
          assert rels[|rels| - 1].rId == k;
        } else {
          var i :| 0 <= i < |init| && init[i].rId == k;
          assert rels[i].rId == k;
        }
      }
    }
  }

  /** The attributes `copy_body` rewrites: `r:embed`, `r:link` and `r:id`. */
  const REL_ATTRS: set<QName> := {QName(R, "embed"), QName(R, "link"), QName(R, "id")}

  /** `if old and old in rid_map: ae.set(an, rid_map[old])` for one attribute. */
  function RemapValue(a: QName, v: string, rid: map<string, string>): (r: string)
    ensures a in REL_ATTRS && v != "" && v in rid ==> r == rid[v]
    ensures !(a in REL_ATTRS && v != "" && v in rid) ==> r == v
  {
    if a in REL_ATTRS && v != "" && v in rid then rid[v] else v
  }

  /** The deep copy of one body child with its relationship attributes rewritten, at every depth. */
  function Remap(e: Element, rid: map<string, string>): (r: Element)
    ensures r.tag == e.tag && r.text == e.text && |r.kids| == |e.kids|
    ensures r.attrs.Keys == e.attrs.Keys && forall a | a in e.attrs :: r.attrs[a] == RemapValue(a, e.attrs[a], rid)
    ensures forall i | 0 <= i < |e.kids| :: r.kids[i] == Remap(e.kids[i], rid)
    decreases e
  {
    Element(e.tag, map a | a in e.attrs :: RemapValue(a, e.attrs[a], rid),
            seq(|e.kids|, i requires 0 <= i < |e.kids| => Remap(e.kids[i], rid)), e.text)
  }

  /** Two trees with the same tags, texts and attribute names everywhere, differing at most in relationship attributes. */
  predicate SameShape(a: Element, b: Element)
    decreases a
  {
    a.tag == b.tag && a.text == b.text && a.attrs.Keys == b.attrs.Keys
    && (forall k | k in a.attrs && k !in REL_ATTRS :: a.attrs[k] == b.attrs[k])
    && |a.kids| == |b.kids| && forall i | 0 <= i < |a.kids| :: SameShape(a.kids[i], b.kids[i])
  }

  /** A copy differs from its original only in relationship attributes, at any depth. */
  lemma {:induction false} RemapShape(e: Element, rid: map<string, string>)
    ensures SameShape(Remap(e, rid), e)
    decreases e
  {
    forall i | 0 <= i < |e.kids| ensures SameShape(Remap(e, rid).kids[i], e.kids[i]) {
      RemapShape(e.kids[i], rid);
    }
  }

  /** With nothing to renumber, a copy equals its original. */
  lemma {:induction false} RemapEmpty(e: Element)
    ensures Remap(e, map[]) == e
    decreases e
  {
    var r := Remap(e, map[]);
    forall i | 0 <= i < |e.kids| ensures r.kids[i] == e.kids[i] {
      RemapEmpty(e.kids[i]);
    }
    assert r.attrs == e.attrs;
    assert r.kids == e.kids;
  }

  // ---------------------------------------------------------------------------
  // `copy_body`: the splice
  // ---------------------------------------------------------------------------

  /** The copies made from `xs`: every child but a `sectPr`, in order, remapped. */
  function Copies(xs: seq<Element>, rid: map<string, string>): (r: seq<Element>)
    ensures forall k | 0 <= k < |r| :: !IsSectLocal(r[k])
  {
    if xs == [] then []
    else Copies(xs[..|xs| - 1], rid) + (if IsSectLocal(xs[|xs| - 1]) then [] else [Remap(xs[|xs| - 1], rid)])
  }

  /** The number of children with local name `sectPr`. */
  function SectLocalCount(xs: seq<Element>): nat {
    if xs == [] then 0 else SectLocalCount(xs[..|xs| - 1]) + (if IsSectLocal(xs[|xs| - 1]) then 1 else 0)
  }

  /** One copy per child that is not a `sectPr`, in the children's order. */
  lemma {:induction false} CopiesCount(xs: seq<Element>, rid: map<string, string>)
    ensures |Copies(xs, rid)| == |xs| - SectLocalCount(xs)
    ensures SectLocalCount(xs) == 0 ==> |Copies(xs, rid)| == |xs| && forall k | 0 <= k < |xs| :: Copies(xs, rid)[k] == Remap(xs[k], rid)
  {
    if xs != [] {
      var init := xs[..|xs| - 1];
      CopiesCount(init, rid);
      assert SectLocalCount(init) <= |init|;
    }
  }

  /** The destination's `sectPr` that was last stays last: the copies go in front of it and hold none. */
  lemma SectStaysLast(body: seq<Element>, copies: seq<Element>)
    requires LastWhere(body, IsSectLocal) < |body|
    requires forall k | 0 <= k < |copies| :: !IsSectLocal(copies[k])
    ensures var L := LastWhere(body, IsSectLocal);
            LastWhere(body[..L] + copies + body[L..], IsSectLocal) == L + |copies|
  {
    var L := LastWhere(body, IsSectLocal);
    var nb := body[..L] + copies + body[L..];
    assert nb[L + |copies|] == body[L];
    forall j | L + |copies| < j < |nb| ensures !IsSectLocal(nb[j]) {
      assert nb[j] == body[j - |copies|];
    }
  }

  /**
    * The copy loop of `copy_body`: each child but a `sectPr` is remapped and
    * inserted in front of the destination child at `at` (appended when `at` is
    * the end), so the copies keep their order.
    */
  method Splice(dest: seq<Element>, at: nat, xs: seq<Element>, rid: map<string, string>) returns (r: seq<Element>, cnt: nat)
    requires at <= |dest|
    ensures r == dest[..at] + Copies(xs, rid) + dest[at..] && cnt == |Copies(xs, rid)|
  {
    var hasSect := at < |dest|;
    var pos := at;
    r, cnt := dest, 0;
    for idx := 0 to |xs|
      invariant pos == at + cnt && cnt == |Copies(xs[..idx], rid)|
      invariant r == dest[..at] + Copies(xs[..idx], rid) + dest[at..]
    {
      ghost var c := Copies(xs[..idx], rid);
      assert Copies(xs[..idx + 1], rid) == c + (if IsSectLocal(xs[idx]) then [] else [Remap(xs[idx], rid)]) by {
        assert xs[..idx + 1][..idx] == xs[..idx];
      }
      if IsSectLocal(xs[idx]) {
        assert c + [] == c;
        continue;
      }
      var ne := Remap(xs[idx], rid);
      if hasSect {
        r := r[..pos] + [ne] + r[pos..];
        InsertMid(dest[..at], c, dest[at..], ne);
      } else {
        r := r + [ne];
        InsertMid(dest[..at], c, [], ne);
      }
      pos := pos + 1;
      cnt := cnt + 1;
    }
    assert xs[..|xs|] == xs;
  }

  /** Putting `x` between `c` and `d` in `a + c + d`. */
  lemma InsertMid<T>(a: seq<T>, c: seq<T>, d: seq<T>, x: T)
    ensures var s := a + c + d;
            s[..|a| + |c|] + [x] + s[|a| + |c|..] == a + (c + [x]) + d
    ensures a + c + [] + [x] == a + (c + [x]) + []
  {
    var s := a + c + d;
    assert s[..|a| + |c|] == a + c && s[|a| + |c|..] == d;
  }

  // ---------------------------------------------------------------------------
  // `setup_sections`: the section break, the body section, the footers
  // ---------------------------------------------------------------------------

  const P: QName := Wq("p")
  const PPR: QName := Wq("pPr")
  const PSTYLE: QName := Wq("pStyle")
  const SECTPR: QName := Wq("sectPr")
  const TEXT: QName := Wq("t")
  const PGSZ: QName := Wq("pgSz")
  const PGMAR: QName := Wq("pgMar")
  const PGNUMTYPE: QName := Wq("pgNumType")

  function Join(ss: seq<string>): string {
    if ss == [] then "" else ss[0] + Join(ss[1..])
  }

  /** `''.join(e.text or '' for e in ch.iter(w:t))`: the text of every `w:t` at or under `e`, in document order. */
  function TText(e: Element): string
    decreases e
  {
    (if e.tag == TEXT then e.text else "") + Join(seq(|e.kids|, i requires 0 <= i < |e.kids| => TText(e.kids[i])))
  }

  /** A paragraph whose first pPr's first pStyle names the style `Heading1`. */
  predicate HeadingOne(e: Element) {
    var pPr := Find(e.kids, PPR);
    pPr.Some? && var ps := Find(pPr.value.kids, PSTYLE);
    ps.Some? && VAL in ps.value.attrs && ps.value.attrs[VAL] == "Heading1"
  }

  /** The introduction heading as `setup_sections` recognises it in the XML. */
  predicate IsIntroElement(e: Element) {
    IsP(e) && HeadingOne(e) && Contains(TText(e), INTRO)
  }

  /** A sectPr that starts a new page, A4 with the thesis margins, right-to-left. */
  const SECTION_BREAK: Element :=
    Element(SECTPR, map[], [Element(Wq("type"), map[VAL := "nextPage"], [], ""), PAGE_SIZE, PAGE_MARGINS, Leaf(BIDI)], "")

  /** A4 in twips: `int(21 * 567)` by `int(29.7 * 567)`. */
  const PAGE_SIZE: Element := Element(PGSZ, map[Wq("w") := "11907", Wq("h") := "16839"], [], "")

  /** Margins in twips: `int(2.5 * 567)` top and bottom, `int(2 * 567)` left, `int(3 * 567)` right, 720 for header and footer. */
  const PAGE_MARGINS: Element :=
    Element(PGMAR, map[Wq("top") := "1417", Wq("bottom") := "1417", Wq("left") := "1134", Wq("right") := "1701",
                       Wq("header") := "720", Wq("footer") := "720"], [], "")

  const PAGE_NUMBERING: Element := Element(PGNUMTYPE, map[Wq("start") := "1"], [], "")

  /** The children the body section ends with, in order. */
  const SECTION_TAIL: seq<Element> := [PAGE_SIZE, PAGE_MARGINS, PAGE_NUMBERING, Leaf(BIDI)]

  /** The section break appended to the first pPr of `p`, or to a new pPr put first when it has none. */
  function AddBreak(p: Element): (r: Element)
    ensures r.tag == p.tag && r.attrs == p.attrs && r.text == p.text && IndexOf(r.kids, PPR).Some?
    ensures IndexOf(p.kids, PPR).None? ==>
              IndexOf(r.kids, PPR) == Some(0) && r.kids == [Element(PPR, map[], [SECTION_BREAK], "")] + p.kids
    ensures IndexOf(p.kids, PPR).Some? ==>
              var k := IndexOf(p.kids, PPR).value;
              IndexOf(r.kids, PPR) == Some(k) && |r.kids| == |p.kids|
              && r.kids[k] == p.kids[k].(kids := p.kids[k].kids + [SECTION_BREAK])
              && forall j | 0 <= j < |p.kids| && j != k :: r.kids[j] == p.kids[j]
  {
    match IndexOf(p.kids, PPR)
    case Some(k) =>
      var pPr := p.kids[k];
      IndexUpdate(p.kids, k, pPr.(kids := pPr.kids + [SECTION_BREAK]));
      p.(kids := p.kids[k := pPr.(kids := pPr.kids + [SECTION_BREAK])])
    case None =>
      p.(kids := [Element(PPR, map[], [SECTION_BREAK], "")] + p.kids)
  }

  /** `for o in ls.findall(t): ls.remove(o)` and then `ls.append(e)`. */
  function Replace(kids: seq<Element>, e: Element): seq<Element> {
    Without(kids, {e.tag}) + [e]
  }

  /** Children none of whose tags is in `ts` are all kept. */
  lemma {:induction false} WithoutFree(kids: seq<Element>, ts: set<QName>)
    requires forall j | 0 <= j < |kids| :: kids[j].tag !in ts
    ensures Without(kids, ts) == kids
  {
    if kids != [] {
      WithoutFree(kids[1..], ts);
    }
  }

  /** Removing one set of tags and then another removes both. */
  lemma {:induction false} WithoutUnion(kids: seq<Element>, a: set<QName>, b: set<QName>)
    ensures Without(Without(kids, a), b) == Without(kids, a + b)
  {
    if kids != [] {
      WithoutConcat(if kids[0].tag in a then [] else [kids[0]], Without(kids[1..], a), b);
      WithoutUnion(kids[1..], a, b);
    }
  }

  /** A replacement leaves in place a tail that holds none of the replaced tag. */
  lemma ReplaceAfter(pre: seq<Element>, tail: seq<Element>, e: Element)
    requires forall j | 0 <= j < |tail| :: tail[j].tag != e.tag
    ensures Replace(pre + tail, e) == Without(pre, {e.tag}) + tail + [e]
  {
    WithoutConcat(pre, tail, {e.tag});
    WithoutFree(tail, {e.tag});
  }

  /** Two replacements in a row, past a tail holding neither tag. */
  lemma ReplaceTwo(pre: seq<Element>, tail: seq<Element>, e0: Element, e1: Element)
    requires e0.tag != e1.tag
    requires forall j | 0 <= j < |tail| :: tail[j].tag != e0.tag && tail[j].tag != e1.tag
    ensures Replace(Replace(pre + tail, e0), e1) == Without(Without(pre, {e0.tag}), {e1.tag}) + tail + [e0, e1]
  {
    var w0 := Without(pre, {e0.tag});
    var t0 := tail + [e0];
    forall j | 0 <= j < |t0| ensures t0[j].tag != e1.tag {
      if j < |tail| {
        assert t0[j] == tail[j];
      }
    }
    assert Replace(pre + tail, e0) == w0 + t0 by {
      ReplaceAfter(pre, tail, e0);
    }
    ReplaceAfter(w0, t0, e1);
  }


  /** Four replacements with distinct tags drop those tags and leave the four last, in order. */
  lemma ReplaceFour(kids: seq<Element>, e0: Element, e1: Element, e2: Element, e3: Element)
    requires e0.tag != e1.tag && e0.tag != e2.tag && e0.tag != e3.tag
    requires e1.tag != e2.tag && e1.tag != e3.tag && e2.tag != e3.tag
    ensures Replace(Replace(Replace(Replace(kids, e0), e1), e2), e3)
         == Without(kids, {e0.tag, e1.tag, e2.tag, e3.tag}) + [e0, e1, e2, e3]
  {
    var w := Without(Without(kids, {e0.tag}), {e1.tag});
    var k2 := Replace(Replace(kids, e0), e1);
    var v := Without(Without(w, {e2.tag}), {e3.tag});
    assert k2 == w + [e0, e1] by {
      assert kids + [] == kids;
      ReplaceTwo(kids, [], e0, e1);
    }
    assert Replace(Replace(k2, e2), e3) == v + [e0, e1] + [e2, e3] by {
      ReplaceTwo(w, [e0, e1], e2, e3);
    }
    assert v + [e0, e1] + [e2, e3] == v + [e0, e1, e2, e3];
    assert v == Without(kids, {e0.tag, e1.tag, e2.tag, e3.tag}) by {
      WithoutFour(kids, e0.tag, e1.tag, e2.tag, e3.tag);
    }
  }

  /** Removing four tags one at a time removes the four together. */
  lemma WithoutFour(kids: seq<Element>, t0: QName, t1: QName, t2: QName, t3: QName)
    ensures Without(Without(Without(Without(kids, {t0}), {t1}), {t2}), {t3}) == Without(kids, {t0, t1, t2, t3})
  {
    WithoutUnion(kids, {t0}, {t1});
    WithoutUnion(kids, {t0, t1}, {t2});
    WithoutUnion(kids, {t0, t1, t2}, {t3});
    assert {t0} + {t1} == {t0, t1} && {t0, t1} + {t2} == {t0, t1, t2} && {t0, t1, t2} + {t3} == {t0, t1, t2, t3};
  }

  /** The children of four given tags, counted in a list of four. */
  lemma OnlyFour(e0: Element, e1: Element, e2: Element, e3: Element, u: QName)
    ensures Only([e0, e1, e2, e3], u) == Only([e0], u) + Only([e1], u) + Only([e2], u) + Only([e3], u)
  {
    var q2 := [e2] + [e3];
    var q1 := [e1] + q2;
    assert [e0, e1, e2, e3] == [e0] + q1;
    OnlyConcat([e2], [e3], u);
    OnlyConcat([e1], q2, u);
    OnlyConcat([e0], q1, u);
  }

  /** Four children whose tags are all dropped leave nothing. */
  lemma WithoutAllFour(e0: Element, e1: Element, e2: Element, e3: Element, ts: set<QName>)
    requires e0.tag in ts && e1.tag in ts && e2.tag in ts && e3.tag in ts
    ensures Without([e0, e1, e2, e3], ts) == []
  {
    var q := [e0, e1, e2, e3];
    assert Without(q, ts) == Without(q[1..], ts);
    assert q[1..] == [e1, e2, e3];
    assert Without(q[1..], ts) == Without(q[1..][1..], ts);
    assert q[1..][1..] == [e2, e3];
    assert Without(q[1..][1..], ts) == Without(q[1..][1..][1..], ts);
    assert q[1..][1..][1..] == [e3];
    assert Without([e3], ts) == Without([e3][1..], ts);
    assert [e3][1..] == [];
  }

  /** The body section's page size, margins, numbering from 1 and direction, each replacing any there was, in that order. */
  function ResetSect(s: Element): Element {
    s.(kids := Replace(Replace(Replace(Replace(s.kids, PAGE_SIZE), PAGE_MARGINS), PAGE_NUMBERING), Leaf(BIDI)))
  }

  /** After four replacements with distinct tags, each tag occurs once, the four close the list in order, and the rest is kept. */
  lemma FourShape(kids: seq<Element>, e0: Element, e1: Element, e2: Element, e3: Element)
    requires e0.tag != e1.tag && e0.tag != e2.tag && e0.tag != e3.tag
    requires e1.tag != e2.tag && e1.tag != e3.tag && e2.tag != e3.tag
    ensures var k := Replace(Replace(Replace(Replace(kids, e0), e1), e2), e3);
            var ts := {e0.tag, e1.tag, e2.tag, e3.tag};
            |k| >= 4 && k[|k| - 4..] == [e0, e1, e2, e3]
            && (forall u | u in ts :: Count(k, u) == 1)
            && Without(k, ts) == Without(kids, ts)
  {
    var ts := {e0.tag, e1.tag, e2.tag, e3.tag};
    var q := [e0, e1, e2, e3];
    var w := Without(kids, ts);
    var k := Replace(Replace(Replace(Replace(kids, e0), e1), e2), e3);
    assert k == w + q by {
      ReplaceFour(kids, e0, e1, e2, e3);
    }
    assert |k| >= 4 && k[|k| - 4..] == q;
    forall u | u in ts ensures Count(k, u) == 1 {
      assert Only(w, u) == [] by {
        OnlyOfWithout(kids, ts, u);
      }
      FourCount(w, e0, e1, e2, e3, u);
    }
    assert Without(k, ts) == Without(kids, ts) by {
      WithoutConcat(w, q, ts);
      WithoutIdem(kids, ts);
      WithoutAllFour(e0, e1, e2, e3, ts);
    }
  }

  /** Appending four children with distinct tags to a list holding none of tag `u` leaves one child tagged `u`. */
  lemma FourCount(w: seq<Element>, e0: Element, e1: Element, e2: Element, e3: Element, u: QName)
    requires e0.tag != e1.tag && e0.tag != e2.tag && e0.tag != e3.tag
    requires e1.tag != e2.tag && e1.tag != e3.tag && e2.tag != e3.tag
    requires u in {e0.tag, e1.tag, e2.tag, e3.tag} && Only(w, u) == []
    ensures Count(w + [e0, e1, e2, e3], u) == 1
  {
    OnlyConcat(w, [e0, e1, e2, e3], u);
    OnlyFour(e0, e1, e2, e3, u);
    OnlyOne(e0, u); OnlyOne(e1, u); OnlyOne(e2, u); OnlyOne(e3, u);
  }

  /** The body section ends with exactly one each of pgSz, pgMar, pgNumType (from 1) and bidi, in that order, and keeps its other children. */
  lemma ResetSectShape(s: Element)
    ensures var k := ResetSect(s).kids;
            |k| >= 4 && k[|k| - 4..] == SECTION_TAIL
            && Count(k, PGSZ) == 1 && Count(k, PGMAR) == 1 && Count(k, PGNUMTYPE) == 1 && Count(k, BIDI) == 1
            && Without(k, {PGSZ, PGMAR, PGNUMTYPE, BIDI}) == Without(s.kids, {PGSZ, PGMAR, PGNUMTYPE, BIDI})
  {
    var e0, e1, e2, e3 := PAGE_SIZE, PAGE_MARGINS, PAGE_NUMBERING, Leaf(BIDI);
    assert e0.tag == PGSZ && e1.tag == PGMAR && e2.tag == PGNUMTYPE && e3.tag == BIDI;
    FourShape(s.kids, e0, e1, e2, e3);
  }

  // ---------------------------------------------------------------------------
  // The sections python-docx lists
  // ---------------------------------------------------------------------------

  /** The `sectPr` children of the `pPr` children among `kids`, in document order. */
  function PSectList(kids: seq<Element>): seq<Element> {
    if kids == [] then []
    else
      var last := kids[|kids| - 1];
      PSectList(kids[..|kids| - 1]) + (if last.tag == PPR then Only(last.kids, SECTPR) else [])
  }

  /** The sections one body child holds: those in a paragraph's properties, or itself when it is the body's own `sectPr`. */
  function SectsIn(e: Element): seq<Element> {
    if e.tag == P then PSectList(e.kids) else if e.tag == SECTPR then [e] else []
  }

  /** `doc.sections`: every `w:p/w:pPr/w:sectPr` and `w:sectPr` under the body, in document order. */
  function Sections(body: seq<Element>): seq<Element> {
    if body == [] then [] else Sections(body[..|body| - 1]) + SectsIn(body[|body| - 1])
  }

  lemma {:induction false} PSectListConcat(a: seq<Element>, b: seq<Element>)
    ensures PSectList(a + b) == PSectList(a) + PSectList(b)
    decreases |b|
  {
    if b == [] {
      assert a + b == a;
    } else {
      assert (a + b)[..|a + b| - 1] == a + b[..|b| - 1];
      PSectListConcat(a, b[..|b| - 1]);
    }
  }

  lemma {:induction false} SectionsConcat(a: seq<Element>, b: seq<Element>)
    ensures Sections(a + b) == Sections(a) + Sections(b)
    decreases |b|
  {
    if b == [] {
      assert a + b == a;
    } else {
      var front, x := b[..|b| - 1], b[|b| - 1];
      assert b == front + [x] && a + b == (a + front) + [x];
      SectionsConcat(a, front);
      SnocStep(a, front, x);
    }
  }

  /** One step of `SectionsConcat`: a child put at the end of both sides. */
  lemma SnocStep(a: seq<Element>, front: seq<Element>, x: Element)
    requires Sections(a + front) == Sections(a) + Sections(front)
    ensures Sections((a + front) + [x]) == Sections(a) + Sections(front + [x])
  {
    SectionsSnoc(a + front, x);
    SectionsSnoc(front, x);
  }

  lemma SectionsSnoc(c: seq<Element>, x: Element)
    ensures Sections(c + [x]) == Sections(c) + SectsIn(x)
  {
    assert (c + [x])[..|c|] == c;
  }

  lemma {:induction false} PSectListNone(kids: seq<Element>)
    requires forall j | 0 <= j < |kids| :: kids[j].tag != PPR
    ensures PSectList(kids) == []
  {
    if kids != [] {
      PSectListNone(kids[..|kids| - 1]);
    }
  }

  /** The sections of the body with child `j` swapped for `x`: those before it, those of `x`, those after it. */
  lemma SectionsAt(body: seq<Element>, j: nat, x: Element)
    requires j < |body|
    ensures Sections(body[j := x]) == Sections(body[..j]) + SectsIn(x) + Sections(body[j + 1..])
  {
    assert body[j := x] == body[..j] + [x] + body[j + 1..];
    SectionsConcat(body[..j] + [x], body[j + 1..]);
    SectionsConcat(body[..j], [x]);
    assert [x][..0] == [];
  }

  /** Cutting `a + b + c` inside `b`. */
  lemma Cut<T>(a: seq<T>, b: seq<T>, c: seq<T>, n: nat)
    requires n <= |b|
    ensures (a + b + c)[..|a| + n] == a + b[..n] && (a + b + c)[|a| + n..] == b[n..] + c
  {
  }

  lemma Regroup<T>(a: seq<T>, b: seq<T>, x: T, c: seq<T>, d: seq<T>)
    ensures a + (b + [x] + c) + d == (a + b) + [x] + (c + d)
  {
  }

  lemma SameAt<T>(xs: seq<T>, k: nat)
    requires k < |xs|
    ensures xs[k := xs[k]] == xs
  {
  }

  /** `xs` with `x` put at position `pos`. */
  function Insert<T>(xs: seq<T>, pos: nat, x: T): (r: seq<T>)
    requires pos <= |xs|
    ensures |r| == |xs| + 1
  {
    xs[..pos] + [x] + xs[pos..]
  }

  /** How many sections the paragraph's first pPr already holds: the break goes after them. */
  function BreakAt(p: Element): nat {
    match IndexOf(p.kids, PPR)
    case Some(k) => Count(p.kids[k].kids, SECTPR)
    case None => 0
  }

  /** The sections of one properties element, with the break appended to it. */
  lemma PPrSects(pPr: Element)
    requires pPr.tag == PPR
    ensures PSectList([pPr]) == Only(pPr.kids, SECTPR)
    ensures Only(pPr.kids + [SECTION_BREAK], SECTPR) == Only(pPr.kids, SECTPR) + [SECTION_BREAK]
  {
    assert [pPr][..0] == [];
    OnlyConcat(pPr.kids, [SECTION_BREAK], SECTPR);
    OnlyOne(SECTION_BREAK, SECTPR);
  }

  /** A `w:p` given the break gains exactly that one section, right after those of its first pPr. */
  lemma BreakSects(p: Element)
    requires p.tag == P
    ensures BreakAt(p) <= |SectsIn(p)| && SectsIn(AddBreak(p)) == Insert(SectsIn(p), BreakAt(p), SECTION_BREAK)
  {
    match IndexOf(p.kids, PPR)
    case Some(k) =>
      var kids := p.kids;
      var pPr := kids[k];
      var pPr' := pPr.(kids := pPr.kids + [SECTION_BREAK]);
      var rest := PSectList(kids[k + 1..]);
      var own := Only(pPr.kids, SECTPR);
      BreakSectsAt(kids, k, pPr');
      assert PSectList([pPr']) == own + [SECTION_BREAK] && PSectList([pPr]) == own by {
        PPrSects(pPr);
        PPrSects(pPr');
      }
      assert SectsIn(p) == own + rest by {
        SameAt(kids, k);
        BreakSectsAt(kids, k, pPr);
      }
      Cut([], own, rest, |own|);
    case None =>
      var np := Element(PPR, map[], [SECTION_BREAK], "");
      PSectListConcat([np], p.kids);
      PPrSects(np);
      assert [] + [SECTION_BREAK] == [SECTION_BREAK];
      OnlyOne(SECTION_BREAK, SECTPR);
  }

  /** With no pPr before position `k`, the pPr-sections of `kids` with `x` at `k` are those of `x`, then those after `k`. */
  lemma BreakSectsAt(kids: seq<Element>, k: nat, x: Element)
    requires k < |kids| && forall j | 0 <= j < k :: kids[j].tag != PPR
    ensures PSectList(kids[k := x]) == PSectList([x]) + PSectList(kids[k + 1..])
  {
    assert PSectList(kids[..k]) == [] by {
      PSectListNone(kids[..k]);
    }
    assert kids[k := x] == kids[..k] + [x] + kids[k + 1..];
    PSectListConcat(kids[..k] + [x], kids[k + 1..]);
    PSectListConcat(kids[..k], [x]);
  }

  /**
    * Giving the `w:p` at `j` the break adds one section to `doc.sections`, at
    * the position that paragraph's first pPr ends at, and moves none of the
    * others.
    */
  lemma BreakSections(body: seq<Element>, j: nat)
    requires j < |body| && body[j].tag == P
    ensures var pos := |Sections(body[..j])| + BreakAt(body[j]);
            pos <= |Sections(body)| && Sections(body[j := AddBreak(body[j])]) == Insert(Sections(body), pos, SECTION_BREAK)
    ensures |Sections(body[j := AddBreak(body[j])])| == |Sections(body)| + 1
  {
    var before, after := Sections(body[..j]), Sections(body[j + 1..]);
    var own := SectsIn(body[j]);
    var c := BreakAt(body[j]);
    assert Sections(body) == before + own + after by {
      SectionsAt(body, j, body[j]);
      assert body[j := body[j]] == body;
    }
    assert c <= |own| && SectsIn(AddBreak(body[j])) == own[..c] + [SECTION_BREAK] + own[c..] by {
      BreakSects(body[j]);
    }
    assert Sections(body[j := AddBreak(body[j])]) == before + (own[..c] + [SECTION_BREAK] + own[c..]) + after by {
      SectionsAt(body, j, AddBreak(body[j]));
    }
    var all := Sections(body);
    var pos := |before| + c;
    assert all[..pos] == before + own[..c] && all[pos..] == own[c..] + after by {
      Cut(before, own, after, c);
    }
    assert Sections(body[j := AddBreak(body[j])]) == all[..pos] + [SECTION_BREAK] + all[pos..] by {
      Regroup(before, own[..c], SECTION_BREAK, own[c..], after);
    }
  }

  /** A break given to an element that is not a `w:p` in the main namespace makes no section. */
  lemma BreakElsewhere(body: seq<Element>, j: nat)
    requires j < |body| && IsP(body[j]) && body[j].tag != P
    ensures Sections(body[j := AddBreak(body[j])]) == Sections(body)
  {
    SectionsAt(body, j, AddBreak(body[j]));
    SectionsAt(body, j, body[j]);
    assert body[j := body[j]] == body;
  }

  /** Swapping one `sectPr` child of the body for another swaps that one section. */
  lemma SwapSection(body: seq<Element>, l: nat, x: Element)
    requires l < |body| && body[l].tag == SECTPR && x.tag == SECTPR
    ensures var pos := |Sections(body[..l])|;
            pos < |Sections(body)| && Sections(body[l := x]) == Sections(body)[pos := x]
  {
    var before, after := Sections(body[..l]), Sections(body[l + 1..]);
    assert Sections(body) == before + [body[l]] + after by {
      SectionsAt(body, l, body[l]);
      SameAt(body, l);
    }
    assert Sections(body[l := x]) == before + [x] + after by {
      SectionsAt(body, l, x);
    }
    Swap(before, body[l], after, x);
  }

  lemma Swap<T>(a: seq<T>, m: T, b: seq<T>, y: T)
    ensures (a + [m] + b)[|a| := y] == a + [y] + b
  {
  }

  /** Resetting the body's own `sectPr` changes that one section in place. */
  lemma ResetSections(body: seq<Element>, l: nat)
    requires l < |body| && body[l].tag == SECTPR
    ensures var pos := |Sections(body[..l])|;
            pos < |Sections(body)| && Sections(body[l := ResetSect(body[l])]) == Sections(body)[pos := ResetSect(body[l])]
  {
    SwapSection(body, l, ResetSect(body[l]));
  }

  // ---------------------------------------------------------------------------
  // Headers and footers of `setup_sections`
  // ---------------------------------------------------------------------------

  /** Unlinking, then `p.clear()` for every paragraph of the story. */
  function ClearStory(s: Story, style: string): (r: Story)
    ensures !r.linked && |r.paras| == (if s.linked then 1 else |s.paras|)
    ensures forall k | 0 <= k < |r.paras| :: r.paras[k].runs == []
    ensures s.linked ==> r.paras[0].style == style && r.paras[0].pPr == []
    ensures !s.linked ==> forall k | 0 <= k < |s.paras| :: r.paras[k] == Clear(s.paras[k])
  {
    var u := Unlink(s, style);
    u.(paras := seq(|u.paras|, k requires 0 <= k < |u.paras| => Clear(u.paras[k])))
  }

  /** A front-matter section's header and footer, both unlinked and emptied. */
  function ClearHF(hf: HeaderFooter): HeaderFooter {
    HeaderFooter(ClearStory(hf.header, "Header"), ClearStory(hf.footer, "Footer"))
  }

  /** `font.size = Pt(11)` on each field run. */
  const FIELD_FONT: Font := Font(Some(11), None, None, None)

  /** `font.name = LF` on a run without properties: a new rFonts whose `ascii` and `hAnsi` are the Latin face. */
  const FIELD_PROPS: seq<Element> := [Element(RFONTS, map[ASCII := LATIN_FONT, HANSI := LATIN_FONT], [], "")]

  /** The three runs `setup_sections` adds to the footer: start, instruction and end of a PAGE field. */
  const PAGE_RUNS: seq<Run> :=
    [Run(FIELD_PROPS, [PAGE_FIELD[0]], FIELD_FONT), Run(FIELD_PROPS, [PAGE_FIELD[1]], FIELD_FONT),
     Run(FIELD_PROPS, [PAGE_FIELD[2]], FIELD_FONT)]

  /**
    * The body section's footer: unlinked and emptied; its first paragraph
    * (added when there is none) centred, right-to-left and holding only the
    * PAGE field; any later paragraph left empty.
    */
  function PageFooter(s: Story): (r: Story)
    ensures !r.linked && |r.paras| == (if s.linked || |s.paras| == 0 then 1 else |s.paras|)
    ensures var f := r.paras[0];
            |f.runs| == 3 && PageFieldAt(f.runs, 0) && ParaText(f.runs) == ""
            && (forall k | 0 <= k < 3 :: f.runs[k].font == FIELD_FONT && FontName(f.runs[k].rPr) == Some(LATIN_FONT))
            && f.format.alignment == Some(Center) && Count(f.pPr, BIDI) >= 1
    ensures forall k | 1 <= k < |r.paras| :: r.paras[k].runs == []
  {
    var c := ClearStory(s, "Footer");
    var fp := Style.FirstPara(c);
    assert fp.runs == [];
    var q := Bidi(fp.(format := fp.format.(alignment := Some(Center))));
    assert q.runs + PAGE_RUNS == PAGE_RUNS;
    PageRunsShape();
    Style.WithFirst(c, q.(runs := q.runs + PAGE_RUNS))
  }

  /** The field runs hold the three field children, no text, and the footer's size and face. */
  lemma PageRunsShape()
    ensures |PAGE_RUNS| == 3 && PageFieldAt(PAGE_RUNS, 0) && ParaText(PAGE_RUNS) == ""
    ensures forall k | 0 <= k < 3 :: PAGE_RUNS[k].font == FIELD_FONT && FontName(PAGE_RUNS[k].rPr) == Some(LATIN_FONT)
  {
    assert FontName(FIELD_PROPS) == Some(LATIN_FONT) by {
      assert FIELD_PROPS[1..] == [];
    }
    assert forall k | 0 <= k < 3 :: PAGE_FIELD[k].tag in {FLD_CHAR, INSTR_TEXT};
    NoText(PAGE_RUNS);
  }

  /** Runs whose only child carries no text give the paragraph no text. */
  lemma {:induction false} NoText(runs: seq<Run>)
    requires forall k | 0 <= k < |runs| :: |runs[k].kids| == 1 && runs[k].kids[0].tag in {FLD_CHAR, INSTR_TEXT}
    ensures ParaText(runs) == ""
  {
    if runs != [] {
      var e := runs[0].kids[0];
      assert ChildText(e) == "" by {
        assert Wq("t") != FLD_CHAR && Wq("t") != INSTR_TEXT && Wq("tab") != FLD_CHAR && Wq("tab") != INSTR_TEXT;
        assert Wq("br") != FLD_CHAR && Wq("br") != INSTR_TEXT && Wq("cr") != FLD_CHAR && Wq("cr") != INSTR_TEXT;
      }
      assert RunText(runs[0].kids) == "" by {
        assert runs[0].kids[1..] == [];
      }
      NoText(runs[1..]);
    }
  }

  /**
    * The stories after the footer step: the last section's footer becomes
    * the page-number footer, every earlier section loses its header and
    * footer text.
    */
  function Framed(ss: seq<HeaderFooter>): (r: seq<HeaderFooter>)
    ensures |r| == |ss|
  {
    seq(|ss|, k requires 0 <= k < |ss| => if k < |ss| - 1 then ClearHF(ss[k]) else Numbered(ss[k]))
  }

  /** The body section's header and footer: the footer shows the page number. */
  function Numbered(hf: HeaderFooter): HeaderFooter {
    hf.(footer := PageFooter(hf.footer))
  }

  /** Every section before the last has an unlinked, empty header and footer; the last keeps its header and numbers its pages. */
  lemma FramedShape(ss: seq<HeaderFooter>, k: nat)
    requires k < |ss|
    ensures var r := Framed(ss)[k];
            !r.footer.linked
            && (k < |ss| - 1 ==> !r.header.linked
                                 && (forall m | 0 <= m < |r.header.paras| :: ParaText(r.header.paras[m].runs) == "")
                                 && (forall m | 0 <= m < |r.footer.paras| :: ParaText(r.footer.paras[m].runs) == ""))
            && (k == |ss| - 1 ==> r.header == ss[k].header && PageFieldAt(r.footer.paras[0].runs, 0)
                                  && r.footer.paras[0].format.alignment == Some(Center))
  {
    var r := Framed(ss)[k];
    if k < |ss| - 1 {
      assert r == ClearHF(ss[k]);
      assert forall m | 0 <= m < |r.header.paras| :: r.header.paras[m].runs == [];
      assert forall m | 0 <= m < |r.footer.paras| :: r.footer.paras[m].runs == [];
    }
  }

  /** The outcome of `setup_sections`: no introduction found (a warning), no section to number, or done. */
  datatype Setup = NoIntro | NoSections | Done

  /** The body's own `sectPr`, matched by its full name (`fb.findall(qn('w:sectPr'))`). */
  predicate IsSectPr(e: Element) { e.tag == SECTPR }

  /** The first body child that is the introduction heading. */
  function IntroAt(body: seq<Element>): Option<nat> {
    FirstWhere(body, IsIntroElement, 0)
  }

  /** The paragraph before child `i` that gets the break: the last `p` before it, provided it has children (`if prev:`). */
  function BreakTarget(body: seq<Element>, i: nat): (r: Option<nat>)
    requires i <= |body|
    ensures r.Some? ==> r.value < i && IsP(body[r.value]) && |body[r.value].kids| > 0
                        && forall k | r.value < k < i :: !IsP(body[k])
    ensures r.None? ==> forall k | 0 <= k < i && IsP(body[k]) && (forall m | k < m < i :: !IsP(body[m])) :: |body[k].kids| == 0
  {
    var j := LastWhere(body[..i], IsP);
    if j < i && |body[j].kids| > 0 then Some(j) else None
  }

  /** The body after the break, before the body section is reset. */
  function Broken(body: seq<Element>, i: nat): seq<Element>
    requires i <= |body|
  {
    match BreakTarget(body, i)
    case Some(j) => body[j := AddBreak(body[j])]
    case None => body
  }

  /** The body's last own `sectPr`, if any, reset. */
  function ResetLast(b: seq<Element>): seq<Element> {
    var l := LastWhere(b, IsSectPr);
    if l < |b| then b[l := ResetSect(b[l])] else b
  }

  /** The body `setup_sections` leaves: the break, then the body's last own `sectPr` reset. */
  function Sectioned(body: seq<Element>, i: nat): seq<Element>
    requires i <= |body|
  {
    ResetLast(Broken(body, i))
  }

  /** The headers and footers per section after the break: a new, linked section where the break made one. */
  function Storied(body: seq<Element>, i: nat, ss: seq<HeaderFooter>): seq<HeaderFooter>
    requires i <= |body| && |ss| == |Sections(body)|
  {
    match BreakTarget(body, i)
    case Some(j) => BreakStories(body, j, ss)
    case None => ss
  }

  /** A break placed in paragraph `j` brings one linked header and footer, at the place of the section it ends. */
  function BreakStories(body: seq<Element>, j: nat, ss: seq<HeaderFooter>): seq<HeaderFooter>
    requires j < |body| && |ss| == |Sections(body)|
  {
    if body[j].tag == P then
      BreakSections(body, j);
      Insert(ss, |Sections(body[..j])| + BreakAt(body[j]), LINKED_HF)
    else ss
  }


  /** After `setup_sections` there is still one header and footer per section. */
  lemma SetupAligned(body: seq<Element>, i: nat, ss: seq<HeaderFooter>)
    requires i <= |body| && |ss| == |Sections(body)|
    ensures |Storied(body, i, ss)| == |Sections(Sectioned(body, i))|
  {
    assert |Storied(body, i, ss)| == |Sections(Broken(body, i))| by {
      BrokenAligned(body, i, ss);
    }
    var b := Broken(body, i);
    var l := LastWhere(b, IsSectPr);
    if l < |b| {
      ResetSections(b, l);
    }
    assert Sectioned(body, i) == ResetLast(b);
  }

  lemma BrokenAligned(body: seq<Element>, i: nat, ss: seq<HeaderFooter>)
    requires i <= |body| && |ss| == |Sections(body)|
    ensures |Storied(body, i, ss)| == |Sections(Broken(body, i))|
  {
    match BreakTarget(body, i)
    case Some(j) =>
      if body[j].tag == P {
        assert Broken(body, i) == body[j := AddBreak(body[j])];
        BreakSections(body, j);
      } else {
        assert Sections(Broken(body, i)) == Sections(body) by {
          BreakElsewhere(body, j);
        }
      }
    case None =>
  }

  /** `n` sections with no header or footer of their own. */
  function LinkedStories(n: nat): (r: seq<HeaderFooter>)
    ensures |r| == n && forall k | 0 <= k < n :: r[k] == LINKED_HF
  {
    seq(n, k => LINKED_HF)
  }

  /** Children put in front of position `l` bring their sections in front of the sections from `l` on. */
  lemma SpliceSections(body: seq<Element>, l: nat, copies: seq<Element>)
    requires l <= |body|
    ensures Sections(body) == Sections(body[..l]) + Sections(body[l..])
    ensures Sections(body[..l] + copies + body[l..]) == Sections(body[..l]) + Sections(copies) + Sections(body[l..])
  {
    assert body == body[..l] + body[l..];
    SectionsConcat(body[..l], body[l..]);
    SectionsConcat(body[..l] + copies, body[l..]);
    SectionsConcat(body[..l], copies);
  }

  /** The break of `setup_sections`, on the body and on the list of sections. */
  method PlaceBreak(body: seq<Element>, ss: seq<HeaderFooter>, i: nat) returns (b: seq<Element>, s2: seq<HeaderFooter>)
    requires i <= |body| && |ss| == |Sections(body)|
    ensures b == Broken(body, i) && s2 == Storied(body, i, ss)
  {
    var t := FindBreak(body, i);
    b, s2 := body, ss;
    if t.Some? {
      var j := t.value;
      if body[j].tag == P {
        var pos := |Sections(body[..j])| + BreakAt(body[j]);
        assert pos <= |ss| by {
          BreakSections(body, j);
        }
        s2 := Insert(ss, pos, LINKED_HF);
      }
      assert s2 == BreakStories(body, j, ss);
      b := body[j := AddBreak(body[j])];
    }
  }

  /** `prev`: the last paragraph before the heading, kept only when it has children. */
  method FindBreak(body: seq<Element>, i: nat) returns (t: Option<nat>)
    requires i <= |body|
    ensures t == BreakTarget(body, i)
  {
    var j := FindLast(body[..i], IsP);
    t := if j < i && |body[j].kids| > 0 then Some(j) else None;
  }

  /** `sects = fb.findall(w:sectPr)` and, when there is one, the reset of `sects[-1]`. */
  method ResetBodySection(b: seq<Element>) returns (r: seq<Element>)
    ensures r == ResetLast(b)
  {
    var l := FindLast(b, IsSectPr);
    r := b;
    if l < |b| {
      r := b[l := ResetSect(b[l])];
    }
  }

  /** The footer step and then the loop over `doc.sections[:-1]`. */
  method FrameStories(ss: seq<HeaderFooter>) returns (r: seq<HeaderFooter>)
    requires |ss| > 0
    ensures r == Framed(ss)
  {
    r := EachButLast(ss, ClearHF, Numbered);
    FramedBy(ss, r);
  }

  /** The last item is replaced by `g` of it first, then a loop applies `f` to each item before it. */
  method EachButLast<T>(xs: seq<T>, f: T -> T, g: T -> T) returns (r: seq<T>)
    requires |xs| > 0
    ensures |r| == |xs|
    ensures forall k | 0 <= k < |xs| :: r[k] == if k < |xs| - 1 then f(xs[k]) else g(xs[k])
  {
    var n := |xs|;
    r := EachBefore(xs[n - 1 := g(xs[n - 1])], n - 1, f);
  }

  /** A list that clears every section but the last and numbers the last is the framed list. */
  lemma FramedBy(ss: seq<HeaderFooter>, r: seq<HeaderFooter>)
    requires |r| == |ss| > 0
    requires forall k | 0 <= k < |ss| :: r[k] == if k < |ss| - 1 then ClearHF(ss[k]) else Numbered(ss[k])
    ensures r == Framed(ss)
  {
  }

  /** A loop that applies `f` in place to each of the first `n` items. */
  method EachBefore<T>(xs: seq<T>, n: nat, f: T -> T) returns (r: seq<T>)
    requires n <= |xs|
    ensures |r| == |xs|
    ensures forall k | 0 <= k < |xs| :: r[k] == if k < n then f(xs[k]) else xs[k]
  {
    r := xs;
    for k := 0 to n
      invariant |r| == |xs|
      invariant forall m | 0 <= m < |xs| :: r[m] == if m < k then f(xs[m]) else xs[m]
    {
      r := r[k := f(r[k])];
    }
  }

  /** `setup_sections` on the values of the document: the body children and one header and footer per section. */
  method SetupOn(body: seq<Element>, ss: seq<HeaderFooter>) returns (r: Setup, b: seq<Element>, s2: seq<HeaderFooter>)
    requires |ss| == |Sections(body)|
    ensures |s2| == |Sections(b)|
    ensures r == NoIntro <==> IntroAt(body).None?
    ensures r == NoIntro ==> b == body && s2 == ss
    ensures r != NoIntro ==>
              var i := IntroAt(body).value;
              var s1 := Storied(body, i, ss);
              b == Sectioned(body, i) && (r == NoSections <==> |s1| == 0) && s2 == Framed(s1)
  {
    var found := FindIntro(body);
    if found.None? {
      return NoIntro, body, ss;
    }
    var i := found.value;
    var b1, s1 := PlaceBreak(body, ss, i);
    b := ResetBodySection(b1);
    assert |s1| == |Sections(b)| by {
      SetupAligned(body, i, ss);
    }
    if |s1| == 0 {
      r, s2 := NoSections, s1;
    } else {
      r := Done;
      s2 := FrameStories(s1);
    }
  }

  /**
    * The searches of `copy_body`: where copying starts, the relationship map,
    * and where the copies go. `srcParas` are the source document's paragraphs,
    * which python-docx reads off the body's `p` children, one for each.
    */
  method CopyPlan(body: seq<Element>, src: seq<Element>, srcParas: seq<Paragraph>, rels: seq<Rel>, relateTo: Rel -> string)
    returns (el: Option<nat>, rid: map<string, string>, at: nat)
    requires |srcParas| == PCount(src)
    ensures el == NthP(src, StartIndex(srcParas)) && rid == RidMap(rels, relateTo) && at == LastWhere(body, IsSectLocal)
  {
    var start := FindStart(srcParas);
    el := ElementStart(src, start);
    rid := BuildRidMap(rels, relateTo);
    at := FindLast(body, IsSectLocal);
  }

  /**
    * `copy_body` on the values of the target: the copies of the source body
    * from its start paragraph go in before the final section properties,
    * with one linked header and footer per section they bring along.
    */
  /**
    * What `copy_body` leaves: when the source has the paragraph copying starts
    * from, its children from there on, with their relationship ids mapped, go
    * in front of the body's last own `sectPr`, and each section they bring gets
    * a linked header and footer at the matching place; otherwise nothing changes.
    */
  predicate CopiedAs(body: seq<Element>, ss: seq<HeaderFooter>, src: seq<Element>, srcParas: seq<Paragraph>,
                     rels: seq<Rel>, relateTo: Rel -> string, ok: bool, cnt: nat, b: seq<Element>, s2: seq<HeaderFooter>)
  {
    (ok <==> NthP(src, StartIndex(srcParas)).Some?)
    && (!ok ==> b == body && s2 == ss && cnt == 0)
    && (ok ==> var copies := Copies(src[NthP(src, StartIndex(srcParas)).value..], RidMap(rels, relateTo));
               var L := LastWhere(body, IsSectLocal);
               var pos := |Sections(body[..L])|;
               b == body[..L] + copies + body[L..] && cnt == |copies|
               && pos <= |ss|
               && s2 == ss[..pos] + LinkedStories(|Sections(copies)|) + ss[pos..])
  }

  method CopyInto(body: seq<Element>, ss: seq<HeaderFooter>, src: seq<Element>, srcParas: seq<Paragraph>,
                  rels: seq<Rel>, relateTo: Rel -> string)
    returns (ok: bool, cnt: nat, b: seq<Element>, s2: seq<HeaderFooter>)
    requires |srcParas| == PCount(src)
    requires |ss| == |Sections(body)|
    ensures |s2| == |Sections(b)|
    ensures CopiedAs(body, ss, src, srcParas, rels, relateTo, ok, cnt, b, s2)
  {
    var el, rid, L := CopyPlan(body, src, srcParas, rels, relateTo);
    if el.None? {
      return false, 0, body, ss;
    }
    ok := true;
    b, s2, cnt := InsertCopies(body, ss, L, src[el.value..], rid);
  }

  /** The search of `setup_sections` for the introduction heading. */
  method FindIntro(body: seq<Element>) returns (r: Option<nat>)
    ensures r == IntroAt(body)
  {
    r := FindFirst(body, IsIntroElement);
  }

  /** The copies spliced in at `at`, with one linked header and footer per section they bring. */
  method InsertCopies(body: seq<Element>, ss: seq<HeaderFooter>, at: nat, xs: seq<Element>, rid: map<string, string>)
    returns (b: seq<Element>, s2: seq<HeaderFooter>, cnt: nat)
    requires at <= |body| && |ss| == |Sections(body)|
    ensures b == body[..at] + Copies(xs, rid) + body[at..] && cnt == |Copies(xs, rid)|
    ensures var pos := |Sections(body[..at])|;
            pos <= |ss| && s2 == ss[..pos] + LinkedStories(|Sections(Copies(xs, rid))|) + ss[pos..]
    ensures |s2| == |Sections(b)|
  {
    b, cnt := Splice(body, at, xs, rid);
    ghost var copies := Copies(xs, rid);
    var pos := |Sections(body[..at])|;
    var added := |Sections(b[at..at + cnt])|;
    assert b[at..at + cnt] == copies by {
      Cut(body[..at], copies, body[at..], cnt);
    }
    assert pos <= |ss| && |ss| + added == |Sections(b)| by {
      SpliceSections(body, at, copies);
    }
    s2 := ss[..pos] + LinkedStories(added) + ss[pos..];
  }

  /** The document being built: its body children and, per section of `doc.sections`, its header and footer. */
  class Package {
    var body: seq<Element>
    var stories: seq<HeaderFooter>

    /** One header and footer per section. */
    ghost predicate Valid()
      reads this
    {
      |stories| == |Sections(body)|
    }

    constructor(body: seq<Element>, stories: seq<HeaderFooter>)
      ensures this.body == body && this.stories == stories
    {
      this.body := body;
      this.stories := stories;
    }

    /**
      * `copy_body(body_doc, final_doc)`: the source's children from the
      * introduction's `p` on, `sectPr` excepted, copied in order in front of the
      * destination's last `sectPr`; false, with nothing changed, when the source
      * has too few paragraphs. A section break inside a copied paragraph is a
      * new section, listed with no header or footer of its own.
      */
    method CopyBody(src: seq<Element>, srcParas: seq<Paragraph>, rels: seq<Rel>, relateTo: Rel -> string)
      returns (ok: bool, cnt: nat)
      requires Valid()
      requires |srcParas| == PCount(src)
      modifies this
      ensures Valid()
      ensures CopiedAs(old(body), old(stories), src, srcParas, rels, relateTo, ok, cnt, body, stories)
    {
      var nb, ns;
      ok, cnt, nb, ns := CopyInto(body, stories, src, srcParas, rels, relateTo);
      body, stories := nb, ns;
    }

    /**
      * `setup_sections(doc)`: a next-page section break in the paragraph
      * before the introduction heading, the body's own `sectPr` reset to A4
      * with the thesis margins and numbering from 1, the page number in the
      * last section's footer, and every earlier section's header and footer
      * emptied. Without the heading nothing changes; with no section at all
      * the body is changed and the footer step fails (`doc.sections[-1]`).
      */
    method SetupSections() returns (r: Setup)
      requires Valid()
      modifies this
      ensures Valid()
      ensures r == NoIntro <==> IntroAt(old(body)).None?
      ensures r == NoIntro ==> body == old(body) && stories == old(stories)
      ensures r != NoIntro ==>
                var i := IntroAt(old(body)).value;
                var ss := Storied(old(body), i, old(stories));
                body == Sectioned(old(body), i) && (r == NoSections <==> |ss| == 0) && stories == Framed(ss)
    {
      r, body, stories := SetupOn(body, stories);
    }
  }
}
