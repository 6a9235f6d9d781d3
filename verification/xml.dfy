/**
  * The slice of lxml / OOXML that the document scripts touch: namespace-qualified
  * names, elements as immutable trees (tag, attributes, children, text) and the
  * child-list queries the scripts use (`find`, `findall`, `append`, `insert`,
  * `remove`), together with the small string helpers they rely on.
  */
module Xml {

  datatype Option<T> = None | Some(value: T)

  /** A namespace-qualified name: lxml writes it `{ns}local`, `qn('w:bidi')` builds one. */
  datatype QName = QName(ns: string, local: string)

  const W: string := "http://schemas.openxmlformats.org/wordprocessingml/2006/main"
  const R: string := "http://schemas.openxmlformats.org/officeDocument/2006/relationships"
  const XML_NS: string := "http://www.w3.org/XML/1998/namespace"

  /** `qn('w:<local>')` */
  function Wq(local: string): QName { QName(W, local) }

  /** An XML element as a value: deep copies are free and the source is never shared. */
  datatype Element = Element(tag: QName, attrs: map<QName, string>, kids: seq<Element>, text: string)

  /** `OxmlElement(tag)`: no attributes, no children, no text. */
  function Leaf(tag: QName): Element { Element(tag, map[], [], "") }

  /** The children whose tag is `t`, in document order (what `findall(t)` returns). */
  function Only(kids: seq<Element>, t: QName): (r: seq<Element>)
    ensures |r| <= |kids|
    ensures forall e | e in r :: e.tag == t
  {
    if kids == [] then []
    else (if kids[0].tag == t then [kids[0]] else []) + Only(kids[1..], t)
  }

  /** The children whose tag is not in `ts`, in document order. */
  function Without(kids: seq<Element>, ts: set<QName>): (r: seq<Element>)
    ensures |r| <= |kids|
    ensures forall e | e in r :: e.tag !in ts
  {
    if kids == [] then []
    else (if kids[0].tag in ts then [] else [kids[0]]) + Without(kids[1..], ts)
  }

  function Count(kids: seq<Element>, t: QName): nat { |Only(kids, t)| }

  /** The position of the first child tagged `t` (what `find(t)` locates). */
  function IndexOf(kids: seq<Element>, t: QName): (r: Option<nat>)
    ensures r.Some? ==> r.value < |kids| && kids[r.value].tag == t
    ensures r.Some? ==> forall j | 0 <= j < r.value :: kids[j].tag != t
    ensures r.None? ==> forall j | 0 <= j < |kids| :: kids[j].tag != t
  {
    if kids == [] then None
    else if kids[0].tag == t then Some(0)
    else match IndexOf(kids[1..], t)
      case None => None
      case Some(i) => Some(i + 1)
  }

  /** The first child tagged `t`: what `find(t)` returns. */
  function Find(kids: seq<Element>, t: QName): (r: Option<Element>)
    ensures r.Some? <==> Count(kids, t) > 0
    ensures r.Some? ==> r.value.tag == t && r.value in kids
  {
    var o := Only(kids, t);
    if o == [] then None
    else
      OnlyIn(kids, t);
      Some(o[0])
  }

  /** `if e.find(t) is None: e.append(OxmlElement(t))` */
  function EnsureChild(kids: seq<Element>, t: QName): (r: seq<Element>)
    ensures Count(r, t) == if Count(kids, t) == 0 then 1 else Count(kids, t)
    ensures Count(kids, t) > 0 ==> r == kids
    ensures Count(kids, t) == 0 ==> r == kids + [Leaf(t)]
    ensures Without(r, {t}) == Without(kids, {t})
    ensures forall u | u != t :: Only(r, u) == Only(kids, u)
  {
    CountZeroIff(kids, t);
    if IndexOf(kids, t).None? then
      forall u { OnlyConcat(kids, [Leaf(t)], u); }
      WithoutConcat(kids, [Leaf(t)], {t});
      kids + [Leaf(t)]
    else kids
  }

  /** `e.remove(e.find(t))` when there is one: only the FIRST child tagged `t` goes. */
  function RemoveFirst(kids: seq<Element>, t: QName): (r: seq<Element>)
    ensures Count(r, t) == if Count(kids, t) == 0 then 0 else Count(kids, t) - 1
    ensures Without(r, {t}) == Without(kids, {t})
    ensures forall u | u != t :: Only(r, u) == Only(kids, u)
    ensures |kids| > 0 && kids[0].tag != t ==> |r| > 0 && r[0] == kids[0]
  {
    CountZeroIff(kids, t);
    match IndexOf(kids, t)
    case None => kids
    case Some(i) =>
      assert kids == kids[..i] + [kids[i]] + kids[i + 1..];
      forall u { RemoveAt(kids, i, u); }
      WithoutAround(kids[..i], kids[i], kids[i + 1..], {t});
      kids[..i] + kids[i + 1..]
  }

  /** `for o in e.findall(t): e.remove(o)` */
  function RemoveAll(kids: seq<Element>, t: QName): (r: seq<Element>)
    ensures Count(r, t) == 0
    ensures Without(r, {t}) == Without(kids, {t})
    ensures forall u | u != t :: Only(r, u) == Only(kids, u)
  {
    OnlyOfWithout(kids, {t}, t);
    WithoutIdem(kids, {t});
    forall u | u != t { OnlyWithoutOther(kids, t, u); }
    Without(kids, {t})
  }

  /**
    * `x = e.find(t)`, created (at the front or at the back) when missing, then
    * `x.set(k, v)` for every entry of `vals`.
    */
  function Upsert(kids: seq<Element>, t: QName, vals: map<QName, string>, atFront: bool): (r: seq<Element>)
    ensures Count(r, t) == if Count(kids, t) == 0 then 1 else Count(kids, t)
    ensures Find(r, t).Some?
    ensures Find(kids, t).Some? ==> Find(r, t).value == Find(kids, t).value.(attrs := Find(kids, t).value.attrs + vals)
    ensures Find(kids, t).None? ==> Find(r, t).value == Leaf(t).(attrs := vals)
    ensures IndexOf(kids, t).Some? ==> IndexOf(r, t) == IndexOf(kids, t)
    ensures IndexOf(kids, t).None? ==> IndexOf(r, t) == Some(if atFront then 0 else |kids|)
    ensures IndexOf(kids, t).Some? || !atFront ==> |r| >= |kids| && forall j | 0 <= j < |kids| :: r[j].tag == kids[j].tag
    ensures Without(r, {t}) == Without(kids, {t})
    ensures forall u | u != t :: Only(r, u) == Only(kids, u)
  {
    CountZeroIff(kids, t);
    match IndexOf(kids, t)
    case Some(i) =>
      var e := kids[i].(attrs := kids[i].attrs + vals);
      UpsertFound(kids, t, vals, i);
      kids[i := e]
    case None =>
      var e := Leaf(t).(attrs := vals);
      UpsertMissing(kids, t, vals, atFront);
      if atFront then [e] + kids else kids + [e]
  }

  lemma UpsertFound(kids: seq<Element>, t: QName, vals: map<QName, string>, i: nat)
    requires IndexOf(kids, t) == Some(i)
    ensures var r := kids[i := kids[i].(attrs := kids[i].attrs + vals)];
            Count(r, t) == Count(kids, t) > 0 && Find(r, t).Some?
            && Find(r, t).value == Find(kids, t).value.(attrs := Find(kids, t).value.attrs + vals)
            && IndexOf(r, t) == IndexOf(kids, t)
            && |r| >= |kids| && (forall j | 0 <= j < |kids| :: r[j].tag == kids[j].tag)
            && Without(r, {t}) == Without(kids, {t})
            && forall u | u != t :: Only(r, u) == Only(kids, u)
  {
    CountZeroIff(kids, t);
    var e := kids[i].(attrs := kids[i].attrs + vals);
    OnlyFromIndex(kids, t, i);
    UpdateFirst(kids, i, e);
  }

  lemma UpsertMissing(kids: seq<Element>, t: QName, vals: map<QName, string>, atFront: bool)
    requires IndexOf(kids, t).None?
    ensures var e := Leaf(t).(attrs := vals);
            var r := if atFront then [e] + kids else kids + [e];
            Count(r, t) == 1 && Count(kids, t) == 0 && Find(r, t) == Some(e)
            && IndexOf(r, t) == Some(if atFront then 0 else |kids|)
            && (!atFront ==> |r| >= |kids| && forall j | 0 <= j < |kids| :: r[j].tag == kids[j].tag)
            && Without(r, {t}) == Without(kids, {t})
            && forall u | u != t :: Only(r, u) == Only(kids, u)
  {
    var e := Leaf(t).(attrs := vals);
    assert [e][1..] == [];
    assert Only(kids, t) == [] by { CountZeroIff(kids, t); }
    forall u
      ensures Only([e] + kids, u) == Only([e], u) + Only(kids, u)
      ensures Only(kids + [e], u) == Only(kids, u) + Only([e], u)
    {
      OnlyConcat([e], kids, u);
      OnlyConcat(kids, [e], u);
    }
    WithoutConcat([e], kids, {t});
    WithoutConcat(kids, [e], {t});
    assert IndexOf(kids + [e], t) == Some(|kids|) by { IndexAppend(kids, e, t); }
  }

  // ---------------------------------------------------------------------------
  // Facts about the child-list queries
  // ---------------------------------------------------------------------------

  lemma OnlyIn(kids: seq<Element>, t: QName)
    ensures forall e | e in Only(kids, t) :: e in kids
  {
    if kids != [] { OnlyIn(kids[1..], t); }
  }

  lemma OnlyOne(e: Element, u: QName)
    ensures Only([e], u) == if e.tag == u then [e] else []
  {
    assert [e][1..] == [];
  }

  lemma OnlyConcat(a: seq<Element>, b: seq<Element>, t: QName)
    ensures Only(a + b, t) == Only(a, t) + Only(b, t)
  {
    if a != [] {
      assert (a + b)[1..] == a[1..] + b;
      OnlyConcat(a[1..], b, t);
    } else {
      assert a + b == b;
    }
  }

  lemma WithoutConcat(a: seq<Element>, b: seq<Element>, ts: set<QName>)
    ensures Without(a + b, ts) == Without(a, ts) + Without(b, ts)
  {
    if a != [] {
      assert (a + b)[1..] == a[1..] + b;
      WithoutConcat(a[1..], b, ts);
    } else {
      assert a + b == b;
    }
  }

  lemma OnlyOfWithout(kids: seq<Element>, ts: set<QName>, t: QName)
    requires t in ts
    ensures Only(Without(kids, ts), t) == []
  {
    if kids != [] {
      OnlyConcat(if kids[0].tag in ts then [] else [kids[0]], Without(kids[1..], ts), t);
      OnlyOfWithout(kids[1..], ts, t);
    }
  }

  lemma OnlyWithoutOther(kids: seq<Element>, t: QName, u: QName)
    requires u != t
    ensures Only(Without(kids, {t}), u) == Only(kids, u)
  {
    if kids != [] {
      OnlyConcat(if kids[0].tag in {t} then [] else [kids[0]], Without(kids[1..], {t}), u);
      OnlyWithoutOther(kids[1..], t, u);
    }
  }

  lemma WithoutIdem(kids: seq<Element>, ts: set<QName>)
    ensures Without(Without(kids, ts), ts) == Without(kids, ts)
  {
    if kids != [] {
      WithoutConcat(if kids[0].tag in ts then [] else [kids[0]], Without(kids[1..], ts), ts);
      WithoutIdem(kids[1..], ts);
    }
  }

  /** Dropping one tag and then a wider set is dropping the wider set. */
  lemma WithoutSub(kids: seq<Element>, t: QName, ts: set<QName>)
    requires t in ts
    ensures Without(Without(kids, {t}), ts) == Without(kids, ts)
  {
    if kids != [] {
      WithoutConcat(if kids[0].tag in {t} then [] else [kids[0]], Without(kids[1..], {t}), ts);
      WithoutSub(kids[1..], t, ts);
    }
  }

  /** Two child lists that agree once `t` is dropped agree once any wider set is dropped. */
  lemma WithoutWider(a: seq<Element>, b: seq<Element>, t: QName, ts: set<QName>)
    requires t in ts && Without(a, {t}) == Without(b, {t})
    ensures Without(a, ts) == Without(b, ts)
  {
    WithoutSub(a, t, ts);
    WithoutSub(b, t, ts);
  }

  lemma CountZeroIff(kids: seq<Element>, t: QName)
    ensures Count(kids, t) == 0 <==> IndexOf(kids, t).None?
  {
    if kids != [] { CountZeroIff(kids[1..], t); }
  }

  lemma IndexAppend(kids: seq<Element>, e: Element, t: QName)
    requires IndexOf(kids, t).None? && e.tag == t
    ensures IndexOf(kids + [e], t) == Some(|kids|)
  {
    if kids != [] {
      assert (kids + [e])[1..] == kids[1..] + [e];
      IndexAppend(kids[1..], e, t);
    }
  }

  /** Counting around one child: what `remove` and `insert` do to the per-tag lists. */
  lemma OnlyAround(a: seq<Element>, x: Element, b: seq<Element>, u: QName)
    ensures Only(a + [x] + b, u) == Only(a, u) + (if x.tag == u then [x] else []) + Only(b, u)
  {
    assert Only([x], u) == (if x.tag == u then [x] else []) by { assert [x][1..] == []; }
    assert a + [x] + b == a + ([x] + b);
    OnlyConcat(a, [x] + b, u);
    OnlyConcat([x], b, u);
  }

  lemma {:induction false} RemoveAt(kids: seq<Element>, i: nat, u: QName)
    requires i < |kids|
    ensures |Only(kids[..i] + kids[i + 1..], u)| == |Only(kids, u)| - (if kids[i].tag == u then 1 else 0)
    ensures kids[i].tag != u ==> Only(kids[..i] + kids[i + 1..], u) == Only(kids, u)
  {
    var a, x, b := kids[..i], kids[i], kids[i + 1..];
    assert a + [x] + b == kids;
    OnlyAround(a, x, b, u);
    OnlyConcat(a, b, u);
    var oa, ob := Only(a, u), Only(b, u);
    assert Only(kids, u) == oa + (if x.tag == u then [x] else []) + ob;
    assert Only(a + b, u) == oa + ob;
  }

  lemma WithoutAround(a: seq<Element>, x: Element, b: seq<Element>, ts: set<QName>)
    requires x.tag in ts
    ensures Without(a + [x] + b, ts) == Without(a + b, ts)
  {
    assert Without([x], ts) == [] by { assert [x][1..] == []; }
    assert a + [x] + b == a + ([x] + b);
    WithoutConcat(a, [x] + b, ts);
    WithoutConcat([x], b, ts);
    WithoutConcat(a, b, ts);
  }

  /** The children tagged `t` start with the first of them. */
  lemma OnlyFromIndex(kids: seq<Element>, t: QName, i: nat)
    requires IndexOf(kids, t) == Some(i)
    ensures Only(kids, t) == [kids[i]] + Only(kids[i + 1..], t)
  {
    if i > 0 {
      assert kids[1..][i..] == kids[i + 1..];
      OnlyFromIndex(kids[1..], t, i - 1);
    }
  }

  /** Replacing the first child tagged `t` by another element with that tag. */
  lemma UpdateFirst(kids: seq<Element>, i: nat, e: Element)
    requires i < |kids| && IndexOf(kids, kids[i].tag) == Some(i) && e.tag == kids[i].tag
    ensures Only(kids[i := e], e.tag) == [e] + Only(kids[i + 1..], e.tag)
    ensures IndexOf(kids[i := e], e.tag) == Some(i)
    ensures Without(kids[i := e], {e.tag}) == Without(kids, {e.tag})
    ensures forall u | u != e.tag :: Only(kids[i := e], u) == Only(kids, u)
  {
    var k' := kids[i := e];
    if i > 0 {
      assert k'[1..] == kids[1..][i - 1 := e];
      assert kids[1..][i - 1 + 1..] == kids[i + 1..];
      UpdateFirst(kids[1..], i - 1, e);
    } else {
      assert k'[1..] == kids[1..];
    }
  }

  lemma OnlyNone(kids: seq<Element>, t: QName)
    requires forall j | 0 <= j < |kids| :: kids[j].tag != t
    ensures Only(kids, t) == []
  {
    if kids != [] { OnlyNone(kids[1..], t); }
  }

  lemma IndexUpdate(kids: seq<Element>, i: nat, e: Element)
    requires i < |kids| && IndexOf(kids, kids[i].tag) == Some(i) && e.tag == kids[i].tag
    ensures IndexOf(kids[i := e], e.tag) == Some(i)
  {
    if i > 0 {
      assert kids[i := e][1..] == kids[1..][i - 1 := e];
      IndexUpdate(kids[1..], i - 1, e);
    }
  }

  /** Setting attributes the first `t` child already holds changes nothing. */
  lemma UpsertSettled(kids: seq<Element>, t: QName, vals: map<QName, string>, atFront: bool)
    requires Find(kids, t).Some? && Find(kids, t).value.attrs + vals == Find(kids, t).value.attrs
    ensures Upsert(kids, t, vals, atFront) == kids
  {
    CountZeroIff(kids, t);
    var i := IndexOf(kids, t).value;
    OnlyFromIndex(kids, t, i);
    assert kids[i := kids[i]] == kids;
  }

  // ---------------------------------------------------------------------------
  // Strings
  // ---------------------------------------------------------------------------

  predicate StartsAt(s: string, i: nat, w: string) {
    i + |w| <= |s| && s[i..i + |w|] == w
  }

  /** Python's `w in s` for strings. */
  predicate Contains(s: string, w: string) {
    exists i :: 0 <= i <= |s| && StartsAt(s, i, w)
  }

  predicate StartsWith(s: string, w: string) { StartsAt(s, 0, w) }

  predicate EndsWith(s: string, w: string) {
    |w| <= |s| && s[|s| - |w|..] == w
  }

  function DigitChar(d: nat): char
    requires d < 10
  {
    ['0', '1', '2', '3', '4', '5', '6', '7', '8', '9'][d]
  }

  /** Python's `str(n)` for a natural number. */
  function NatToString(n: nat): (r: string)
    ensures |r| >= 1
    ensures forall k | 0 <= k < |r| :: '0' <= r[k] <= '9'
  {
    if n < 10 then [DigitChar(n)] else NatToString(n / 10) + [DigitChar(n % 10)]
  }

  /** Python's `int(s)` on a string of decimal digits. */
  function ParseNat(s: string): nat
    requires forall k | 0 <= k < |s| :: '0' <= s[k] <= '9'
  {
    if s == [] then 0 else 10 * ParseNat(s[..|s| - 1]) + (s[|s| - 1] as int - '0' as int)
  }

  /** The decimal string written into a `w:val` attribute reads back as the same number. */
  lemma {:induction false} ParseNatToString(n: nat)
    ensures ParseNat(NatToString(n)) == n
  {
    if n >= 10 {
      var s := NatToString(n / 10) + [DigitChar(n % 10)];
      assert s[..|s| - 1] == NatToString(n / 10);
      ParseNatToString(n / 10);
    }
  }

  /** Python's `str.isspace()` on one character. */
  predicate IsSpace(c: char) {
    ('\t' <= c <= '\r') || ('\U{1C}' <= c <= ' ') || c == '\U{85}' || c == '\U{A0}'
    || c == '\U{1680}' || ('\U{2000}' <= c <= '\U{200A}') || c == '\U{2028}' || c == '\U{2029}'
    || c == '\U{202F}' || c == '\U{205F}' || c == '\U{3000}'
  }

  function LStrip(s: string): (r: string)
    ensures |r| <= |s|
  {
    if s != [] && IsSpace(s[0]) then LStrip(s[1..]) else s
  }

  function RStrip(s: string): (r: string)
    ensures |r| <= |s|
  {
    if s != [] && IsSpace(s[|s| - 1]) then RStrip(s[..|s| - 1]) else s
  }

  /**
    * Python's `str.strip()` with no argument: the text between the leading
    * and the trailing whitespace, empty exactly for whitespace-only text.
    */
  function Strip(s: string): (r: string)
    ensures r == [] || (!IsSpace(r[0]) && !IsSpace(r[|r| - 1]))
    ensures exists i, j | 0 <= i <= j <= |s| :: r == s[i..j] && Trimmed(s, i, j)
    ensures r == [] <==> forall k | 0 <= k < |s| :: IsSpace(s[k])
  {
    StripShape(s);
    RStrip(LStrip(s))
  }

  /** Everything of `s` before `i` and from `j` on is whitespace. */
  predicate Trimmed(s: string, i: nat, j: nat)
    requires i <= j <= |s|
  {
    (forall k | 0 <= k < i :: IsSpace(s[k])) && (forall k | j <= k < |s| :: IsSpace(s[k]))
  }

  lemma StripShape(s: string)
    ensures var r := RStrip(LStrip(s)); r == [] || (!IsSpace(r[0]) && !IsSpace(r[|r| - 1]))
    ensures var r := RStrip(LStrip(s)); exists i, j | 0 <= i <= j <= |s| :: r == s[i..j] && Trimmed(s, i, j)
    ensures RStrip(LStrip(s)) == [] <==> forall k | 0 <= k < |s| :: IsSpace(s[k])
  {
    var l := LStrip(s);
    LStripShape(s);
    RStripPrefix(l);
    var i := LStripAt(s);
    var n := RStripAt(l);
    var j := i + n;
    assert RStrip(l) == s[i..j];
    assert forall k | j <= k < |s| :: IsSpace(s[k]) by {
      forall k | j <= k < |s| ensures IsSpace(s[k]) {
        assert s[k] == l[k - i];
      }
    }
    assert Trimmed(s, i, j);
    if forall k | 0 <= k < |s| :: IsSpace(s[k]) {
      if l != [] {
        assert l[0] == s[i];
      }
    }
  }

  /** `lstrip` drops the leading whitespace, and only that. */
  lemma {:induction false} LStripAt(s: string) returns (i: nat)
    ensures i <= |s| && LStrip(s) == s[i..]
    ensures forall k | 0 <= k < i :: IsSpace(s[k])
  {
    if s != [] && IsSpace(s[0]) {
      var i' := LStripAt(s[1..]);
      i := i' + 1;
      assert s[1..][i'..] == s[i..];
      forall k | 0 <= k < i ensures IsSpace(s[k]) {
        if k > 0 { assert s[k] == s[1..][k - 1]; }
      }
    } else {
      i := 0;
    }
  }

  /** `rstrip` drops the trailing whitespace, and only that. */
  lemma {:induction false} RStripAt(s: string) returns (j: nat)
    ensures j <= |s| && RStrip(s) == s[..j]
    ensures forall k | j <= k < |s| :: IsSpace(s[k])
  {
    if s != [] && IsSpace(s[|s| - 1]) {
      var t := s[..|s| - 1];
      j := RStripAt(t);
      assert t[..j] == s[..j];
      forall k | j <= k < |s| ensures IsSpace(s[k]) {
        if k < |s| - 1 { assert s[k] == t[k]; }
      }
    } else {
      j := |s|;
    }
  }

  lemma LStripShape(s: string)
    ensures LStrip(s) == [] || !IsSpace(LStrip(s)[0])
  {
  }

  lemma RStripPrefix(s: string)
    requires s == [] || !IsSpace(s[0])
    ensures RStrip(s) <= s
    ensures RStrip(s) == [] || !IsSpace(RStrip(s)[|RStrip(s)| - 1])
  {
    if s != [] && IsSpace(s[|s| - 1]) {
      RStripPrefix(s[..|s| - 1]);
    }
  }
}
