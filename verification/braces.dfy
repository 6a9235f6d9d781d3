/**
  * Flattening of three-argument LaTeX commands whose last argument may hold
  * nested braces (`\fcolorbox{rule}{bg}{content}`, `\multirow{n}{width}{text}`):
  * each occurrence is replaced by its last argument, found by counting brace
  * depth, until none is left.
  */
module Braces {
  import opened Xml
  import opened Patterns

  /** `\cmd\{[^}]*\}\{[^}]*\}\{`: the command, two flat arguments, and the opening brace of the third. */
  function Directive(cmd: string): (ps: seq<Piece>)
    ensures Anchored(ps)
  {
    [Lit("\\" + cmd), Group('{', '}', 0), Group('{', '}', 0), Lit("{")]
  }

  /** The brace depth after reading one character. */
  function Step(depth: int, c: char): int {
    if c == '{' then depth + 1 else if c == '}' then depth - 1 else depth
  }

  /**
    * Where the depth-counting scan that starts at `pos` with depth `depth`
    * stops: just past the brace that brings the depth to zero, or at the end
    * of the text.
    */
  function Close(s: string, pos: nat, depth: nat): (r: nat)
    requires pos <= |s|
    ensures pos <= r <= |s|
    ensures depth > 0 && pos < |s| ==> pos < r
    decreases |s| - pos
  {
    if pos < |s| && depth > 0 then Close(s, pos + 1, Step(depth, s[pos])) else pos
  }

  /** Python's `text[lo:hi]` for `0 <= lo`: empty once `hi` falls below `lo`. */
  function Slice(s: string, lo: nat, hi: int): (r: string)
    requires lo <= |s| && hi <= |s|
    ensures |r| == if hi <= lo then 0 else hi - lo
  {
    if hi <= lo then [] else s[lo..hi]
  }

  /** One round of the flattening loop, on the leftmost occurrence; `None` when there is none. */
  function FlattenStep(s: string, cmd: string): (r: Option<string>)
    ensures r.Some? ==> |r.value| < |s|
    ensures r.None? <==> Search(s, Directive(cmd), 0).None?
  {
    match Search(s, Directive(cmd), 0)
    case None => None
    case Some((start, end)) =>
      var pos := Close(s, end, 1);
      Some(s[..start] + Slice(s, end, pos - 1) + s[pos..])
  }

  /** The text once no occurrence of `\cmd{..}{..}{` is left. */
  function Flatten(s: string, cmd: string): (r: string)
    ensures |r| <= |s|
    ensures Search(r, Directive(cmd), 0).None?
    decreases |s|
  {
    match FlattenStep(s, cmd)
    case None => s
    case Some(t) => Flatten(t, cmd)
  }

  /** The inner loop of `remove_fcolorbox`: scan from just past the opening brace at depth 1. */
  method ScanClose(text: string, end: nat) returns (pos: nat)
    requires end <= |text|
    ensures pos == Close(text, end, 1)
  {
    var depth: nat := 1;
    pos := end;
    while pos < |text| && depth > 0
      invariant end <= pos <= |text|
      invariant Close(text, pos, depth) == Close(text, end, 1)
      decreases |text| - pos
    {
      depth := Step(depth, text[pos]);
      pos := pos + 1;
    }
  }

  /** `remove_fcolorbox` and `remove_multirow`: the same loop with a different command name. */
  method RemoveBraced(text: string, cmd: string) returns (r: string)
    ensures r == Flatten(text, cmd)
  {
    r := text;
    while true
      invariant Flatten(r, cmd) == Flatten(text, cmd)
      decreases |r|
    {
      var m := Search(r, Directive(cmd), 0);
      if m.None? {
        break;
      }
      var start, end := m.value.0, m.value.1;
      var pos := ScanClose(r, end);
      var content := Slice(r, end, pos - 1);
      assert FlattenStep(r, cmd) == Some(r[..start] + content + r[pos..]);
      r := r[..start] + content + r[pos..];
    }
  }

  // ---------------------------------------------------------------------------
  // What one round does to well-formed and to unterminated input
  // ---------------------------------------------------------------------------

  /** `c` read from depth `d` never brings the depth down to zero. */
  predicate StaysOpen(c: string, d: int) {
    forall k | 0 <= k <= |c| :: DepthAfter(c[..k], d) > 0
  }

  function DepthAfter(c: string, d: int): int {
    if c == [] then d else Step(DepthAfter(c[..|c| - 1], d), c[|c| - 1])
  }

  /** Text whose braces are balanced in the usual sense: read from depth 1 it returns to depth 1 without closing. */
  predicate Balanced(c: string) {
    StaysOpen(c, 1) && DepthAfter(c, 1) == 1
  }

  lemma {:induction false} DepthAfterCons(c: string, d: int)
    requires c != []
    ensures DepthAfter(c, d) == DepthAfter(c[1..], Step(d, c[0]))
    decreases |c|
  {
    if |c| > 1 {
      assert c[..|c| - 1][1..] == c[1..][..|c| - 2];
      DepthAfterCons(c[..|c| - 1], d);
      assert c[1..][..|c[1..]| - 1] == c[1..][..|c| - 2];
    } else {
      assert c[..0] == [];
    }
  }

  /** A scan over text that keeps the depth positive only moves the depth. */
  lemma {:induction false} CloseOver(s: string, pos: nat, c: string, d: nat)
    requires pos + |c| <= |s| && s[pos..pos + |c|] == c && StaysOpen(c, d)
    ensures DepthAfter(c, d) >= 0
    ensures Close(s, pos, d) == Close(s, pos + |c|, DepthAfter(c, d) as nat)
    decreases |c|
  {
    assert c[..|c|] == c;
    if c != [] {
      assert c[..0] == [];
      assert DepthAfter(c[..1], d) == Step(d, c[0]);
      var d' := Step(d, c[0]);
      assert d' > 0;
      forall k | 0 <= k <= |c[1..]| ensures DepthAfter(c[1..][..k], d') > 0 {
        assert c[..k + 1] != [];
        DepthAfterCons(c[..k + 1], d);
        assert c[..k + 1][1..] == c[1..][..k];
      }
      assert s[pos + 1..pos + 1 + |c[1..]|] == c[1..];
      CloseOver(s, pos + 1, c[1..], d');
      DepthAfterCons(c, d);
    }
  }

  /** The text `\cmd{a}{b}{` with flat `a` and `b`. */
  function Head(cmd: string, a: string, b: string): string {
    "\\" + cmd + "{" + a + "}{" + b + "}{"
  }

  /** Where the pieces of a head sit in a text that starts with it. */
  lemma HeadLayout(cmd: string, a: string, b: string, s: string)
    requires Head(cmd, a, b) <= s
    ensures var n := |cmd| + 1;
            var n2 := n + |a| + 2;
            var n3 := n2 + |b| + 2;
            |Head(cmd, a, b)| == n3 + 1 && StartsAt(s, 0, "\\" + cmd)
            && s[n] == '{' && s[n + 1..n + 1 + |a|] == a && s[n + 1 + |a|] == '}'
            && s[n2] == '{' && s[n2 + 1..n2 + 1 + |b|] == b && s[n2 + 1 + |b|] == '}'
            && StartsAt(s, n3, "{")
  {
    var h := Head(cmd, a, b);
    var n := |cmd| + 1;
    var n2 := n + |a| + 2;
    var n3 := n2 + |b| + 2;
    assert h == ("\\" + cmd) + ("{" + a + "}") + ("{" + b + "}") + "{";
    assert s[..|h|] == h;
    assert h[..n] == "\\" + cmd;
    assert h[n + 1..n + 1 + |a|] == a;
    assert h[n2 + 1..n2 + 1 + |b|] == b;
  }

  /** A literal and two brace groups, then an opening brace, matched piece by piece. */
  lemma MatchHead(s: string, ps: seq<Piece>, a: string, b: string)
    requires |ps| == 4 && ps[0].Lit? && ps[1] == Group('{', '}', 0) && ps[2] == ps[1] && ps[3] == Lit("{")
    requires var n := |ps[0].w|;
             var n2 := n + |a| + 2;
             var n3 := n2 + |b| + 2;
             n3 + 1 <= |s| && StartsAt(s, 0, ps[0].w) && '}' !in a && '}' !in b
             && s[n] == '{' && s[n + 1..n + 1 + |a|] == a && s[n + 1 + |a|] == '}'
             && s[n2] == '{' && s[n2 + 1..n2 + 1 + |b|] == b && s[n2 + 1 + |b|] == '}'
             && StartsAt(s, n3, "{")
    ensures MatchFrom(s, 0, ps) == Some(|ps[0].w| + |a| + |b| + 5)
  {
    var n := |ps[0].w|;
    var n2 := n + |a| + 2;
    var n3 := n2 + |b| + 2;
    var q1 := ps[1..];
    var q2 := q1[1..];
    var q3 := q2[1..];
    assert q1[0] == ps[1] && q2[0] == ps[2] && q3[0] == ps[3] && q3[1..] == [];
    assert MatchFrom(s, 0, ps) == MatchFrom(s, n, q1) by {
      MatchLit(s, 0, ps);
    }
    assert MatchFrom(s, n, q1) == MatchFrom(s, n2, q2) by {
      MatchGroup(s, n, q1, a);
    }
    assert MatchFrom(s, n2, q2) == MatchFrom(s, n3, q3) by {
      MatchGroup(s, n2, q2, b);
    }
    assert MatchFrom(s, n3, q3) == Some(n3 + 1) by {
      MatchLit(s, n3, q3);
      assert MatchFrom(s, n3 + 1, []) == Some(n3 + 1);
    }
  }

  lemma HeadMatches(cmd: string, a: string, b: string, rest: string)
    requires '}' !in a && '}' !in b
    ensures var s := Head(cmd, a, b) + rest;
            Search(s, Directive(cmd), 0) == Some((0 as nat, |Head(cmd, a, b)| as nat))
  {
    var s := Head(cmd, a, b) + rest;
    HeadLayout(cmd, a, b, s);
    MatchHead(s, Directive(cmd), a, b);
  }

  /** `\cmd{a}{b}{c}rest` with balanced `c` becomes `c rest`. */
  lemma StepBalanced(cmd: string, a: string, b: string, c: string, rest: string)
    requires '}' !in a && '}' !in b && Balanced(c)
    ensures FlattenStep(Head(cmd, a, b) + c + "}" + rest, cmd) == Some(c + rest)
  {
    var h := Head(cmd, a, b);
    var s := h + c + "}" + rest;
    assert s == h + (c + "}" + rest);
    HeadMatches(cmd, a, b, c + "}" + rest);
    var e := |h|;
    assert s[e..] == c + "}" + rest;
    assert s[e..e + |c|] == c;
    CloseOver(s, e, c, 1);
    assert s[e + |c|] == '}';
    assert Close(s, e + |c|, 1) == Close(s, e + |c| + 1, 0);
    var pos := e + |c| + 1;
    assert Close(s, e, 1) == pos;
    assert s[..0] == [];
    assert s[pos..] == rest;
    assert Slice(s, e, pos - 1) == c;
    assert FlattenStep(s, cmd) == Some([] + c + rest);
    assert [] + c + rest == c + rest;
  }

  /** `\cmd{a}{b}{c` with no closing brace loses its last character as well as the head. */
  lemma StepUnterminated(cmd: string, a: string, b: string, c: string)
    requires '}' !in a && '}' !in b && StaysOpen(c, 1) && c != []
    ensures FlattenStep(Head(cmd, a, b) + c, cmd) == Some(c[..|c| - 1])
  {
    var h := Head(cmd, a, b);
    var s := h + c;
    HeadMatches(cmd, a, b, c);
    var e := |h|;
    assert s[e..e + |c|] == c;
    CloseOver(s, e, c, 1);
    assert Close(s, e, 1) == |s|;
    assert s[..0] == [];
    assert s[e..|s| - 1] == c[..|c| - 1];
    assert Slice(s, e, |s| - 1) == c[..|c| - 1];
    assert s[|s|..] == [];
    assert FlattenStep(s, cmd) == Some([] + c[..|c| - 1] + []);
    assert [] + c[..|c| - 1] + [] == c[..|c| - 1];
  }

  /** Text without a backslash holds no directive and comes back unchanged. */
  lemma FlattenInert(s: string, cmd: string)
    requires '\\' !in s
    ensures Flatten(s, cmd) == s
  {
    assert ("\\" + cmd)[0] == '\\';
    AbsentHead(s, Directive(cmd), '\\');
  }
}
