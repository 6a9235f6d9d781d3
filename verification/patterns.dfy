/**
  * The fixed regular-expression shapes that the LaTeX normaliser hands to
  * `re.sub` and `re.search`: a literal head, brace or bracket arguments
  * (`\{[^}]*\}`, `\[[^\]]*\]`), an optional piece (`\*?`, `(\[[^\]]*\])?`),
  * a run of digits and dots (`[\d.]+`) and a word boundary (`\b`). Matching is
  * leftmost, greedy and backtracks only through optional pieces, which is all
  * these shapes need; substitution scans left to right and never re-examines
  * replaced text, as `re.sub` does.
  */
module Patterns {
  import opened Xml

  datatype Piece =
    | Lit(w: string)                      // the characters of `w`, in order
    | Group(open: char, close: char, min: nat)  // `open`, at least `min` characters other than `close`, `close`
    | Maybe(p: Piece)                     // `p` if the rest of the pattern then matches, else nothing
    | Digits                              // `[\d.]+`
    | WordEnd                             // `\b`

  function PieceSize(p: Piece): nat {
    match p
    case Maybe(q) => 1 + PieceSize(q)
    case _ => 1
  }

  function PSize(ps: seq<Piece>): nat {
    if ps == [] then 0 else PieceSize(ps[0]) + PSize(ps[1..])
  }

  /** A pattern that starts with a non-empty literal, so that it never matches the empty string. */
  predicate Anchored(ps: seq<Piece>) {
    |ps| > 0 && ps[0].Lit? && |ps[0].w| > 0
  }

  /** The first index at or after `i` that holds `c`, or `|s|` when there is none. */
  function ScanTo(s: string, i: nat, c: char): (j: nat)
    requires i <= |s|
    ensures i <= j <= |s|
    ensures j < |s| ==> s[j] == c
    ensures forall k | i <= k < j :: s[k] != c
    decreases |s| - i
  {
    if i == |s| || s[i] == c then i else ScanTo(s, i + 1, c)
  }

  /** `\d` or `.`: ASCII, Arabic-Indic and extended Arabic-Indic decimal digits. */
  predicate IsDigitOrDot(c: char) {
    ('0' <= c <= '9') || c == '.' || ('\U{0660}' <= c <= '\U{0669}') || ('\U{06F0}' <= c <= '\U{06F9}')
  }

  /** The end of the longest run of `[\d.]` characters starting at `i`. */
  function SkipDigits(s: string, i: nat): (j: nat)
    requires i <= |s|
    ensures i <= j <= |s|
    ensures forall k | i <= k < j :: IsDigitOrDot(s[k])
    ensures j < |s| ==> !IsDigitOrDot(s[j])
    decreases |s| - i
  {
    if i < |s| && IsDigitOrDot(s[i]) then SkipDigits(s, i + 1) else i
  }

  /** `\w`: ASCII letters and digits, `_`, Arabic letters and Arabic-Indic digits. */
  predicate IsWordChar(c: char) {
    ('a' <= c <= 'z') || ('A' <= c <= 'Z') || ('0' <= c <= '9') || c == '_'
    || ('\U{0620}' <= c <= '\U{064A}') || ('\U{0660}' <= c <= '\U{0669}') || ('\U{0671}' <= c <= '\U{06D3}')
  }

  /** `\b` at position `i`: a word character on exactly one side. */
  predicate AtBoundary(s: string, i: nat)
    requires i <= |s|
  {
    (i > 0 && IsWordChar(s[i - 1])) != (i < |s| && IsWordChar(s[i]))
  }

  /** Where a match of `ps` that starts at `i` ends, if there is one. */
  function MatchFrom(s: string, i: nat, ps: seq<Piece>): (r: Option<nat>)
    requires i <= |s|
    ensures r.Some? ==> i <= r.value <= |s|
    ensures r.Some? && Anchored(ps) ==> i < r.value
    decreases PSize(ps)
  {
    if ps == [] then Some(i)
    else match ps[0]
      case Lit(w) =>
        if StartsAt(s, i, w) then MatchFrom(s, i + |w|, ps[1..]) else None
      case Group(o, c, min) =>
        if i < |s| && s[i] == o then
          var j := ScanTo(s, i + 1, c);
          if j < |s| && j - (i + 1) >= min then MatchFrom(s, j + 1, ps[1..]) else None
        else None
      case Maybe(q) =>
        assert ([q] + ps[1..])[1..] == ps[1..];
        var taken := MatchFrom(s, i, [q] + ps[1..]);
        if taken.Some? then taken else MatchFrom(s, i, ps[1..])
      case Digits =>
        var j := SkipDigits(s, i);
        if j > i then MatchFrom(s, j, ps[1..]) else None
      case WordEnd =>
        if AtBoundary(s, i) then MatchFrom(s, i, ps[1..]) else None
  }

  /** `re.sub(ps, f, s)` restricted to the text from `i` on. */
  function SubFrom(s: string, ps: seq<Piece>, f: string -> string, i: nat): string
    requires Anchored(ps) && i <= |s|
    decreases |s| - i
  {
    if i == |s| then []
    else match MatchFrom(s, i, ps)
      case Some(e) => f(s[i..e]) + SubFrom(s, ps, f, e)
      case None => [s[i]] + SubFrom(s, ps, f, i + 1)
  }

  /** `re.sub(ps, f, s)`: every leftmost non-overlapping match is replaced by `f` of the matched text. */
  function Sub(s: string, ps: seq<Piece>, f: string -> string): string
    requires Anchored(ps)
  {
    SubFrom(s, ps, f, 0)
  }

  /** `re.search(ps, s)` from position `i`: the leftmost match, as (start, end). */
  function Search(s: string, ps: seq<Piece>, i: nat): (r: Option<(nat, nat)>)
    requires Anchored(ps) && i <= |s|
    ensures r.Some? ==> i <= r.value.0 < r.value.1 <= |s| && MatchFrom(s, r.value.0, ps) == Some(r.value.1)
    ensures r.Some? ==> forall k | i <= k < r.value.0 :: MatchFrom(s, k, ps).None?
    ensures r.None? ==> forall k | i <= k < |s| :: MatchFrom(s, k, ps).None?
    decreases |s| - i
  {
    if i == |s| then None
    else match MatchFrom(s, i, ps)
      case Some(e) => Some((i, e))
      case None => Search(s, ps, i + 1)
  }

  // ---------------------------------------------------------------------------
  // Facts about substitution
  // ---------------------------------------------------------------------------

  /** A match has to contain the whole head literal, so a character of it that the text lacks rules every match out. */
  lemma AbsentHead(s: string, ps: seq<Piece>, c: char)
    requires Anchored(ps) && c in ps[0].w && c !in s
    ensures forall i | 0 <= i <= |s| :: MatchFrom(s, i, ps).None?
  {
    var w := ps[0].w;
    forall i | 0 <= i <= |s| ensures MatchFrom(s, i, ps).None? {
      if i + |w| <= |s| {
        var k :| 0 <= k < |w| && w[k] == c;
        assert s[i..i + |w|][k] == s[i + k];
      }
    }
  }

  /** Text in which no match starts at or after `i` is copied as it is. */
  lemma {:induction false} SubFromNoMatch(s: string, ps: seq<Piece>, f: string -> string, i: nat)
    requires Anchored(ps) && i <= |s|
    requires forall k | i <= k < |s| :: MatchFrom(s, k, ps).None?
    ensures SubFrom(s, ps, f, i) == s[i..]
    decreases |s| - i
  {
    if i < |s| {
      SubFromNoMatch(s, ps, f, i + 1);
      assert s[i..] == [s[i]] + s[i + 1..];
    }
  }

  /** Text that lacks some character of the head literal is left alone. */
  lemma SubInert(s: string, ps: seq<Piece>, f: string -> string, c: char)
    requires Anchored(ps) && c in ps[0].w && c !in s
    ensures Sub(s, ps, f) == s
  {
    AbsentHead(s, ps, c);
    SubFromNoMatch(s, ps, f, 0);
  }

  /** A literal piece that is present is consumed whole. */
  lemma MatchLit(s: string, i: nat, ps: seq<Piece>)
    requires i <= |s| && |ps| > 0 && ps[0].Lit? && StartsAt(s, i, ps[0].w)
    ensures MatchFrom(s, i, ps) == MatchFrom(s, i + |ps[0].w|, ps[1..])
  {
  }

  /** A literal placed at `|x|` starts there. */
  lemma LitAt(x: string, w: string, y: string)
    ensures StartsAt(x + w + y, |x|, w)
  {
    assert (x + w + y)[|x|..|x| + |w|] == w;
  }

  /** An optional piece is taken when the rest then matches, and skipped otherwise. */
  lemma MatchMaybe(s: string, i: nat, q: Piece, rest: seq<Piece>)
    requires i <= |s|
    ensures var taken := MatchFrom(s, i, [q] + rest);
            MatchFrom(s, i, [Maybe(q)] + rest) == if taken.Some? then taken else MatchFrom(s, i, rest)
  {
    assert ([Maybe(q)] + rest)[1..] == rest;
  }

  /** A group piece consumes its opening character, an argument free of the closing one, and the closing one. */
  lemma MatchGroup(s: string, i: nat, ps: seq<Piece>, arg: string)
    requires |ps| > 0 && ps[0].Group?
    requires i + |arg| + 2 <= |s| && s[i] == ps[0].open && s[i + 1..i + 1 + |arg|] == arg
    requires ps[0].close !in arg && s[i + 1 + |arg|] == ps[0].close && |arg| >= ps[0].min
    ensures MatchFrom(s, i, ps) == MatchFrom(s, i + |arg| + 2, ps[1..])
  {
    forall k | i + 1 <= k < i + 1 + |arg| ensures s[k] != ps[0].close {
      assert s[k] == arg[k - i - 1];
    }
    assert ScanTo(s, i + 1, ps[0].close) == i + 1 + |arg|;
  }

  /** The one-argument shape `\cmd{arg}`: the argument read back out of a matched text. */
  function Inner(m: string, k: nat): string {
    if |m| >= k + 2 then m[k + 1..|m| - 1] else m
  }

  /** A pattern `prefix{...}` applied to exactly `prefix{arg}` replaces the whole text once. */
  lemma SubWhole(prefix: string, arg: string, min: nat, f: string -> string)
    requires |prefix| > 0 && '}' !in arg && |arg| >= min
    ensures var s := prefix + "{" + arg + "}";
            Sub(s, [Lit(prefix), Group('{', '}', min)], f) == f(s)
            && Inner(s, |prefix|) == arg
  {
    var s := prefix + "{" + arg + "}";
    var ps := [Lit(prefix), Group('{', '}', min)];
    var n := |prefix|;
    assert s[..n] == prefix;
    MatchLit(s, 0, ps);
    assert s[n + 1..n + 1 + |arg|] == arg;
    MatchGroup(s, n, ps[1..], arg);
    assert ps[1..][1..] == [];
    assert s[0..|s|] == s;
    assert SubFrom(s, ps, f, |s|) == [];
    assert SubFrom(s, ps, f, 0) == f(s[0..|s|]) + SubFrom(s, ps, f, |s|);
    assert s[n + 1..|s| - 1] == arg;
  }

  /** Text in which no match starts between `i` and `j` is copied up to `j`. */
  lemma {:induction false} SubFromSkip(s: string, ps: seq<Piece>, f: string -> string, i: nat, j: nat)
    requires Anchored(ps) && i <= j <= |s|
    requires forall k | i <= k < j :: MatchFrom(s, k, ps).None?
    ensures SubFrom(s, ps, f, i) == s[i..j] + SubFrom(s, ps, f, j)
    decreases j - i
  {
    if i < j {
      assert MatchFrom(s, i, ps).None?;
      assert SubFrom(s, ps, f, i) == [s[i]] + SubFrom(s, ps, f, i + 1);
      SubFromSkip(s, ps, f, i + 1, j);
      assert s[i..j] == [s[i]] + s[i + 1..j];
      assert [s[i]] + (s[i + 1..j] + SubFrom(s, ps, f, j)) == ([s[i]] + s[i + 1..j]) + SubFrom(s, ps, f, j);
    }
  }

  /** No match starts where the text lacks the first character of the head literal. */
  lemma NoMatchAt(s: string, ps: seq<Piece>, k: nat)
    requires Anchored(ps) && k < |s| && s[k] != ps[0].w[0]
    ensures MatchFrom(s, k, ps).None?
  {
    var w := ps[0].w;
    if k + |w| <= |s| {
      assert s[k..k + |w|][0] == s[k];
    }
  }

  /** No match starts in a tail that lacks some character `c` of the head literal. */
  lemma NoMatchIn(s: string, ps: seq<Piece>, e: nat, c: char)
    requires Anchored(ps) && e <= |s| && c in ps[0].w && c !in s[e..]
    ensures forall k | e <= k < |s| :: MatchFrom(s, k, ps).None?
  {
    var w := ps[0].w;
    var i :| 0 <= i < |w| && w[i] == c;
    forall k | e <= k < |s| ensures MatchFrom(s, k, ps).None? {
      if k + |w| <= |s| {
        assert s[k..k + |w|][i] == s[e..][k + i - e];
      }
    }
  }

  /**
    * One match `m` of `ps`, with no character before it that could start the
    * head literal and, after it, text lacking some character `c` of the head
    * literal: `re.sub` replaces that match and copies the rest.
    */
  lemma SubOne(x: string, m: string, y: string, ps: seq<Piece>, f: string -> string, c: char)
    requires Anchored(ps) && ps[0].w[0] !in x && c in ps[0].w && c !in y
    requires MatchFrom(x + m + y, |x|, ps) == Some(|x| + |m|)
    ensures Sub(x + m + y, ps, f) == x + f(m) + y
  {
    var s := x + m + y;
    var e := |x| + |m|;
    forall k | 0 <= k < |x| ensures MatchFrom(s, k, ps).None? {
      assert s[k] == x[k];
      NoMatchAt(s, ps, k);
    }
    SubFromSkip(s, ps, f, 0, |x|);
    assert s[e..] == y;
    NoMatchIn(s, ps, e, c);
    SubFromNoMatch(s, ps, f, e);
    assert s[0..|x|] == x && s[|x|..e] == m;
  }
}
