/**
  * The LaTeX normaliser that runs before pandoc: `\input` resolution,
  * citation replacement, and the ordered chain of textual clean-ups that
  * drops visual-only commands, keeps the content of wrappers, strips
  * comments and collapses blank lines.
  */
module Normalizer {
  import opened Xml
  import opened Patterns
  import opened Braces

  /** A pattern that cannot match the empty string, as every pattern of the normaliser. */
  type Pattern = ps: seq<Piece> | Anchored(ps) witness [Lit("\\")]

  /** One `re.sub(pattern, replacement, body)` call; the replacement sees the matched text. */
  datatype Rule = Rule(ps: Pattern, f: string -> string)

  function Drop(ps: Pattern): Rule { Rule(ps, _ => "") }

  function Apply(s: string, r: Rule): string { Sub(s, r.ps, r.f) }

  /** The rules applied one after the other, first to last. */
  function ApplyAll(s: string, rules: seq<Rule>): string
    decreases |rules|
  {
    if rules == [] then s else Apply(ApplyAll(s, rules[..|rules| - 1]), rules[|rules| - 1])
  }

  lemma {:induction false} ApplyAllConcat(s: string, a: seq<Rule>, b: seq<Rule>)
    ensures ApplyAll(s, a + b) == ApplyAll(ApplyAll(s, a), b)
    decreases |b|
  {
    if b == [] {
      assert a + b == a;
    } else {
      assert (a + b)[..|a + b| - 1] == a + b[..|b| - 1];
      ApplyAllConcat(s, a, b[..|b| - 1]);
    }
  }

  /** Rules that each leave `s` alone leave it alone together. */
  lemma {:induction false} ApplyAllFixed(s: string, rules: seq<Rule>)
    requires forall i | 0 <= i < |rules| :: Apply(s, rules[i]) == s
    ensures ApplyAll(s, rules) == s
    decreases |rules|
  {
    if rules != [] {
      ApplyAllFixed(s, rules[..|rules| - 1]);
    }
  }

  /** The first rule, then the others. */
  lemma ApplyAllFirst(s: string, rules: seq<Rule>)
    requires rules != []
    ensures ApplyAll(s, rules) == ApplyAll(Apply(s, rules[0]), rules[1..])
  {
    ApplyAllConcat(s, rules[..1], rules[1..]);
    assert rules[..1] + rules[1..] == rules;
    assert rules[..1][..0] == [];
  }

  // ---------------------------------------------------------------------------
  // Citations
  // ---------------------------------------------------------------------------

  /** Citation key to the readable Arabic author-and-year text. */
  const CITATIONS: map<string, string> := map[
    "buhalis2020" := "بوهاليس، 2020",
    "phocuswright2022" := "فوكسرايت، 2022",
    "cooper2018" := "كوبر، 2018",
    "unwto2023" := "منظمة السياحة العالمية، 2023",
    "middleton2009" := "ميدلتون وفايال، 2009",
    "alshammari2018" := "الشمري، 2018",
    "kracht2010" := "كراخت وونغ، 2010",
    "standing2014" := "ستاندينغ وآخرون، 2014",
    "iata2023" := "إياتا، 2023",
    "zeithaml2018" := "زايتمل، 2018",
    "law2014" := "لو وآخرون، 2014",
    "porter2008" := "بورتر، 2008",
    "xiang2015" := "شيانغ وآخرون، 2015",
    "amaro2015" := "أمارو وديوغو، 2015",
    "google2022" := "غوغل، 2022",
    "statista2023" := "ستاتيستا، 2023",
    "booking2023" := "بوكينغ، 2023",
    "laudon2020" := "لودون، 2020",
    "albalushi2019" := "البلوشي، 2019",
    "alhammad2021" := "الحماد، 2021",
    "alqahtani2020" := "القحطاني، 2020",
    "euromonitor2023" := "يورومونيتور، 2023",
    "mckinsey2022" := "ماكنزي، 2022",
    "wttc2023" := "مجلس السفر والسياحة العالمي، 2023",
    "bennett2012" := "بينيت، 2012",
    "christensen2016" := "كريستنسن، 2016",
    "booking2022" := "بوكينغ، 2022",
    "kotler2017" := "كوتلر وكيلر، 2017",
    "drucker2015" := "دراكر، 2015",
    "inversini2014" := "إنفرسيني وماسيرو، 2014",
    "wahab2012" := "وهاب، 2012",
    "alnajjar2017" := "النجار، 2017"
  ]

  const CITE: Pattern := [Lit("\\parencite"), Group('{', '}', 0)]

  /** `replace_cite`: the key's readable text in parentheses, or the key itself when it is unknown. */
  function ReplaceCite(m: string): string {
    var key := Inner(m, 10);
    "(" + (if key in CITATIONS then CITATIONS[key] else key) + ")"
  }

  /** A `\parencite{key}` becomes the parenthesised name for a known key and the parenthesised key otherwise. */
  lemma CiteReplaced(key: string)
    requires '}' !in key
    ensures Sub("\\parencite{" + key + "}", CITE, ReplaceCite)
         == "(" + (if key in CITATIONS then CITATIONS[key] else key) + ")"
    ensures key in CITATIONS ==> Sub("\\parencite{" + key + "}", CITE, ReplaceCite) == "(" + CITATIONS[key] + ")"
  {
    assert "\\parencite{" + key + "}" == "\\parencite" + "{" + key + "}";
    SubWhole("\\parencite", key, 0, ReplaceCite);
  }

  /** `\textenglish{x}` keeps `x`. */
  lemma TextEnglishKept(x: string)
    requires '}' !in x
    ensures Apply("\\textenglish{" + x + "}", WRAPPER_RULES[0]) == x
  {
    assert "\\textenglish{" + x + "}" == "\\textenglish" + "{" + x + "}";
    SubWhole("\\textenglish", x, 0, WRAPPER_RULES[0].f);
  }

  // ---------------------------------------------------------------------------
  // \input resolution
  // ---------------------------------------------------------------------------

  const INPUT: Pattern := [Lit("\\input"), Group('{', '}', 1)]

  /** The file an `\input{name}` refers to: `name`, with `.tex` added unless it already ends so. */
  function InputFile(name: string): (r: string)
    ensures EndsWith(r, ".tex")
    ensures EndsWith(name, ".tex") ==> r == name
  {
    if EndsWith(name, ".tex") then name else name + ".tex"
  }

  /** One `replace_input`: the file's text when it exists, the match itself otherwise. */
  function ReplaceInput(files: map<string, string>, m: string): string {
    var file := InputFile(Inner(m, 6));
    if file in files then files[file] else m
  }

  /** One substitution pass over every `\input{...}`. */
  function InputPass(files: map<string, string>): string -> string {
    s => Sub(s, INPUT, m => ReplaceInput(files, m))
  }

  /** The text a pass leaves as it is. */
  predicate Settled(s: string, pass: string -> string) {
    pass(s) == s
  }

  /** `k` passes. */
  function Iterate(s: string, pass: string -> string, k: nat): string
    decreases k
  {
    if k == 0 then s else Iterate(pass(s), pass, k - 1)
  }

  /**
    * Passes are repeated until one of them changes nothing; at most `fuel`
    * changing passes are allowed, and `None` says the budget ran out.
    */
  function Resolve(s: string, pass: string -> string, fuel: nat): (r: Option<string>)
    ensures r.Some? ==> Settled(r.value, pass)
    ensures r.None? ==> forall k | 0 <= k <= fuel :: !Settled(Iterate(s, pass, k), pass)
    decreases fuel
  {
    var t := pass(s);
    if t == s then Some(s)
    else if fuel == 0 then None
    else Resolve(t, pass, fuel - 1)
  }

  /** `resolve_inputs`: loop until a pass leaves the text as it was. */
  method ResolveInputs(content: string, files: map<string, string>, maxPasses: nat) returns (r: Option<string>)
    ensures r == Resolve(content, InputPass(files), maxPasses)
    ensures r.Some? ==> Settled(r.value, InputPass(files))
  {
    r := Fixpoint(content, InputPass(files), maxPasses);
  }

  /** The loop of `resolve_inputs` for any pass: the previous text is kept to compare with the next. */
  method Fixpoint(content: string, pass: string -> string, maxPasses: nat) returns (r: Option<string>)
    ensures r == Resolve(content, pass, maxPasses)
    ensures r.Some? ==> Settled(r.value, pass)
  {
    var cur := content;
    var prev: Option<string> := None;
    var left := maxPasses;
    while prev != Some(cur)
      invariant prev.None? ==> cur == content && left == maxPasses
      invariant prev.Some? ==> cur == pass(prev.value)
                               && Resolve(content, pass, maxPasses) == Resolve(prev.value, pass, left)
      decreases left, if prev.None? then 1 else 0
    {
      if prev.Some? {
        if left == 0 {
          return None;
        }
        left := left - 1;
      }
      prev := Some(cur);
      cur := pass(cur);
    }
    r := prev;
  }

  /** The result is the first settled iterate, whenever that lies within the budget. */
  lemma {:induction false} ResolveFindsFirst(s: string, pass: string -> string, fuel: nat, k: nat)
    requires k <= fuel && Settled(Iterate(s, pass, k), pass)
    requires forall j | 0 <= j < k :: !Settled(Iterate(s, pass, j), pass)
    ensures Resolve(s, pass, fuel) == Some(Iterate(s, pass, k))
    decreases k
  {
    if k > 0 {
      assert !Settled(Iterate(s, pass, 0), pass);
      forall j | 0 <= j < k - 1 ensures !Settled(Iterate(pass(s), pass, j), pass) {
        assert Iterate(s, pass, j + 1) == Iterate(pass(s), pass, j);
      }
      ResolveFindsFirst(pass(s), pass, fuel - 1, k - 1);
    }
  }

  /** A larger budget never changes an answer that was already reached. */
  lemma {:induction false} ResolveMonotone(s: string, pass: string -> string, fuel: nat, more: nat)
    requires Resolve(s, pass, fuel).Some?
    ensures Resolve(s, pass, fuel + more) == Resolve(s, pass, fuel)
    decreases fuel
  {
    if pass(s) != s {
      ResolveMonotone(pass(s), pass, fuel - 1, more);
    }
  }

  /** Text without a backslash is settled at once. */
  lemma ResolvePlain(s: string, files: map<string, string>, fuel: nat)
    requires '\\' !in s
    ensures Resolve(s, InputPass(files), fuel) == Some(s)
  {
    SubInert(s, INPUT, m => ReplaceInput(files, m), '\\');
  }

  /** `\input{name}` of an existing file becomes that file's text. */
  lemma ResolveIncludes(name: string, files: map<string, string>)
    requires '}' !in name && name != [] && InputFile(name) in files
    requires '\\' !in files[InputFile(name)]
    ensures Resolve("\\input{" + name + "}", InputPass(files), 1) == Some(files[InputFile(name)])
  {
    var s := "\\input{" + name + "}";
    assert s == "\\input" + "{" + name + "}";
    SubWhole("\\input", name, 1, m => ReplaceInput(files, m));
    ResolvePlain(files[InputFile(name)], files, 0);
  }

  /** `\input{name}` of a missing file is left in place. */
  lemma ResolveMissing(name: string, files: map<string, string>, fuel: nat)
    requires '}' !in name && name != [] && InputFile(name) !in files
    ensures Resolve("\\input{" + name + "}", InputPass(files), fuel) == Some("\\input{" + name + "}")
  {
    var s := "\\input{" + name + "}";
    assert s == "\\input" + "{" + name + "}";
    SubWhole("\\input", name, 1, m => ReplaceInput(files, m));
  }

  // ---------------------------------------------------------------------------
  // The clean-up chain
  // ---------------------------------------------------------------------------

  const G: Piece := Group('{', '}', 0)
  const OPTIONAL_ARG: Piece := Maybe(Group('[', ']', 0))

  /** Wrappers whose argument is kept, and citations. */
  const WRAPPER_RULES: seq<Rule> := [
    Rule([Lit("\\textenglish"), G], m => Inner(m, 12)),
    Rule(CITE, ReplaceCite)
  ]

  /** `\\vspace\*?\{[^}]*\}` */
  const VSPACE: Pattern := [Lit("\\vspace"), Maybe(Lit("*")), G]

  /** Visual spacing and page commands, dropped with their arguments. */
  const SPACING_RULES: seq<Rule> := [
    Drop(VSPACE),
    Drop([Lit("\\vfill")]),
    Drop([Lit("\\newpage")]),
    Drop([Lit("\\thispagestyle"), G]),
    Drop([Lit("\\pagenumbering"), G])
  ]

  const MARK_RULES: seq<Rule> := [
    Drop([Lit("\\markboth"), G, G]),
    Drop([Lit("\\addcontentsline"), G, G, G]),
    Drop([Lit("\\blankpage")]),
    Drop([Lit("\\tableofcontents")])
  ]

  const LIST_RULES: seq<Rule> := [
    Drop([Lit("\\listoftables")]),
    Drop([Lit("\\listoffigures")]),
    Drop([Lit("\\setlength"), G, G]),
    Drop([Lit("\\renewcommand"), G, G]),
    Drop([Lit("\\centering")])
  ]

  const PAGE_RULES: seq<Rule> := WRAPPER_RULES + SPACING_RULES + MARK_RULES + LIST_RULES

  const SIZES: seq<string> := ["Huge", "LARGE", "Large", "large", "normalsize", "small",
                               "footnotesize", "scriptsize", "tiny"]

  /** A font-size command, only as a whole word. */
  function SizeRule(cmd: string): Rule {
    Drop([Lit("\\" + cmd), WordEnd])
  }

  /** One whole-word removal per command, in the commands' order. */
  function SizeRules(cmds: seq<string>): (rs: seq<Rule>)
    ensures |rs| == |cmds|
    ensures forall i | 0 <= i < |cmds| :: rs[i] == SizeRule(cmds[i])
  {
    if cmds == [] then [] else SizeRules(cmds[..|cmds| - 1]) + [SizeRule(cmds[|cmds| - 1])]
  }

  /** `\hfill` is dropped; a `\\[0.3cm]` break loses its length. */
  const LAYOUT_RULES: seq<Rule> := [
    Drop([Lit("\\hfill")]),
    Rule([Lit("\\\\["), Digits, Lit("cm]")], _ => "\\\\")
  ]

  const ENVS: seq<string> := ["minipage", "flushright", "flushleft", "titlepage"]

  /** The begin markers (with an optional bracket and a brace argument, then bare) and the end marker of an environment. */
  function EnvRules(env: string): seq<Rule> {
    [ Drop([Lit("\\begin{" + env + "}"), OPTIONAL_ARG, G]),
      Drop([Lit("\\begin{" + env + "}"), OPTIONAL_ARG]),
      Drop([Lit("\\end{" + env + "}")]) ]
  }

  function EnvRuleList(envs: seq<string>): seq<Rule> {
    if envs == [] then [] else EnvRuleList(envs[..|envs| - 1]) + EnvRules(envs[|envs| - 1])
  }

  /** Labels and references go; "the table \ref{..}" reads "the following table". */
  const REF_RULES: seq<Rule> := [
    Drop([Lit("\\label"), G]),
    Rule([Lit("الجدول \\ref"), G], _ => "الجدول التالي"),
    Drop([Lit("\\ref"), G])
  ]

  const TABLE_RULES: seq<Rule> := [
    Rule([Lit("\\cline"), G], _ => "\\hline"),
    Rule([Lit("\\ldots")], _ => "..."),
    Drop([Lit("[H]")])
  ]

  const TAIL_RULES: seq<Rule> := [
    Drop([Lit("\\printbibliography"), OPTIONAL_ARG]),
    Rule([Lit("\\parbox"), G, Lit("{")], _ => "{"),
    Rule([Lit("$\\rightarrow$")], _ => "→"),
    Rule([Lit("$\\blacktriangleright$")], _ => "►")
  ]

  // ---------------------------------------------------------------------------
  // Comments
  // ---------------------------------------------------------------------------

  /** What may stand before a `%` that opens a comment. */
  datatype CommentKind = LineStart | Unescaped

  predicate Opens(kind: CommentKind, s: string, i: nat)
    requires i < |s|
  {
    s[i] == '%' && (i == 0 || (if kind == LineStart then s[i - 1] == '\n' else s[i - 1] != '\\'))
  }

  /**
    * `^%.*$` (multi-line) for `LineStart`, `(?<!\\)%.*$` for `Unescaped`:
    * from an opening `%` up to, but not including, the end of its line.
    */
  function StripFrom(s: string, kind: CommentKind, i: nat): string
    requires i <= |s|
    decreases |s| - i
  {
    if i == |s| then []
    else if Opens(kind, s, i) then StripFrom(s, kind, ScanTo(s, i, '\n'))
    else [s[i]] + StripFrom(s, kind, i + 1)
  }

  function StripComments(s: string, kind: CommentKind): string {
    StripFrom(s, kind, 0)
  }

  /** Whether the `%` at `k` of the output stands where the pattern would not open a comment. */
  predicate Guarded(kind: CommentKind, prev: char) {
    if kind == LineStart then prev != '\n' else prev == '\\'
  }

  lemma {:induction false} StripFromGuarded(s: string, kind: CommentKind, i: nat)
    requires i <= |s|
    ensures var r := StripFrom(s, kind, i);
            forall k | 0 < k < |r| && r[k] == '%' :: Guarded(kind, r[k - 1])
    ensures var r := StripFrom(s, kind, i);
            |r| > 0 && r[0] == '%' ==> 0 < i <= |s| && Guarded(kind, s[i - 1])
    decreases |s| - i
  {
    if i < |s| {
      var r := StripFrom(s, kind, i);
      if Opens(kind, s, i) {
        var j := ScanTo(s, i, '\n');
        assert r == StripFrom(s, kind, j);
        StripFromGuarded(s, kind, j);
        if j < |s| {
          assert !Opens(kind, s, j);
          assert r[0] == '\n';
        }
      } else {
        StripFromGuarded(s, kind, i + 1);
        var rest := StripFrom(s, kind, i + 1);
        assert r == [s[i]] + rest;
        forall k | 0 < k < |r| && r[k] == '%' ensures Guarded(kind, r[k - 1]) {
          assert rest[k - 1] == '%';
          if k > 1 {
            assert r[k - 1] == rest[k - 2];
          }
        }
      }
    }
  }

  /** After the inline pass every remaining `%` is an escaped `\%`. */
  lemma InlineCommentsGone(s: string)
    ensures var r := StripComments(s, Unescaped);
            forall k | 0 <= k < |r| && r[k] == '%' :: k > 0 && r[k - 1] == '\\'
  {
    StripFromGuarded(s, Unescaped, 0);
    var r := StripComments(s, Unescaped);
    assert forall k | 0 < k < |r| && r[k] == '%' :: Guarded(Unescaped, r[k - 1]);
  }

  /** After the line pass no line of the text starts with `%`. */
  lemma LineCommentsGone(s: string)
    ensures var r := StripComments(s, LineStart);
            forall k | 0 <= k < |r| && r[k] == '%' :: k > 0 && r[k - 1] != '\n'
  {
    StripFromGuarded(s, LineStart, 0);
    var r := StripComments(s, LineStart);
    assert forall k | 0 < k < |r| && r[k] == '%' :: Guarded(LineStart, r[k - 1]);
  }

  lemma {:induction false} StripFromInert(s: string, kind: CommentKind, i: nat)
    requires i <= |s| && '%' !in s
    ensures StripFrom(s, kind, i) == s[i..]
    decreases |s| - i
  {
    if i < |s| {
      StripFromInert(s, kind, i + 1);
      assert s[i..] == [s[i]] + s[i + 1..];
    }
  }

  // ---------------------------------------------------------------------------
  // Blank lines
  // ---------------------------------------------------------------------------

  predicate NoFourNewlines(s: string) {
    forall k | 0 <= k && k + 3 < |s| :: !(s[k] == '\n' && s[k + 1] == '\n' && s[k + 2] == '\n' && s[k + 3] == '\n')
  }

  /** The end of the run of newlines that starts at `i`. */
  function RunEnd(s: string, i: nat): (j: nat)
    requires i <= |s|
    ensures i <= j <= |s|
    ensures forall k | i <= k < j :: s[k] == '\n'
    ensures j < |s| ==> s[j] != '\n'
    decreases |s| - i
  {
    if i < |s| && s[i] == '\n' then RunEnd(s, i + 1) else i
  }

  /** `\n{4,}` to three newlines: a run of four or more is cut to three, shorter runs stay. */
  function CollapseFrom(s: string, i: nat): string
    requires i <= |s|
    decreases |s| - i
  {
    if i == |s| then []
    else if s[i] == '\n' then
      var j := RunEnd(s, i);
      (if j - i >= 4 then "\n\n\n" else s[i..j]) + CollapseFrom(s, j)
    else [s[i]] + CollapseFrom(s, i + 1)
  }

  function Collapse(s: string): (r: string)
    ensures NoFourNewlines(r)
  {
    CollapseFromBounded(s, 0);
    CollapseFrom(s, 0)
  }

  /** A run of `k` newlines. */
  function Newlines(k: nat): (r: string)
    ensures |r| == k && forall i | 0 <= i < k :: r[i] == '\n'
  {
    seq(k, _ => '\n')
  }

  /** Text ahead of `q` moves where a run ends by its own length. */
  lemma {:induction false} RunEndShift(p: string, q: string, i: nat)
    requires i <= |q|
    ensures RunEnd(p + q, |p| + i) == |p| + RunEnd(q, i)
    decreases |q| - i
  {
    if i < |q| {
      assert (p + q)[|p| + i] == q[i];
      RunEndShift(p, q, i + 1);
    }
  }

  /** Collapsing from inside `q` does not look at the text ahead of it. */
  lemma {:induction false} CollapseShift(p: string, q: string, i: nat)
    requires i <= |q|
    ensures CollapseFrom(p + q, |p| + i) == CollapseFrom(q, i)
    decreases |q| - i
  {
    if i < |q| {
      var j := if q[i] == '\n' then RunEnd(q, i) else i + 1;
      CollapseShift(p, q, j);
      ShiftStep(p, q, i);
    }
  }

  /** One step of `CollapseShift`: the piece collapsed at `i` is the same in `p + q` as in `q`. */
  lemma ShiftStep(p: string, q: string, i: nat)
    requires i < |q|
    requires var j := if q[i] == '\n' then RunEnd(q, i) else i + 1;
             CollapseFrom(p + q, |p| + j) == CollapseFrom(q, j)
    ensures CollapseFrom(p + q, |p| + i) == CollapseFrom(q, i)
  {
    if q[i] == '\n' {
      ShiftRun(p, q, i);
    } else {
      ShiftChar(p, q, i);
    }
  }

  lemma ShiftRun(p: string, q: string, i: nat)
    requires i < |q| && q[i] == '\n'
    requires CollapseFrom(p + q, |p| + RunEnd(q, i)) == CollapseFrom(q, RunEnd(q, i))
    ensures CollapseFrom(p + q, |p| + i) == CollapseFrom(q, i)
  {
    var s := p + q;
    assert s[|p| + i] == q[i];
    RunEndShift(p, q, i);
    SliceAfter(p, q, i, RunEnd(q, i));
    RunsAlike(s, |p| + i, q, i);
  }

  /** Two runs with the same newlines and the same collapsed rest collapse alike. */
  lemma RunsAlike(s: string, a: nat, t: string, b: nat)
    requires a < |s| && b < |t| && s[a] == '\n' && t[b] == '\n'
    requires s[a..RunEnd(s, a)] == t[b..RunEnd(t, b)]
    requires CollapseFrom(s, RunEnd(s, a)) == CollapseFrom(t, RunEnd(t, b))
    ensures CollapseFrom(s, a) == CollapseFrom(t, b)
  {
    assert |s[a..RunEnd(s, a)]| == |t[b..RunEnd(t, b)]|;
  }

  lemma ShiftChar(p: string, q: string, i: nat)
    requires i < |q| && q[i] != '\n'
    requires CollapseFrom(p + q, |p| + i + 1) == CollapseFrom(q, i + 1)
    ensures CollapseFrom(p + q, |p| + i) == CollapseFrom(q, i)
  {
    assert (p + q)[|p| + i] == q[i];
  }

  lemma SliceAfter(p: string, q: string, i: nat, j: nat)
    requires i <= j <= |q|
    ensures (p + q)[|p| + i..|p| + j] == q[i..j]
  {
  }

  lemma SliceBefore(x: string, y: string, i: nat, j: nat)
    requires i <= j <= |x|
    ensures (x + y)[i..j] == x[i..j]
  {
  }

  /** A run inside `x` ends inside `x` when `x` ends otherwise than with a newline. */
  lemma {:induction false} RunEndPrefix(x: string, y: string, i: nat)
    requires i < |x| && x[|x| - 1] != '\n'
    ensures RunEnd(x + y, i) == RunEnd(x, i) < |x|
    decreases |x| - i
  {
    assert (x + y)[i] == x[i];
    if x[i] == '\n' {
      RunEndPrefix(x, y, i + 1);
    }
  }

  /** Text that ends otherwise than with a newline is collapsed apart from what follows it. */
  lemma {:induction false} CollapseSplit(x: string, y: string, i: nat)
    requires i <= |x| && (x == [] || x[|x| - 1] != '\n')
    ensures CollapseFrom(x + y, i) == CollapseFrom(x, i) + CollapseFrom(y, 0)
    decreases |x| - i
  {
    if i == |x| {
      CollapseShift(x, y, 0);
      assert CollapseFrom(x, i) == [];
    } else {
      var j := if x[i] == '\n' then RunEnd(x, i) else i + 1;
      CollapseSplit(x, y, j);
      SplitStep(x, y, i);
    }
  }

  /** One step of `CollapseSplit`: the piece collapsed at `i` is the same in `x + y` as in `x`. */
  lemma SplitStep(x: string, y: string, i: nat)
    requires i < |x| && x[|x| - 1] != '\n'
    requires var j := if x[i] == '\n' then RunEnd(x, i) else i + 1;
             CollapseFrom(x + y, j) == CollapseFrom(x, j) + CollapseFrom(y, 0)
    ensures CollapseFrom(x + y, i) == CollapseFrom(x, i) + CollapseFrom(y, 0)
  {
    var s := x + y;
    assert s[i] == x[i];
    var head, j;
    if x[i] == '\n' {
      j := RunEnd(x, i);
      assert RunEnd(s, i) == j && s[i..j] == x[i..j] by {
        RunEndPrefix(x, y, i);
        SliceBefore(x, y, i, j);
      }
      head := if j - i >= 4 then "\n\n\n" else x[i..j];
    } else {
      j := i + 1;
      head := [x[i]];
    }
    assert CollapseFrom(s, i) == head + CollapseFrom(s, j);
    assert head + (CollapseFrom(x, j) + CollapseFrom(y, 0)) == (head + CollapseFrom(x, j)) + CollapseFrom(y, 0);
  }

  /** A run of `k` newlines before text that starts otherwise ends after `k`. */
  lemma {:induction false} NewlinesRun(k: nat, b: string, i: nat)
    requires i <= k && (b == [] || b[0] != '\n')
    ensures RunEnd(Newlines(k) + b, i) == k
    decreases k - i
  {
    var s := Newlines(k) + b;
    if i < k {
      assert s[i] == '\n';
      NewlinesRun(k, b, i + 1);
    } else if i < |s| {
      assert s[i] == b[0];
    }
  }

  /**
    * `\n{4,}` to three newlines, run by run: a run of four or more newlines
    * between text that does not continue it becomes exactly three, and the
    * text on either side is collapsed on its own.
    */
  lemma CollapseLongRun(a: string, k: nat, b: string)
    requires k >= 4
    requires a == [] || a[|a| - 1] != '\n'
    requires b == [] || b[0] != '\n'
    ensures Collapse(a + Newlines(k) + b) == Collapse(a) + "\n\n\n" + Collapse(b)
  {
    var nb := Newlines(k) + b;
    assert a + Newlines(k) + b == a + nb;
    CollapseSplit(a, nb, 0);
    LongRunHead(k, b);
  }

  /** Collapsing from a run of four or more newlines: three newlines, then the rest collapsed. */
  lemma LongRunHead(k: nat, b: string)
    requires k >= 4
    requires b == [] || b[0] != '\n'
    ensures CollapseFrom(Newlines(k) + b, 0) == "\n\n\n" + CollapseFrom(b, 0)
  {
    var nb := Newlines(k) + b;
    assert nb[0] == '\n';
    NewlinesRun(k, b, 0);
    CollapseShift(Newlines(k), b, 0);
  }


  /** At most three newlines followed by text that starts otherwise. */
  lemma ShortRunThen(a: string, b: string)
    requires |a| <= 3 && NoFourNewlines(b) && (b == [] || b[0] != '\n')
    ensures NoFourNewlines(a + b)
  {
    var r := a + b;
    forall k | 0 <= k && k + 3 < |r|
      ensures !(r[k] == '\n' && r[k + 1] == '\n' && r[k + 2] == '\n' && r[k + 3] == '\n')
    {
      if k < |a| {
        assert r[|a|] == b[0];
      } else {
        assert r[k + 3] == b[k + 3 - |a|];
      }
    }
  }

  /** A character other than a newline in front. */
  lemma VisibleThen(c: char, b: string)
    requires c != '\n' && NoFourNewlines(b)
    ensures NoFourNewlines([c] + b)
  {
    var r := [c] + b;
    forall k | 0 < k && k + 3 < |r|
      ensures !(r[k] == '\n' && r[k + 1] == '\n' && r[k + 2] == '\n' && r[k + 3] == '\n')
    {
      assert r[k + 3] == b[k + 2];
    }
  }

  lemma {:induction false} CollapseFromBounded(s: string, i: nat)
    requires i <= |s|
    ensures NoFourNewlines(CollapseFrom(s, i))
    ensures i < |s| && s[i] != '\n' ==> |CollapseFrom(s, i)| > 0 && CollapseFrom(s, i)[0] == s[i]
    decreases |s| - i
  {
    if i < |s| {
      if s[i] == '\n' {
        var j := RunEnd(s, i);
        CollapseFromBounded(s, j);
        ShortRunThen(if j - i >= 4 then "\n\n\n" else s[i..j], CollapseFrom(s, j));
      } else {
        CollapseFromBounded(s, i + 1);
        VisibleThen(s[i], CollapseFrom(s, i + 1));
      }
    }
  }

  lemma {:induction false} CollapseFromNoop(s: string, i: nat)
    requires i <= |s| && NoFourNewlines(s)
    ensures CollapseFrom(s, i) == s[i..]
    decreases |s| - i
  {
    if i < |s| {
      if s[i] == '\n' {
        var j := RunEnd(s, i);
        if i + 3 < |s| {
          assert !(s[i] == '\n' && s[i + 1] == '\n' && s[i + 2] == '\n' && s[i + 3] == '\n');
        }
        assert j - i < 4;
        CollapseFromNoop(s, j);
        assert s[i..] == s[i..j] + s[j..];
      } else {
        CollapseFromNoop(s, i + 1);
        assert s[i..] == [s[i]] + s[i + 1..];
      }
    }
  }

  /** Collapsing twice is collapsing once. */
  lemma CollapseIdempotent(s: string)
    ensures Collapse(Collapse(s)) == Collapse(s)
  {
    CollapseFromNoop(Collapse(s), 0);
  }

  /** Everything but newlines: what collapsing blank lines must not touch. */
  function Visible(s: string): (r: string)
    ensures '\n' !in r
  {
    if s == [] then [] else Visible(s[..|s| - 1]) + (if s[|s| - 1] == '\n' then [] else [s[|s| - 1]])
  }

  lemma {:induction false} VisibleConcat(a: string, b: string)
    ensures Visible(a + b) == Visible(a) + Visible(b)
    decreases |b|
  {
    if b == [] {
      assert a + b == a;
    } else {
      assert (a + b)[..|a + b| - 1] == a + b[..|b| - 1];
      VisibleConcat(a, b[..|b| - 1]);
    }
  }

  lemma {:induction false} VisibleNewlines(s: string)
    requires forall k | 0 <= k < |s| :: s[k] == '\n'
    ensures Visible(s) == []
    decreases |s|
  {
    if s != [] {
      VisibleNewlines(s[..|s| - 1]);
    }
  }

  /** Replacing one run of newlines by another leaves the visible text alone. */
  lemma SwapRun(a: string, a': string, rest: string, rest': string)
    requires forall k | 0 <= k < |a| :: a[k] == '\n'
    requires forall k | 0 <= k < |a'| :: a'[k] == '\n'
    requires Visible(rest) == Visible(rest')
    ensures Visible(a + rest) == Visible(a' + rest')
  {
    VisibleConcat(a, rest);
    VisibleConcat(a', rest');
    VisibleNewlines(a);
    VisibleNewlines(a');
  }

  lemma SwapHead(c: char, rest: string, rest': string)
    requires Visible(rest) == Visible(rest')
    ensures Visible([c] + rest) == Visible([c] + rest')
  {
    VisibleConcat([c], rest);
    VisibleConcat([c], rest');
  }

  lemma {:induction false} CollapseFromVisible(s: string, i: nat)
    requires i <= |s|
    ensures Visible(CollapseFrom(s, i)) == Visible(s[i..])
    decreases |s| - i
  {
    if i < |s| {
      if s[i] == '\n' {
        var j := RunEnd(s, i);
        var head := if j - i >= 4 then "\n\n\n" else s[i..j];
        assert CollapseFrom(s, i) == head + CollapseFrom(s, j);
        assert s[i..] == s[i..j] + s[j..];
        assert Visible(head + CollapseFrom(s, j)) == Visible(s[i..j] + s[j..]) by {
          CollapseFromVisible(s, j);
          SwapRun(head, s[i..j], CollapseFrom(s, j), s[j..]);
        }
      } else {
        assert CollapseFrom(s, i) == [s[i]] + CollapseFrom(s, i + 1);
        assert s[i..] == [s[i]] + s[i + 1..];
        assert Visible([s[i]] + CollapseFrom(s, i + 1)) == Visible([s[i]] + s[i + 1..]) by {
          CollapseFromVisible(s, i + 1);
          SwapHead(s[i], CollapseFrom(s, i + 1), s[i + 1..]);
        }
      }
    }
  }

  /** Collapsing blank lines removes newlines only. */
  lemma CollapseKeepsText(s: string)
    ensures Visible(Collapse(s)) == Visible(s)
  {
    CollapseFromVisible(s, 0);
    assert s[0..] == s;
  }

  // ---------------------------------------------------------------------------
  // The whole chain
  // ---------------------------------------------------------------------------

  /** `clean_latex`, as a composition of its stages in source order. */
  function Clean(body: string): (r: string)
    ensures NoFourNewlines(r)
  {
    var b1 := ApplyAll(body, PAGE_RULES);
    var b2 := ApplyAll(b1, SizeRules(SIZES));
    var b3 := ApplyAll(b2, LAYOUT_RULES);
    var b4 := ApplyAll(b3, EnvRuleList(ENVS));
    var b5 := Flatten(b4, "fcolorbox");
    var b6 := ApplyAll(b5, REF_RULES);
    var b7 := Flatten(b6, "multirow");
    var b8 := ApplyAll(b7, TABLE_RULES);
    var b9 := StripComments(StripComments(b8, LineStart), Unescaped);
    var b10 := ApplyAll(b9, TAIL_RULES);
    Collapse(b10)
  }

  /** Every pattern of the chain has a backslash or a bracket in its literal head. */
  predicate Keyed(r: Rule) {
    '\\' in r.ps[0].w || '[' in r.ps[0].w
  }

  predicate AllKeyed(rules: seq<Rule>) {
    forall i | 0 <= i < |rules| :: Keyed(rules[i])
  }

  /** Prose without markup: no backslash, bracket or percent sign, and no long run of blank lines. */
  predicate Plain(s: string) {
    '\\' !in s && '[' !in s && '%' !in s && NoFourNewlines(s)
  }

  lemma {:induction false} ApplyAllPlain(s: string, rules: seq<Rule>)
    requires '\\' !in s && '[' !in s && AllKeyed(rules)
    ensures ApplyAll(s, rules) == s
    decreases |rules|
  {
    if rules != [] {
      var last := rules[|rules| - 1];
      ApplyAllPlain(s, rules[..|rules| - 1]);
      if '\\' in last.ps[0].w {
        SubInert(s, last.ps, last.f, '\\');
      } else {
        SubInert(s, last.ps, last.f, '[');
      }
    }
  }

  lemma {:induction false} SizeRulesKeyed(cmds: seq<string>)
    ensures AllKeyed(SizeRules(cmds))
    decreases |cmds|
  {
    if cmds != [] {
      SizeRulesKeyed(cmds[..|cmds| - 1]);
      assert ("\\" + cmds[|cmds| - 1])[0] == '\\';
    }
  }

  lemma {:induction false} EnvRulesKeyed(envs: seq<string>)
    ensures AllKeyed(EnvRuleList(envs))
    decreases |envs|
  {
    if envs != [] {
      EnvRulesKeyed(envs[..|envs| - 1]);
      var env := envs[|envs| - 1];
      assert ("\\begin{" + env + "}")[0] == '\\';
      assert ("\\end{" + env + "}")[0] == '\\';
    }
  }

  lemma AllKeyedConcat(a: seq<Rule>, b: seq<Rule>)
    requires AllKeyed(a) && AllKeyed(b)
    ensures AllKeyed(a + b)
  {
    forall i | 0 <= i < |a + b| ensures Keyed((a + b)[i]) {
      if i >= |a| {
        assert (a + b)[i] == b[i - |a|];
      }
    }
  }

  lemma KeyedWrappers()
    ensures AllKeyed(WRAPPER_RULES)
  {
  }

  lemma KeyedSpacing()
    ensures AllKeyed(SPACING_RULES)
  {
  }

  lemma KeyedMarks()
    ensures AllKeyed(MARK_RULES)
  {
  }

  lemma KeyedLists()
    ensures AllKeyed(LIST_RULES)
  {
  }


  lemma PageRulesKeyed()
    ensures AllKeyed(PAGE_RULES)
  {
    KeyedWrappers();
    KeyedSpacing();
    KeyedMarks();
    KeyedLists();
    AllKeyedConcat(WRAPPER_RULES, SPACING_RULES);
    AllKeyedConcat(WRAPPER_RULES + SPACING_RULES, MARK_RULES);
    AllKeyedConcat(WRAPPER_RULES + SPACING_RULES + MARK_RULES, LIST_RULES);
  }

  lemma OtherRulesKeyed()
    ensures AllKeyed(LAYOUT_RULES) && AllKeyed(TABLE_RULES) && AllKeyed(TAIL_RULES)
  {
    assert "[H]"[0] == '[';
  }

  lemma RefRulesKeyed()
    ensures AllKeyed(REF_RULES)
  {
    assert "الجدول \\ref"[7] == '\\';
  }

  /** Once the page rules leave prose without markup, the rest of the chain keeps it. */
  lemma AfterPageRules(s: string, t: string)
    requires ApplyAll(s, PAGE_RULES) == t && Plain(t)
    ensures Clean(s) == t
  {
    OtherRulesKeyed();
    RefRulesKeyed();
    SizeRulesKeyed(SIZES);
    EnvRulesKeyed(ENVS);
    ApplyAllPlain(t, SizeRules(SIZES));
    ApplyAllPlain(t, LAYOUT_RULES);
    ApplyAllPlain(t, EnvRuleList(ENVS));
    FlattenInert(t, "fcolorbox");
    ApplyAllPlain(t, REF_RULES);
    FlattenInert(t, "multirow");
    ApplyAllPlain(t, TABLE_RULES);
    StripFromInert(t, LineStart, 0);
    StripFromInert(t, Unescaped, 0);
    assert t[0..] == t;
    ApplyAllPlain(t, TAIL_RULES);
    CollapseFromNoop(t, 0);
  }

  /** Prose without markup passes through the whole chain unchanged. */
  lemma PlainUnchanged(s: string)
    requires Plain(s)
    ensures Clean(s) == s
  {
    PageRulesKeyed();
    ApplyAllPlain(s, PAGE_RULES);
    AfterPageRules(s, s);
  }

  /** A brace argument free of `}` matches `\{[^}]*\}` whole. */
  lemma GroupWhole(x: string, arg: string, y: string)
    requires '}' !in arg
    ensures MatchFrom(x + "{" + arg + "}" + y, |x|, [G]) == Some(|x| + |arg| + 2)
  {
    var s := x + "{" + arg + "}" + y;
    var n := |x|;
    assert s[n] == '{';
    assert s[n + 1..n + 1 + |arg|] == arg;
    assert s[n + 1 + |arg|] == '}';
    MatchGroup(s, n, [G], arg);
    assert [G][1..] == [];
  }

  /** `\*?\{[^}]*\}` after a star: the star is taken. */
  lemma StarredTail(x: string, arg: string, y: string)
    requires '}' !in arg
    ensures MatchFrom(x + "*" + "{" + arg + "}" + y, |x|, [Maybe(Lit("*")), G]) == Some(|x| + |arg| + 3)
  {
    var rest := "{" + arg + "}" + y;
    var s := x + "*" + rest;
    var e := |x| + |arg| + 3;
    assert x + "*" + "{" + arg + "}" + y == s;
    assert MatchFrom(s, |x| + 1, [G]) == Some(e) by {
      assert s == (x + "*") + "{" + arg + "}" + y;
      GroupWhole(x + "*", arg, y);
    }
    var starred := [Lit("*")] + [G];
    assert MatchFrom(s, |x|, starred) == Some(e) by {
      assert starred[0] == Lit("*") && starred[1..] == [G];
      LitAt(x, "*", rest);
      MatchLit(s, |x|, starred);
    }
    assert [Maybe(Lit("*")), G] == [Maybe(Lit("*"))] + [G];
    MatchMaybe(s, |x|, Lit("*"), [G]);
  }

  /** `\*?\{[^}]*\}` without a star: the star is skipped. */
  lemma BareTail(x: string, arg: string, y: string)
    requires '}' !in arg
    ensures MatchFrom(x + "{" + arg + "}" + y, |x|, [Maybe(Lit("*")), G]) == Some(|x| + |arg| + 2)
  {
    var s := x + "{" + arg + "}" + y;
    GroupWhole(x, arg, y);
    var starred := [Lit("*")] + [G];
    assert starred[0] == Lit("*");
    assert s[|x|] == '{';
    if |x| + 1 <= |s| {
      assert s[|x|..|x| + 1][0] == s[|x|];
    }
    assert MatchFrom(s, |x|, starred).None?;
    assert [Maybe(Lit("*")), G] == [Maybe(Lit("*"))] + [G];
    MatchMaybe(s, |x|, Lit("*"), [G]);
  }

  /** `\vspace{...}` and `\vspace*{...}` match the `\vspace` pattern whole. */
  lemma VspaceMatch(x: string, star: string, arg: string, y: string)
    requires star == "" || star == "*"
    requires '}' !in arg
    ensures var m := "\\vspace" + star + "{" + arg + "}";
            MatchFrom(x + m + y, |x|, VSPACE) == Some(|x| + |m|)
  {
    var m := "\\vspace" + star + "{" + arg + "}";
    var s := x + m + y;
    var i := |x| + 7;
    assert MatchFrom(s, i, [Maybe(Lit("*")), G]) == Some(|x| + |m|) by {
      if star == "*" {
        assert s == (x + "\\vspace") + "*" + "{" + arg + "}" + y;
        StarredTail(x + "\\vspace", arg, y);
      } else {
        assert s == (x + "\\vspace") + "{" + arg + "}" + y;
        BareTail(x + "\\vspace", arg, y);
      }
    }
    assert StartsAt(s, |x|, "\\vspace") by {
      assert s == x + "\\vspace" + (star + "{" + arg + "}" + y);
      LitAt(x, "\\vspace", star + "{" + arg + "}" + y);
    }
    assert VSPACE[1..] == [Maybe(Lit("*")), G];
    MatchLit(s, |x|, VSPACE);
  }

  /** The `\vspace` rule removes `\vspace{...}` and `\vspace*{...}` together with the argument. */
  lemma DropsVspace(x: string, star: string, arg: string, y: string)
    requires '\\' !in x && (star == "" || star == "*") && '}' !in arg && 'v' !in y
    ensures Apply(x + "\\vspace" + star + "{" + arg + "}" + y, SPACING_RULES[0]) == x + y
  {
    var m := "\\vspace" + star + "{" + arg + "}";
    assert x + m + y == x + "\\vspace" + star + "{" + arg + "}" + y;
    VspaceMatch(x, star, arg, y);
    assert SPACING_RULES[0].f(m) == "";
    SubOne(x, m, y, SPACING_RULES[0].ps, SPACING_RULES[0].f, 'v');
  }

  /** A rule dropping a bare command `w` (`\vfill`, `\newpage`) removes it. */
  lemma DropsBare(x: string, w: string, y: string, c: char)
    requires |w| > 0 && w[0] !in x && c in w && c !in y
    ensures Apply(x + w + y, Drop([Lit(w)])) == x + y
  {
    var s := x + w + y;
    assert s[|x|..|x| + |w|] == w;
    MatchLit(s, |x|, [Lit(w)]);
    SubOne(x, w, y, [Lit(w)], Drop([Lit(w)]).f, c);
  }

  /**
    * A page of prose `t` opened by `\vspace*{arg}` and closed by `\newpage`.
    * The letters kept out of `arg` and `t` are the ones whose absence shows
    * that the `\textenglish`, `\parencite` and `\vfill` patterns find nothing.
    */
  predicate SpacedPage(arg: string, t: string) {
    '}' !in arg && 'l' !in arg && 'r' !in arg
    && Plain(t) && 'l' !in t && 'r' !in t && 'v' !in t && 'f' !in t
  }

  function Spaced(arg: string, t: string): string {
    "\\vspace*{" + arg + "}" + t + "\\newpage"
  }

  /** `\textenglish{...}` cannot match text without an `l`. */
  lemma TextenglishSkips(s: string)
    requires 'l' !in s
    ensures Apply(s, WRAPPER_RULES[0]) == s
  {
    SubInert(s, WRAPPER_RULES[0].ps, WRAPPER_RULES[0].f, 'l');
  }

  /** `\parencite{...}` cannot match text without an `r`. */
  lemma CiteSkips(s: string)
    requires 'r' !in s
    ensures Apply(s, WRAPPER_RULES[1]) == s
  {
    SubInert(s, CITE, ReplaceCite, 'r');
  }

  /** The wrapper rules find nothing on such a page. */
  lemma WrappersSkipSpaced(arg: string, t: string)
    requires 'l' !in arg && 'r' !in arg && 'l' !in t && 'r' !in t
    ensures ApplyAll(Spaced(arg, t), WRAPPER_RULES) == Spaced(arg, t)
  {
    var s := Spaced(arg, t);
    TextenglishSkips(s);
    CiteSkips(s);
    ApplyAllFirst(s, WRAPPER_RULES);
    ApplyAllFirst(s, WRAPPER_RULES[1..]);
    assert WRAPPER_RULES[1..][1..] == [];
  }

  /** `\vfill` cannot match text without an `f`. */
  lemma VfillSkips(s: string)
    requires 'f' !in s
    ensures Apply(s, SPACING_RULES[1]) == s
  {
    SubInert(s, SPACING_RULES[1].ps, SPACING_RULES[1].f, 'f');
  }

  /** A closing `\newpage` is dropped. */
  lemma NewpageDrops(t: string)
    requires '\\' !in t
    ensures Apply(t + "\\newpage", SPACING_RULES[2]) == t
  {
    assert t + "\\newpage" == t + "\\newpage" + "";
    DropsBare(t, "\\newpage", "", 'n');
  }

  /** `\thispagestyle{...}` and `\pagenumbering{...}` cannot match text without a backslash. */
  lemma PageStyleSkips(t: string)
    requires '\\' !in t
    ensures ApplyAll(t, SPACING_RULES[3..]) == t
  {
    var r := SPACING_RULES[3..];
    SubInert(t, r[0].ps, r[0].f, '\\');
    SubInert(t, r[1].ps, r[1].f, '\\');
    ApplyAllFirst(t, r);
    ApplyAllFirst(t, r[1..]);
    assert r[1..][1..] == [];
  }

  /** The spacing rules strip the opening `\vspace*{...}` and the closing `\newpage`. */
  lemma SpacingStripsSpaced(arg: string, t: string)
    requires '}' !in arg && '\\' !in t && 'v' !in t && 'f' !in t
    ensures ApplyAll(Spaced(arg, t), SPACING_RULES) == t
  {
    var r := SPACING_RULES;
    var y := t + "\\newpage";
    assert Apply(Spaced(arg, t), r[0]) == y by {
      assert Spaced(arg, t) == "" + "\\vspace" + "*" + "{" + arg + "}" + y;
      DropsVspace("", "*", arg, y);
      assert "" + y == y;
    }
    VfillSkips(y);
    NewpageDrops(t);
    PageStyleSkips(t);
    ApplyAllFirst(Spaced(arg, t), r);
    assert ApplyAll(y, r[1..]) == ApplyAll(y, r[2..]) by {
      ApplyAllFirst(y, r[1..]);
      assert r[1..][0] == r[1] && r[1..][1..] == r[2..];
    }
    assert ApplyAll(y, r[2..]) == ApplyAll(t, r[3..]) by {
      ApplyAllFirst(y, r[2..]);
      assert r[2..][0] == r[2] && r[2..][1..] == r[3..];
    }
  }

  /** Such a page comes out of the whole chain as its prose. */
  lemma CleanSpaced(arg: string, t: string)
    requires SpacedPage(arg, t)
    ensures Clean(Spaced(arg, t)) == t
  {
    var s := Spaced(arg, t);
    WrappersSkipSpaced(arg, t);
    SpacingStripsSpaced(arg, t);
    KeyedMarks();
    KeyedLists();
    ApplyAllPlain(t, MARK_RULES);
    ApplyAllPlain(t, LIST_RULES);
    ApplyAllConcat(s, WRAPPER_RULES, SPACING_RULES);
    ApplyAllConcat(s, WRAPPER_RULES + SPACING_RULES, MARK_RULES);
    ApplyAllConcat(s, WRAPPER_RULES + SPACING_RULES + MARK_RULES, LIST_RULES);
    AfterPageRules(s, t);
  }

  /** `\vspace*{1cm}text\newpage` comes out of the whole chain as `text`. */
  lemma CleanSpacingExample()
    ensures Clean("\\vspace*{1cm}text\\newpage") == "text"
  {
    SpacedExample();
    CleanSpaced("1cm", "text");
  }

  lemma SpacedExample()
    ensures SpacedPage("1cm", "text")
    ensures Spaced("1cm", "text") == "\\vspace*{1cm}text\\newpage"
  {
    assert NoFourNewlines("text") by {
      assert |"text"| == 4;
    }
  }

  /** The loop over font-size commands. */
  method RemoveSizes(body: string) returns (r: string)
    ensures r == ApplyAll(body, SizeRules(SIZES))
  {
    r := body;
    for i := 0 to |SIZES|
      invariant r == ApplyAll(body, SizeRules(SIZES[..i]))
    {
      assert SIZES[..i + 1][..i] == SIZES[..i];
      r := Apply(r, SizeRule(SIZES[i]));
    }
    assert SIZES[..|SIZES|] == SIZES;
  }

  lemma ApplyThree(s: string, rules: seq<Rule>)
    requires |rules| == 3
    ensures ApplyAll(s, rules) == Apply(Apply(Apply(s, rules[0]), rules[1]), rules[2])
  {
    var r2 := rules[..2];
    var r1 := r2[..1];
    assert r1[..0] == [];
    assert ApplyAll(s, r1) == Apply(s, rules[0]);
    assert ApplyAll(s, r2) == Apply(ApplyAll(s, r1), rules[1]);
  }

  /** The loop over environments, three substitutions each. */
  method RemoveEnvironments(body: string) returns (r: string)
    ensures r == ApplyAll(body, EnvRuleList(ENVS))
  {
    r := body;
    for i := 0 to |ENVS|
      invariant r == ApplyAll(body, EnvRuleList(ENVS[..i]))
    {
      var rules := EnvRules(ENVS[i]);
      assert ENVS[..i + 1][..i] == ENVS[..i];
      ApplyAllConcat(body, EnvRuleList(ENVS[..i]), rules);
      ApplyThree(r, rules);
      r := Apply(r, rules[0]);
      r := Apply(r, rules[1]);
      r := Apply(r, rules[2]);
    }
    assert ENVS[..|ENVS|] == ENVS;
  }

  /** `clean_latex`: the same stages, in the same order. */
  method CleanLatex(body: string) returns (r: string)
    ensures r == Clean(body)
    ensures NoFourNewlines(r)
  {
    var b := ApplyAll(body, PAGE_RULES);
    b := RemoveSizes(b);
    b := ApplyAll(b, LAYOUT_RULES);
    b := RemoveEnvironments(b);
    b := RemoveBraced(b, "fcolorbox");
    b := ApplyAll(b, REF_RULES);
    b := RemoveBraced(b, "multirow");
    b := ApplyAll(b, TABLE_RULES);
    b := StripComments(b, LineStart);
    b := StripComments(b, Unescaped);
    b := ApplyAll(b, TAIL_RULES);
    r := Collapse(b);
  }
}
