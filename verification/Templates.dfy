/**
 `resolveTemplateVars` of shared/lib/template-variables.ts: a chain of global
 replacements, one for each placeholder, that is meant as one substitution.
 */
module Templates {
  import opened Common
  import opened Text

  /** A placeholder name with the text that takes its place. */
  datatype Var = Var(name: string, value: string)

  function Token(name: string): string {
    "{{" + name + "}}"
  }

  // ---- JavaScript's replace -------------------------------------------------

  /** A dollar sign that `replace` does not take literally. */
  predicate PatternAt(s: string, i: nat) {
    i + 1 < |s| && s[i] == '$' && (s[i + 1] == '$' || s[i + 1] == '&' || s[i + 1] == '`' || s[i + 1] == '\'')
  }

  predicate HasPattern(s: string) {
    exists i :: 0 <= i < |s| && PatternAt(s, i)
  }

  /** What a caller can check of a value: no opening brace and no `$` pattern. */
  predicate Clean(s: string) {
    '{' !in s && !HasPattern(s)
  }

  /** The replacement text with its `$` patterns filled in.  The search patterns
      here have no groups, so `$` before a digit stands for itself. */
  function Expand(value: string, before: string, matched: string, after: string): string {
    if value == "" then ""
    else if value[0] == '$' && |value| > 1 && value[1] == '$' then "$" + Expand(value[2..], before, matched, after)
    else if value[0] == '$' && |value| > 1 && value[1] == '&' then matched + Expand(value[2..], before, matched, after)
    else if value[0] == '$' && |value| > 1 && value[1] == '`' then before + Expand(value[2..], before, matched, after)
    else if value[0] == '$' && |value| > 1 && value[1] == '\'' then after + Expand(value[2..], before, matched, after)
    else [value[0]] + Expand(value[1..], before, matched, after)
  }

  /** `(before + text).replace(/pat/g, value)` with the scan standing after `before`. */
  function ReplaceFrom(before: string, text: string, pat: string, value: string): string
    requires pat != ""
    decreases |text|
  {
    if text == "" then ""
    else if StartsWith(text, pat) then
      Expand(value, before, pat, text[|pat|..]) + ReplaceFrom(before + pat, text[|pat|..], pat, value)
    else [text[0]] + ReplaceFrom(before + [text[0]], text[1..], pat, value)
  }

  /** The chain of the source, first variable first. */
  function Chain(text: string, vars: seq<Var>): string
    decreases |vars|
  {
    if vars == [] then text
    else
      var last := vars[|vars| - 1];
      ReplaceFrom("", Chain(text, vars[..|vars| - 1]), Token(last.name), last.value)
  }

  // ---- one simultaneous substitution ---------------------------------------

  /** The first variable whose placeholder stands at the start of the text. */
  function Match(text: string, vars: seq<Var>): Option<Var> {
    if vars == [] then None
    else if StartsWith(text, Token(vars[0].name)) then Some(vars[0])
    else Match(text, vars[1..])
  }

  /** One scan that replaces every placeholder of the original text and never
      looks at what it has put in. */
  function Substitute(text: string, vars: seq<Var>): string
    decreases |text|
  {
    if text == "" then ""
    else
      match Match(text, vars)
      case Some(v) =>
        MatchStands(text, vars);
        v.value + Substitute(text[|Token(v.name)|..], vars)
      case None => [text[0]] + Substitute(text[1..], vars)
  }

  lemma {:induction false} MatchStands(text: string, vars: seq<Var>)
    ensures Match(text, vars).Some? ==>
              Match(text, vars).value in vars && StartsWith(text, Token(Match(text, vars).value.name))
  {
    if vars == [] {
    } else {
      MatchStands(text, vars[1..]);
    }
  }

  // ---- templates ------------------------------------------------------------

  /** A piece of a template: plain text, or a placeholder, known or not. */
  datatype Piece = Plain(text: string) | Hole(name: string)

  predicate Braceless(s: string) {
    '{' !in s && '}' !in s
  }

  predicate Proper(p: Piece) {
    match p
    case Plain(text) => '{' !in text
    case Hole(name) => Braceless(name) && name != ""
  }

  ghost predicate Template(ps: seq<Piece>) {
    forall p :: p in ps ==> Proper(p)
  }

  function TextOf(p: Piece): string {
    match p
    case Plain(text) => text
    case Hole(name) => Token(name)
  }

  function Render(ps: seq<Piece>): string {
    if ps == [] then "" else TextOf(ps[0]) + Render(ps[1..])
  }

  function Lookup(name: string, vars: seq<Var>): Option<string> {
    if vars == [] then None
    else if vars[0].name == name then Some(vars[0].value)
    else Lookup(name, vars[1..])
  }

  function Fill(p: Piece, vars: seq<Var>): Piece {
    if p.Hole? && Lookup(p.name, vars).Some? then Plain(Lookup(p.name, vars).value) else p
  }

  function FillAll(ps: seq<Piece>, vars: seq<Var>): seq<Piece> {
    if ps == [] then [] else [Fill(ps[0], vars)] + FillAll(ps[1..], vars)
  }

  ghost predicate Names(vars: seq<Var>) {
    forall v :: v in vars ==> Braceless(v.name) && v.name != ""
  }

  ghost predicate CleanValues(vars: seq<Var>) {
    forall v :: v in vars ==> Clean(v.value)
  }

  // ---- a scan over a template -----------------------------------------------

  /** No placeholder stands where there is no pair of opening braces. */
  lemma {:induction false} NoMatch(text: string, vars: seq<Var>)
    requires text == "" || text[0] != '{' || |text| == 1 || text[1] != '{'
    ensures Match(text, vars) == None
  {
    if vars == [] {
    } else {
      assert Token(vars[0].name)[0] == '{' && Token(vars[0].name)[1] == '{';
      NoMatch(text, vars[1..]);
    }
  }

  lemma ScanEmpty(vars: seq<Var>)
    ensures Substitute("", vars) == ""
  {
  }

  /** A scan copies text without braces. */
  lemma {:induction false} ScanPlain(plain: string, rest: string, vars: seq<Var>)
    requires '{' !in plain
    ensures Substitute(plain + rest, vars) == plain + Substitute(rest, vars)
  {
    if plain == "" {
      assert plain + rest == rest;
    } else {
      NoMatch(plain + rest, vars);
      assert (plain + rest)[1..] == plain[1..] + rest;
      ScanPlain(plain[1..], rest, vars);
      assert plain == [plain[0]] + plain[1..];
    }
  }

  /** The text before the first closing brace. */
  function Opening(text: string): string {
    if text == "" || text[0] == '}' then "" else [text[0]] + Opening(text[1..])
  }

  lemma {:induction false} OpeningIsName(name: string, rest: string)
    requires '}' !in name
    ensures Opening(name + "}}" + rest) == name
  {
    var text := name + "}}" + rest;
    if name == "" {
      assert text[0] == '}';
    } else {
      assert text[1..] == name[1..] + "}}" + rest;
      OpeningIsName(name[1..], rest);
    }
  }

  /** Of two placeholders only the same one is a prefix of the other. */
  lemma TokenPrefix(name: string, other: string, rest: string)
    requires Braceless(name) && Braceless(other)
    ensures StartsWith(Token(name) + rest, Token(other)) <==> name == other
  {
    var text, pat := Token(name) + rest, Token(other);
    assert text[2..] == name + "}}" + rest;
    if StartsWith(text, pat) {
      assert text[2..] == other + "}}" + text[|pat|..];
      OpeningIsName(name, rest);
      OpeningIsName(other, text[|pat|..]);
    }
    if name == other {
      assert text[..|pat|] == pat;
    }
  }

  lemma {:induction false} MatchHole(name: string, rest: string, vars: seq<Var>)
    requires Braceless(name) && Names(vars)
    ensures match Lookup(name, vars)
            case Some(value) => Match(Token(name) + rest, vars) == Some(Var(name, value))
            case None => Match(Token(name) + rest, vars) == None
  {
    if vars == [] {
    } else {
      TokenPrefix(name, vars[0].name, rest);
      MatchHole(name, rest, vars[1..]);
    }
  }

  lemma ScanNone(text: string, vars: seq<Var>)
    requires text != "" && Match(text, vars) == None
    ensures Substitute(text, vars) == [text[0]] + Substitute(text[1..], vars)
  {
  }

  lemma ScanUnknown(name: string, rest: string, vars: seq<Var>)
    requires Braceless(name) && name != "" && Match(Token(name) + rest, vars) == None
    ensures Substitute(Token(name) + rest, vars) == Token(name) + Substitute(rest, vars)
  {
    hide Substitute, Match;
    var text, tail := Token(name) + rest, name + "}}";
    ScanNone(text, vars);
    assert text[1..] == ['{'] + (tail + rest);
    NoMatch(text[1..], vars);
    ScanNone(text[1..], vars);
    assert text[1..][1..] == tail + rest;
    ScanPlain(tail, rest, vars);
    assert Token(name) == ['{'] + (['{'] + tail);
  }

  /** A scan replaces a known placeholder and copies an unknown one. */
  lemma ScanHole(name: string, rest: string, vars: seq<Var>)
    requires Braceless(name) && name != "" && Names(vars)
    ensures Substitute(Token(name) + rest, vars)
            == (match Lookup(name, vars) case Some(value) => value case None => Token(name)) + Substitute(rest, vars)
  {
    MatchHole(name, rest, vars);
    hide Match, Lookup;
    if Lookup(name, vars).Some? {
      assert (Token(name) + rest)[|Token(name)|..] == rest;
    } else {
      ScanUnknown(name, rest, vars);
    }
  }

  /** On a template one scan fills the known placeholders and nothing else. */
  lemma {:induction false} ScanTemplate(ps: seq<Piece>, vars: seq<Var>)
    requires Template(ps) && Names(vars)
    ensures Substitute(Render(ps), vars) == Render(FillAll(ps, vars))
  {
    if ps == [] {
    } else {
      assert forall p :: p in ps[1..] ==> p in ps;
      ScanTemplate(ps[1..], vars);
      assert ps[0] in ps;
      match ps[0]
      case Plain(text) => ScanPlain(text, Render(ps[1..]), vars);
      case Hole(name) => ScanHole(name, Render(ps[1..]), vars);
    }
  }

  // ---- the chain ------------------------------------------------------------

  lemma CleanPart(s: string, i: nat, j: nat)
    requires i <= j <= |s| && Clean(s)
    ensures Clean(s[i..j])
  {
    forall k | 0 <= k < j - i ensures !PatternAt(s[i..j], k) {
      assert !PatternAt(s, i + k);
    }
  }

  lemma {:induction false} ExpandClean(value: string, before: string, matched: string, after: string)
    requires !HasPattern(value)
    ensures Expand(value, before, matched, after) == value
  {
    if value == "" {
    } else {
      assert !PatternAt(value, 0);
      forall k | 0 <= k < |value| - 1 ensures !PatternAt(value[1..], k) {
        assert !PatternAt(value, k + 1);
      }
      ExpandClean(value[1..], before, matched, after);
      assert value == [value[0]] + value[1..];
    }
  }

  function Dollars(s: string): nat {
    if s == "" then 0 else (if s[0] == '$' then 1 else 0) + Dollars(s[1..])
  }

  lemma {:induction false} DollarsAppend(a: string, b: string)
    ensures Dollars(a + b) == Dollars(a) + Dollars(b)
  {
    if a == "" {
      assert a + b == b;
    } else {
      assert (a + b)[1..] == a[1..] + b;
      DollarsAppend(a[1..], b);
    }
  }

  lemma {:induction false} NoDollars(s: string)
    requires '$' !in s
    ensures Dollars(s) == 0
  {
    if s == "" {
    } else {
      NoDollars(s[1..]);
    }
  }

  /** Every pattern that is filled in costs a dollar sign, when the placeholder
      stands alone. */
  lemma {:induction false} ExpandLosesDollars(value: string, matched: string)
    requires '$' !in matched
    ensures Dollars(Expand(value, "", matched, "")) <= Dollars(value)
    ensures HasPattern(value) ==> Dollars(Expand(value, "", matched, "")) < Dollars(value)
  {
    if value == "" {
    } else {
      NoDollars(matched);
      if PatternAt(value, 0) {
        assert value[2..] == value[1..][1..];
        ExpandLosesDollars(value[2..], matched);
        DollarsAppend(matched, Expand(value[2..], "", matched, ""));
        DollarsAppend("", Expand(value[2..], "", matched, ""));
        DollarsAppend("$", Expand(value[2..], "", matched, ""));
      } else {
        ExpandLosesDollars(value[1..], matched);
        DollarsAppend([value[0]], Expand(value[1..], "", matched, ""));
        if HasPattern(value) {
          var i :| 0 <= i < |value| && PatternAt(value, i);
          assert PatternAt(value[1..], i - 1);
        }
      }
    }
  }

  /** One global replacement is a scan for one variable. */
  lemma {:induction false} ReplaceIsScan(before: string, text: string, v: Var)
    requires !HasPattern(v.value)
    ensures ReplaceFrom(before, text, Token(v.name), v.value) == Substitute(text, [v])
    decreases |text|
  {
    if text == "" {
    } else {
      var pat := Token(v.name);
      assert Match(text, [v]) == if StartsWith(text, pat) then Some(v) else None;
      if StartsWith(text, pat) {
        ExpandClean(v.value, before, pat, text[|pat|..]);
        ReplaceIsScan(before + pat, text[|pat|..], v);
      } else {
        ReplaceIsScan(before + [text[0]], text[1..], v);
      }
    }
  }

  /** A replacement inserts its value literally in every text exactly when the
      value holds no `$` pattern. */
  lemma ReplaceIsLiteralIff(v: Var)
    requires Braceless(v.name) && v.name != "" && '$' !in v.name
    ensures (forall text :: ReplaceFrom("", text, Token(v.name), v.value) == Substitute(text, [v]))
            <==> !HasPattern(v.value)
  {
    if HasPattern(v.value) {
      var pat := Token(v.name);
      ScanHole(v.name, "", [v]);
      assert pat + "" == pat && v.value + "" == v.value;
      ExpandLosesDollars(v.value, pat);
      LoneReplacement(pat, v.value);
      assert ReplaceFrom("", pat, pat, v.value) != Substitute(pat, [v]);
    } else {
      forall text ensures ReplaceFrom("", text, Token(v.name), v.value) == Substitute(text, [v]) {
        ReplaceIsScan("", text, v);
      }
    }
  }

  lemma LoneReplacement(pat: string, value: string)
    requires pat != ""
    ensures ReplaceFrom("", pat, pat, value) == Expand(value, "", pat, "")
  {
    assert pat[|pat|..] == "" && StartsWith(pat, pat);
    assert Expand(value, "", pat, "") + "" == Expand(value, "", pat, "");
  }

  /** The four `$` patterns around plain text. */
  function PatternText(c: char, before: string, matched: string, after: string): string
    requires c in "$&`'"
  {
    if c == '$' then "$" else if c == '&' then matched else if c == '`' then before else after
  }

  /** A pattern stands for a dollar sign, the placeholder, the text before it or the text
      after it. */
  lemma PatternMeans(v: Var, front: string, c: char, back: string, before: string, after: string)
    requires v.value == front + ['$', c] + back && c in "$&`'" && '$' !in front && '$' !in back
    requires Braceless(v.name) && v.name != "" && '{' !in before && '{' !in after
    ensures ReplaceFrom("", before + Token(v.name) + after, Token(v.name), v.value)
            == before + (front + PatternText(c, before, Token(v.name), after) + back) + after
  {
    var pat := Token(v.name);
    assert pat[0] == '{' && front + (['$', c] + back) == v.value;
    hide ReplaceFrom, Expand, PatternText, Token, Braceless;
    ReplaceAround(before, pat, after, v.value);
    ExpandAround(front, c, back, before, pat, after);
  }

  lemma ReplaceAround(before: string, pat: string, after: string, value: string)
    requires pat != "" && pat[0] == '{' && '{' !in before && '{' !in after
    ensures ReplaceFrom("", before + pat + after, pat, value) == before + Expand(value, before, pat, after) + after
  {
    ReplaceNothing("", before, pat + after, pat, value);
    ReplaceOne(before, pat, after, value);
    ReplaceNothing(before + pat, after, "", pat, value);
    ReplaceEmpty(before + pat + after, pat, value);
    hide ReplaceFrom, Expand;
    assert before + (pat + after) == before + pat + after && "" + before == before && after + "" == after;
    assert before + (Expand(value, before, pat, after) + after) == before + Expand(value, before, pat, after) + after;
  }

  lemma ReplaceOne(done: string, pat: string, after: string, value: string)
    requires pat != ""
    ensures ReplaceFrom(done, pat + after, pat, value)
            == Expand(value, done, pat, after) + ReplaceFrom(done + pat, after, pat, value)
  {
    hide Expand;
    assert StartsWith(pat + after, pat) && (pat + after)[|pat|..] == after;
  }

  lemma ReplaceEmpty(done: string, pat: string, value: string)
    requires pat != ""
    ensures ReplaceFrom(done, "", pat, value) == ""
  {
  }

  lemma ExpandAround(front: string, c: char, back: string, before: string, pat: string, after: string)
    requires c in "$&`'" && '$' !in front && '$' !in back
    ensures Expand(front + (['$', c] + back), before, pat, after) == front + PatternText(c, before, pat, after) + back
  {
    ExpandPlain(front, ['$', c] + back, before, pat, after);
    ExpandPattern(c, back, before, pat, after);
    ExpandPlain(back, "", before, pat, after);
    ExpandEmpty(before, pat, after);
    hide Expand, PatternText;
    assert back + "" == back;
  }

  lemma ExpandEmpty(before: string, pat: string, after: string)
    ensures Expand("", before, pat, after) == ""
  {
  }

  lemma {:induction false} ReplaceNothing(done: string, plain: string, rest: string, pat: string, value: string)
    requires pat != "" && pat[0] == '{' && '{' !in plain
    ensures ReplaceFrom(done, plain + rest, pat, value) == plain + ReplaceFrom(done + plain, rest, pat, value)
    decreases |plain|
  {
    if plain == "" {
      assert plain + rest == rest && done + plain == done;
    } else {
      var c, tail := plain[0], plain[1..];
      assert plain + rest == [c] + (tail + rest);
      ReplaceSkip(done, c, tail + rest, pat, value);
      hide ReplaceFrom;
      ReplaceNothing(done + [c], tail, rest, pat, value);
      assert done + [c] + tail == done + plain;
      assert plain == [c] + tail;
    }
  }

  lemma ReplaceSkip(done: string, c: char, rest: string, pat: string, value: string)
    requires pat != "" && pat[0] != c
    ensures ReplaceFrom(done, [c] + rest, pat, value) == [c] + ReplaceFrom(done + [c], rest, pat, value)
  {
    PrefixFirst([c] + rest, pat);
    assert ([c] + rest)[1..] == rest;
  }

  lemma {:induction false} ExpandPlain(plain: string, rest: string, before: string, matched: string, after: string)
    requires '$' !in plain
    ensures Expand(plain + rest, before, matched, after) == plain + Expand(rest, before, matched, after)
  {
    if plain == "" {
      assert plain + rest == rest;
    } else {
      assert (plain + rest)[1..] == plain[1..] + rest;
      ExpandPlain(plain[1..], rest, before, matched, after);
      assert plain == [plain[0]] + plain[1..];
    }
  }

  lemma ExpandPattern(c: char, rest: string, before: string, matched: string, after: string)
    requires c in "$&`'"
    ensures Expand(['$', c] + rest, before, matched, after)
            == PatternText(c, before, matched, after) + Expand(rest, before, matched, after)
  {
    assert (['$', c] + rest)[2..] == rest;
  }

  lemma {:induction false} LookupSnoc(name: string, vars: seq<Var>, v: Var)
    ensures Lookup(name, vars + [v])
            == if Lookup(name, vars).Some? then Lookup(name, vars) else if v.name == name then Some(v.value) else None
  {
    if vars == [] {
      assert vars + [v] == [v];
    } else {
      assert (vars + [v])[1..] == vars[1..] + [v];
      LookupSnoc(name, vars[1..], v);
    }
  }

  /** Filling with one more variable after the others is filling with all at once. */
  lemma {:induction false} FillSnoc(ps: seq<Piece>, vars: seq<Var>, v: Var)
    ensures FillAll(FillAll(ps, vars), [v]) == FillAll(ps, vars + [v])
  {
    if ps == [] {
    } else {
      FillSnoc(ps[1..], vars, v);
      if ps[0].Hole? {
        LookupSnoc(ps[0].name, vars, v);
        LookupSnoc(ps[0].name, [], v);
        assert [] + [v] == [v];
      }
      assert Fill(Fill(ps[0], vars), [v]) == Fill(ps[0], vars + [v]);
      assert FillAll(ps, vars)[1..] == FillAll(ps[1..], vars);
    }
  }

  lemma {:induction false} FilledIsTemplate(ps: seq<Piece>, vars: seq<Var>)
    requires Template(ps) && CleanValues(vars)
    ensures Template(FillAll(ps, vars))
  {
    if ps == [] {
    } else {
      assert forall p :: p in ps[1..] ==> p in ps;
      FilledIsTemplate(ps[1..], vars);
      assert ps[0] in ps;
      if ps[0].Hole? {
        LookupIsValue(ps[0].name, vars);
      }
    }
  }

  lemma {:induction false} LookupIsValue(name: string, vars: seq<Var>)
    ensures Lookup(name, vars).Some? <==> exists v :: v in vars && v.name == name
    ensures Lookup(name, vars).Some? ==> exists v :: v in vars && v.value == Lookup(name, vars).value
  {
    if vars == [] {
    } else {
      LookupIsValue(name, vars[1..]);
      assert vars == [vars[0]] + vars[1..];
    }
  }

  lemma {:induction false} FillNone(ps: seq<Piece>)
    ensures FillAll(ps, []) == ps
  {
    if ps == [] {
    } else {
      FillNone(ps[1..]);
    }
  }

  lemma {:induction false} ChainFills(ps: seq<Piece>, vars: seq<Var>)
    requires Template(ps) && Names(vars) && CleanValues(vars)
    ensures Chain(Render(ps), vars) == Render(FillAll(ps, vars))
    decreases |vars|
  {
    if vars == [] {
      FillNone(ps);
    } else {
      var front, v := vars[..|vars| - 1], vars[|vars| - 1];
      assert vars == front + [v];
      assert forall u :: u in front ==> u in vars;
      assert v in vars;
      ChainFills(ps, front);
      FilledIsTemplate(ps, front);
      ReplaceIsScan("", Render(FillAll(ps, front)), v);
      ScanTemplate(FillAll(ps, front), [v]);
      FillSnoc(ps, front, v);
    }
  }

  /** The chain of replacements is one simultaneous substitution on every
      template, when no value contains an opening brace or a `$` pattern. */
  lemma ChainIsSubstitution(ps: seq<Piece>, vars: seq<Var>)
    requires Template(ps) && Names(vars) && CleanValues(vars)
    ensures Chain(Render(ps), vars) == Substitute(Render(ps), vars) == Render(FillAll(ps, vars))
  {
    ChainFills(ps, vars);
    ScanTemplate(ps, vars);
  }

  lemma {:induction false} FillTwice(ps: seq<Piece>, vars: seq<Var>)
    ensures FillAll(FillAll(ps, vars), vars) == FillAll(ps, vars)
  {
    if ps == [] {
    } else {
      FillTwice(ps[1..], vars);
      assert FillAll(ps, vars)[1..] == FillAll(ps[1..], vars);
    }
  }

  /** No known placeholder is left behind: the chain finds nothing to do in its
      own result. */
  lemma ChainIsIdempotent(ps: seq<Piece>, vars: seq<Var>)
    requires Template(ps) && Names(vars) && CleanValues(vars)
    ensures Chain(Chain(Render(ps), vars), vars) == Chain(Render(ps), vars)
  {
    ChainFills(ps, vars);
    FilledIsTemplate(ps, vars);
    ChainFills(FillAll(ps, vars), vars);
    FillTwice(ps, vars);
  }

  // ---- all texts ------------------------------------------------------------

  /** A placeholder without its first `k` characters. */
  function Rest(name: string, k: nat): string
    requires k <= |Token(name)|
  {
    Token(name)[k..]
  }

  /** The strings agree as far as both go. */
  predicate Agree(a: string, b: string) {
    StartsWith(a, b) || StartsWith(b, a)
  }

  /** Put at some place over the placeholder, the value agrees with it: behind a part
      of the placeholder, or with a part of its own in front. */
  predicate Completes(value: string, name: string) {
    || (exists k :: 0 <= k < |Token(name)| && Agree(value, Rest(name, k)))
    || (exists i :: 0 < i < |value| && Agree(value[i..], Rest(name, 0)))
  }

  /** No value completes a placeholder that is replaced later. */
  ghost predicate NoneCompletes(vars: seq<Var>) {
    forall i, j :: 0 <= i < j < |vars| ==> !Completes(vars[i].value, vars[j].name)
  }

  ghost predicate DistinctNames(vars: seq<Var>) {
    forall i, j :: 0 <= i < j < |vars| ==> vars[i].name != vars[j].name
  }

  ghost predicate NoPatterns(vars: seq<Var>) {
    forall v :: v in vars ==> !HasPattern(v.value)
  }

  predicate Within(value: string, name: string) {
    exists k :: 0 <= k <= |name| && StartsWith(name[k..], value)
  }

  lemma WithinRest(value: string, name: string, k: nat)
    requires k <= |name| && '}' !in value
    ensures StartsWith(Rest(name, k + 2), value) <==> StartsWith(name[k..], value)
  {
    var q, n := Rest(name, k + 2), |name| - k;
    assert q == name[k..] + "}}";
    if |value| > n {
      assert q[n] == '}';
      assert |value| <= |q| ==> q[..|value|][n] == q[n];
    } else {
      assert q[..|value|] == name[k..][..|value|];
    }
  }

  /** A value without opening braces completes behind the opening braces only. */
  lemma CompletesBehind(value: string, name: string)
    requires '{' !in value && Completes(value, name)
    ensures exists k :: 2 <= k < |Token(name)| && Agree(value, Rest(name, k))
  {
    if value == "" {
      assert Agree(value, Rest(name, 2));
    } else if k :| 0 <= k < |Token(name)| && Agree(value, Rest(name, k)) {
      FirstOfBoth(value, Rest(name, k));
    } else {
      var i :| 0 < i < |value| && Agree(value[i..], Rest(name, 0));
      FirstOfBoth(value[i..], Rest(name, 0));
    }
  }

  lemma FirstOfBoth(a: string, b: string)
    requires a != "" && b != "" && Agree(a, b)
    ensures a[0] == b[0]
  {
    assert StartsWith(a, b) ==> a[..|b|][0] == a[0];
    assert StartsWith(b, a) ==> b[..|a|][0] == b[0];
  }

  /** For a value without braces that is to be a piece of the name; so the empty value
      completes every placeholder. */
  lemma CompletesIsWithin(value: string, name: string)
    requires Braceless(value) && Braceless(name)
    ensures Completes(value, name) <==> Within(value, name)
  {
    if Completes(value, name) {
      CompletesBehind(value, name);
      var k :| 2 <= k < |Token(name)| && Agree(value, Rest(name, k));
      LastBrace(value, name, k);
      if k - 2 <= |name| {
        WithinRest(value, name, k - 2);
      } else {
        assert StartsWith(name[0..], "");
      }
    }
    if Within(value, name) {
      var k :| 0 <= k <= |name| && StartsWith(name[k..], value);
      WithinRest(value, name, k);
      assert Agree(value, Rest(name, k + 2));
    }
  }

  lemma LastBrace(value: string, name: string, k: nat)
    requires 2 <= k < |Token(name)| && '}' !in value
    ensures !StartsWith(value, Rest(name, k))
    ensures k == |name| + 3 && StartsWith(Rest(name, k), value) ==> value == ""
  {
    var q := Rest(name, k);
    assert q[|q| - 1] == '}' && (k == |name| + 3 ==> q == "}");
  }

  lemma CompletesAt(value: string, rest: string, name: string, k: nat)
    requires k < |Token(name)| && StartsWith(value + rest, Rest(name, k))
    ensures Agree(value, Rest(name, k)) && Completes(value, name)
  {
    var q := Rest(name, k);
    if |value| <= |q| {
      assert (value + rest)[..|q|][..|value|] == value;
    } else {
      assert (value + rest)[..|q|] == value[..|q|];
    }
  }

  /** A scan whose values complete nothing makes no placeholder, and no end of one. */
  lemma {:induction false} ScanMakesNoEnd(text: string, vars: seq<Var>, name: string, k: nat)
    requires forall v :: v in vars ==> !Completes(v.value, name)
    requires k <= |Token(name)| && StartsWith(Substitute(text, vars), Rest(name, k))
    ensures StartsWith(text, Rest(name, k))
    decreases |Token(name)| - k
  {
    hide Completes, Match, Token;
    if k < |Token(name)| {
      var q := Rest(name, k);
      if Match(text, vars).Some? {
        var v := Match(text, vars).value;
        MatchStands(text, vars);
        CompletesAt(v.value, Substitute(text[|Token(v.name)|..], vars), name, k);
        assert false;
      } else {
        ScanEmpty(vars);
        ScanNone(text, vars);
        var rest := Substitute(text[1..], vars);
        assert q[1..] == Rest(name, k + 1);
        assert rest[..|q| - 1] == Substitute(text, vars)[..|q|][1..];
        ScanMakesNoEnd(text[1..], vars, name, k + 1);
        assert text[..|q|] == [text[0]] + text[1..][..|q| - 1];
      }
    }
  }

  /** A scan passes over a value that completes nothing. */
  lemma {:induction false} ScanPast(value: string, i: nat, rest: string, v: Var)
    requires i <= |value| && !Completes(value, v.name)
    ensures Substitute(value[i..] + rest, [v]) == value[i..] + Substitute(rest, [v])
    decreases |value| - i
  {
    hide Substitute;
    if i == |value| {
      assert value[i..] + rest == rest;
    } else {
      var text := value[i..] + rest;
      if StartsWith(text, Token(v.name)) {
        CompletesFrom(value, i, rest, v.name);
        assert false;
      }
      MatchOne(text, v);
      ScanNone(text, [v]);
      assert text[1..] == value[i + 1..] + rest;
      ScanPast(value, i + 1, rest, v);
      assert value[i..] == [value[i]] + value[i + 1..];
    }
  }

  lemma CompletesFrom(value: string, i: nat, rest: string, name: string)
    requires i < |value| && StartsWith(value[i..] + rest, Token(name))
    ensures Completes(value, name)
  {
    assert Rest(name, 0) == Token(name);
    CompletesAt(value[i..], rest, name, 0);
    assert value[0..] == value;
  }

  lemma {:induction false} MatchSnoc(text: string, vars: seq<Var>, v: Var)
    ensures Match(text, vars + [v])
            == if Match(text, vars).Some? then Match(text, vars)
               else if StartsWith(text, Token(v.name)) then Some(v) else None
  {
    if vars == [] {
      assert vars + [v] == [v];
    } else {
      assert (vars + [v])[1..] == vars[1..] + [v];
      MatchSnoc(text, vars[1..], v);
    }
  }

  /** A scan for one more variable after the others is one scan for all of them. */
  lemma {:induction false} ScanSnoc(text: string, vars: seq<Var>, v: Var)
    requires Braceless(v.name) && v.name != ""
    requires forall u :: u in vars ==> !Completes(u.value, v.name)
    ensures Substitute(Substitute(text, vars), [v]) == Substitute(text, vars + [v])
    decreases |text|
  {
    hide Completes, Match;
    if text == "" {
      ScanEmpty(vars);
    } else {
      MatchSnoc(text, vars, v);
      if Match(text, vars).Some? {
        var u := Match(text, vars).value;
        MatchStands(text, vars);
        var rest := text[|Token(u.name)|..];
        ScanSnoc(rest, vars, v);
        ScanPast(u.value, 0, Substitute(rest, vars), v);
        assert u.value[0..] == u.value;
      } else if StartsWith(text, Token(v.name)) {
        var rest := text[|Token(v.name)|..];
        assert text == Token(v.name) + rest;
        ScanUnknown(v.name, rest, vars);
        ScanOne(v, Substitute(rest, vars));
        ScanSnoc(rest, vars, v);
      } else {
        ScanSnoc(text[1..], vars, v);
        ScanNone(text, vars);
        var out := Substitute(text, vars);
        assert out[1..] == Substitute(text[1..], vars);
        if StartsWith(out, Token(v.name)) {
          assert Rest(v.name, 0) == Token(v.name);
          ScanMakesNoEnd(text, vars, v.name, 0);
          assert false;
        }
        MatchOne(out, v);
        ScanNone(out, [v]);
        ScanNone(text, vars + [v]);
      }
    }
  }

  lemma MatchOne(text: string, v: Var)
    ensures Match(text, [v]) == if StartsWith(text, Token(v.name)) then Some(v) else None
  {
  }

  lemma ScanOne(v: Var, rest: string)
    ensures Substitute(Token(v.name) + rest, [v]) == v.value + Substitute(rest, [v])
  {
    var text := Token(v.name) + rest;
    assert text[..|Token(v.name)|] == Token(v.name) && text[|Token(v.name)|..] == rest;
    MatchOne(text, v);
  }

  /** On all texts the chain is one simultaneous substitution when no value completes
      the placeholder of a later variable, whatever braces the values hold. */
  lemma {:induction false} ChainIsSubstitutionIfApart(text: string, vars: seq<Var>)
    requires Names(vars) && NoPatterns(vars) && NoneCompletes(vars)
    ensures Chain(text, vars) == Substitute(text, vars)
    decreases |vars|
  {
    hide Completes, Match, HasPattern;
    if vars == [] {
      NothingToScan(text);
    } else {
      var n := |vars| - 1;
      var front, v := vars[..n], vars[n];
      assert vars == front + [v];
      assert forall u :: u in front ==> u in vars;
      assert v in vars;
      ChainIsSubstitutionIfApart(text, front);
      ReplaceIsScan("", Substitute(text, front), v);
      ScanSnoc(text, front, v);
    }
  }

  lemma {:induction false} NothingToScan(text: string)
    ensures Substitute(text, []) == text
    decreases |text|
  {
    if text == "" {
    } else {
      NothingToScan(text[1..]);
      assert text == [text[0]] + text[1..];
    }
  }

  /** A third opening brace means that no placeholder stands here. */
  lemma {:induction false} ThreeBraces(text: string, vars: seq<Var>)
    requires Names(vars) && |text| >= 3 && text[2] == '{'
    ensures Match(text, vars) == None
  {
    if vars == [] {
    } else {
      assert vars[0] in vars;
      assert Token(vars[0].name)[2] == vars[0].name[0];
      ThreeBraces(text, vars[1..]);
    }
  }

  lemma TokenHasNoPattern(name: string)
    requires !HasPattern(name)
    ensures !HasPattern(Token(name))
  {
    forall i | 0 <= i < |Token(name)| ensures !PatternAt(Token(name), i) {
      if 2 <= i < |name| + 2 {
        assert !PatternAt(name, i - 2);
      }
    }
  }

  // ---- a text on which the two differ ---------------------------------------

  lemma {:induction false} CutMatches(name: string, k: nat, inner: string, after: string, vars: seq<Var>)
    requires Braceless(name) && 2 <= k < |Token(name)| && Names(vars)
    ensures Match(Token(name)[..k] + Token(inner) + after, vars) == None
  {
    var text := Token(name)[..k] + Token(inner) + after;
    if vars == [] {
    } else {
      CutMatches(name, k, inner, after, vars[1..]);
      var pat, x := Token(vars[0].name), vars[0].name;
      assert vars[0] in vars;
      assert text[k] == '{' && pat[2 + |x|] == '}' && pat[3 + |x|] == '}';
      assert forall i :: 2 <= i < 2 + |x| ==> pat[i] != '{';
    }
  }

  /** A scan over a beginning of a placeholder, another placeholder, and a text in
      which nothing is found fills the inner placeholder only. */
  lemma CutScan(name: string, k: nat, inner: string, after: string, vars: seq<Var>)
    requires Braceless(name) && k < |Token(name)| && Names(vars)
    requires Braceless(inner) && inner != "" && Substitute(after, vars) == after
    ensures Substitute(Token(name)[..k] + Token(inner) + after, vars)
            == Token(name)[..k]
               + (match Lookup(inner, vars) case Some(value) => value case None => Token(inner)) + after
  {
    hide Substitute, Match, Lookup;
    var before := Token(name)[..k];
    var text := before + Token(inner) + after;
    ScanHole(inner, after, vars);
    if k == 0 {
      assert text == Token(inner) + after;
    } else if k == 1 {
      assert text[1..] == Token(inner) + after && text[2] == '{';
      ThreeBraces(text, vars);
      ScanNone(text, vars);
      assert before == [text[0]];
    } else {
      CutMatches(name, k, inner, after, vars);
      ScanNone(text, vars);
      CutInside(name, k, Token(inner) + after, vars);
      assert text[1..] == Token(name)[1..k] + (Token(inner) + after);
      assert before == ['{'] + Token(name)[1..k];
    }
  }

  lemma CutInside(name: string, k: nat, rest: string, vars: seq<Var>)
    requires Braceless(name) && 2 <= k < |Token(name)| && Names(vars) && |rest| > 1 && rest[0] == rest[1] == '{'
    ensures Substitute(Token(name)[1..k] + rest, vars) == Token(name)[1..k] + Substitute(rest, vars)
  {
    hide Substitute, Match;
    var tail := Token(name)[2..k];
    var text := Token(name)[1..k] + rest;
    assert Token(name)[1..k] == ['{'] + tail;
    assert text == ['{'] + (tail + rest);
    if tail == "" {
      assert text[2] == '{';
      ThreeBraces(text, vars);
    } else {
      assert text[1] == tail[0] == Token(name)[2];
      NoMatch(text, vars);
    }
    ScanNone(text, vars);
    assert text[1..] == tail + rest;
    ScanPlain(tail, rest, vars);
  }

  /** Nothing is found in a part of a placeholder without its first brace. */
  lemma RestIsQuiet(name: string, k: nat, vars: seq<Var>)
    requires Braceless(name) && name != "" && 1 <= k <= |Token(name)|
    ensures Substitute(Rest(name, k), vars) == Rest(name, k)
    decreases |Token(name)| - k
  {
    hide Substitute, Match;
    ScanEmpty(vars);
    if k == 1 {
      var text := Rest(name, 1);
      NoMatch(text, vars);
      ScanNone(text, vars);
      assert text[1..] == Rest(name, 2);
      RestIsQuiet(name, 2, vars);
      assert text == ['{'] + Rest(name, 2);
    } else {
      ScanPlain(Rest(name, k), "", vars);
      assert Rest(name, k) + "" == Rest(name, k);
    }
  }

  lemma {:induction false} ChainSkips(name: string, k: nat, inner: string, e: nat, vars: seq<Var>)
    requires Braceless(name) && name != "" && k < |Token(name)| && 1 <= e <= |Token(name)|
    requires Names(vars) && NoPatterns(vars) && Braceless(inner) && inner != ""
    requires forall v :: v in vars ==> v.name != inner
    ensures Chain(Token(name)[..k] + Token(inner) + Rest(name, e), vars) == Token(name)[..k] + Token(inner) + Rest(name, e)
    decreases |vars|
  {
    hide HasPattern, Substitute, Match, Token, Rest;
    if vars == [] {
    } else {
      var front, v := vars[..|vars| - 1], vars[|vars| - 1];
      assert forall u :: u in front ==> u in vars;
      assert v in vars;
      ChainSkips(name, k, inner, e, front);
      ReplaceIsScan("", Token(name)[..k] + Token(inner) + Rest(name, e), v);
      RestIsQuiet(name, e, [v]);
      CutScan(name, k, inner, Rest(name, e), [v]);
    }
  }

  lemma {:induction false} ChainAppend(text: string, a: seq<Var>, b: seq<Var>)
    ensures Chain(text, a + b) == Chain(Chain(text, a), b)
    decreases |b|
  {
    if b == [] {
      assert a + b == a;
    } else {
      assert (a + b)[..|a + b| - 1] == a + b[..|b| - 1];
      ChainAppend(text, a, b[..|b| - 1]);
    }
  }

  lemma {:induction false} LookupAt(vars: seq<Var>, i: nat)
    requires i < |vars| && DistinctNames(vars)
    ensures Lookup(vars[i].name, vars) == Some(vars[i].value)
  {
    if i == 0 {
    } else {
      LookupAt(vars[1..], i - 1);
    }
  }

  predicate Occurs(text: string, name: string) {
    exists i :: 0 <= i <= |text| && StartsWith(text[i..], Token(name))
  }

  /** Where to cut a placeholder open so that the value closes it. */
  lemma CutAround(value: string, name: string) returns (k: nat, e: nat)
    requires name != "" && Completes(value, name)
    ensures k < |Token(name)| && 1 <= e <= |Token(name)|
    ensures Occurs(Token(name)[..k] + value + Rest(name, e), name)
  {
    var pat := Token(name);
    if value == "" {
      k, e := 2, 2;
      assert pat[..2] + value + Rest(name, 2) == pat;
      OccursAt("", pat, "", name);
    } else if j :| 0 <= j < |pat| && Agree(value, Rest(name, j)) {
      k := j;
      e := FillUp(value, name, j);
      Reassociate("", pat[..j], value, Rest(name, e));
      OccursFrom("", pat[..j], value + Rest(name, e), name, j);
    } else {
      var i :| 0 < i < |value| && Agree(value[i..], Rest(name, 0));
      k := 0;
      e := FillUp(value[i..], name, 0);
      Reassociate(value[..i], "", value[i..], Rest(name, e));
      assert value[..i] + value[i..] == value && pat[..0] + value == value;
      OccursFrom(value[..i], "", value[i..] + Rest(name, e), name, 0);
    }
  }

  lemma Reassociate(a: string, b: string, c: string, d: string)
    ensures a + b + (c + d) == (a + b + c) + d
    ensures b == "" ==> a + b + c == a + c
    ensures a == "" ==> a + b + c == b + c
  {
  }

  /** The end of the placeholder that the value leaves open. */
  lemma FillUp(value: string, name: string, k: nat) returns (e: nat)
    requires value != "" && k < |Token(name)| && Agree(value, Rest(name, k))
    ensures 1 <= e <= |Token(name)| && StartsWith(value + Rest(name, e), Rest(name, k))
  {
    var q := Rest(name, k);
    if StartsWith(q, value) {
      e := k + |value|;
      assert value + Rest(name, e) == q;
    } else {
      e := |Token(name)|;
      assert (value + Rest(name, e))[..|q|] == value[..|q|];
    }
  }

  lemma OccursFrom(front: string, before: string, rest: string, name: string, k: nat)
    requires k < |Token(name)| && before == Token(name)[..k] && StartsWith(rest, Rest(name, k))
    ensures Occurs(front + before + rest, name)
  {
    var q := Rest(name, k);
    var tail := rest[|q|..];
    assert rest == q + tail;
    assert Token(name) == before + q;
    assert front + before + (q + tail) == front + (before + q) + tail;
    OccursAt(front, Token(name), tail, name);
  }

  lemma OccursAt(front: string, pat: string, tail: string, name: string)
    requires pat == Token(name)
    ensures Occurs(front + pat + tail, name)
  {
    var text := front + pat + tail;
    assert text[|front|..] == pat + tail;
    assert StartsWith(text[|front|..], pat);
  }

  function Opens(s: string): nat {
    if s == "" then 0 else (if s[0] == '{' then 1 else 0) + Opens(s[1..])
  }

  lemma {:induction false} OpensAppend(a: string, b: string)
    ensures Opens(a + b) == Opens(a) + Opens(b)
  {
    if a == "" {
      assert a + b == b;
    } else {
      assert (a + b)[1..] == a[1..] + b;
      OpensAppend(a[1..], b);
    }
  }

  lemma {:induction false} NoOpens(s: string)
    requires '{' !in s
    ensures Opens(s) == 0
  {
    if s == "" {
    } else {
      NoOpens(s[1..]);
    }
  }

  lemma OccursLater(text: string, name: string)
    requires text != ""
    ensures Occurs(text, name) <==> StartsWith(text, Token(name)) || Occurs(text[1..], name)
  {
    assert text[0..] == text;
    if Occurs(text, name) {
      var i :| 0 <= i <= |text| && StartsWith(text[i..], Token(name));
      if i > 0 {
        assert text[i..] == text[1..][i - 1..];
      }
    }
    if Occurs(text[1..], name) {
      var i :| 0 <= i <= |text[1..]| && StartsWith(text[1..][i..], Token(name));
      assert text[1..][i..] == text[i + 1..];
    }
  }

  /** A scan that puts in no opening brace takes some away, if it finds anything. */
  lemma {:induction false} ScanShrinks(text: string, v: Var)
    requires '{' !in v.value
    ensures Opens(Substitute(text, [v])) <= Opens(text)
    ensures if Occurs(text, v.name) then Opens(Substitute(text, [v])) < Opens(text) else Substitute(text, [v]) == text
    decreases |text|
  {
    hide Substitute, Match, Occurs, Token;
    if text == "" {
      ScanEmpty([v]);
      NotInEmpty(v.name);
    } else {
      OccursLater(text, v.name);
      MatchOne(text, v);
      if StartsWith(text, Token(v.name)) {
        var rest := text[|Token(v.name)|..];
        assert text == Token(v.name) + rest;
        ScanOne(v, rest);
        TokenOpens(v.name);
        ScanShrinks(rest, v);
        OpensAppend(Token(v.name), rest);
        OpensAppend(v.value, Substitute(rest, [v]));
        NoOpens(v.value);
      } else {
        ScanNone(text, [v]);
        ScanShrinks(text[1..], v);
        assert Substitute(text, [v])[1..] == Substitute(text[1..], [v]);
        assert text == [text[0]] + text[1..];
      }
    }
  }

  lemma NotInEmpty(name: string)
    ensures !Occurs("", name)
  {
  }

  lemma TokenOpens(name: string)
    ensures |Token(name)| > 0 && Opens(Token(name)) > 0
  {
    assert Token(name)[0] == '{';
  }

  lemma {:induction false} ChainShrinks(text: string, vars: seq<Var>)
    requires CleanValues(vars)
    ensures Opens(Chain(text, vars)) <= Opens(text)
    ensures (exists v :: v in vars && Occurs(text, v.name)) ==> Opens(Chain(text, vars)) < Opens(text)
    decreases |vars|
  {
    hide Occurs, HasPattern, Substitute;
    if vars == [] {
    } else {
      var first, rest := vars[0], vars[1..];
      assert vars == [first] + rest && first in vars;
      assert forall v :: v in rest ==> v in vars;
      ChainAppend(text, [first], rest);
      ChainOfOne(text, first);
      ScanShrinks(text, first);
      ChainShrinks(Chain(text, [first]), rest);
    }
  }

  lemma ChainOfOne(text: string, v: Var)
    requires !HasPattern(v.value)
    ensures Chain(text, [v]) == Substitute(text, [v])
  {
    assert [v][..0] == [];
    ReplaceIsScan("", text, v);
  }

  /** The value of the variable completes some later placeholder. */
  ghost predicate CompletesLater(vars: seq<Var>, i: nat)
    requires i < |vars|
  {
    exists j :: i < j < |vars| && Completes(vars[i].value, vars[j].name)
  }

  lemma CompletingDiffers(vars: seq<Var>, i: nat, j: nat) returns (text: string)
    requires Names(vars) && NoPatterns(vars) && DistinctNames(vars)
    requires i < j < |vars| && Completes(vars[i].value, vars[j].name)
    requires forall m :: i < m < |vars| ==> '{' !in vars[m].value
    ensures Chain(text, vars) != Substitute(text, vars)
  {
    hide HasPattern, Substitute, Match, Chain, Lookup, Completes, Braceless, Occurs, Token, Rest;
    var inner, value, name := vars[i].name, vars[i].value, vars[j].name;
    var front, later := vars[..i], vars[i + 1..];
    assert vars[i] in vars && vars[j] in vars;
    assert forall v :: v in front || v in later ==> v in vars;
    var k, e := CutAround(value, name);
    text := Token(name)[..k] + Token(inner) + Rest(name, e);
    var filled := Token(name)[..k] + value + Rest(name, e);
    RestIsQuiet(name, e, vars);
    CutScan(name, k, inner, Rest(name, e), vars);
    LookupAt(vars, i);
    assert Substitute(text, vars) == filled;

    ChainSkips(name, k, inner, e, front);
    RestIsQuiet(name, e, [vars[i]]);
    CutScan(name, k, inner, Rest(name, e), [vars[i]]);
    LookupAt([vars[i]], 0);
    ChainOfOne(text, vars[i]);
    ChainAppend(text, front, [vars[i]]);
    ChainAppend(text, front + [vars[i]], later);
    assert front + [vars[i]] + later == vars;
    assert Chain(text, vars) == Chain(filled, later);
    assert vars[j] == later[j - i - 1];
    ChainShrinks(filled, later);
  }

  /** On all texts the chain is one simultaneous substitution exactly when no value
      completes the placeholder of a later variable; values may hold opening braces as
      long as none comes after a value that completes something. */
  lemma ChainIsSubstitutionIff(vars: seq<Var>)
    requires Names(vars) && NoPatterns(vars) && DistinctNames(vars)
    requires forall i, m :: 0 <= i < m < |vars| && CompletesLater(vars, i) ==> '{' !in vars[m].value
    ensures (forall text :: Chain(text, vars) == Substitute(text, vars)) <==> NoneCompletes(vars)
  {
    hide Completes, HasPattern;
    if NoneCompletes(vars) {
      forall text ensures Chain(text, vars) == Substitute(text, vars) {
        ChainIsSubstitutionIfApart(text, vars);
      }
    } else {
      var i, j :| 0 <= i < j < |vars| && Completes(vars[i].value, vars[j].name);
      assert CompletesLater(vars, i);
      var text := CompletingDiffers(vars, i, j);
    }
  }

  /** Why that much is asked: a variable that puts back its own placeholder hides what
      an earlier value has completed. */
  lemma OwnPlaceholderHides(first: string, second: string, text: string)
    requires Braceless(first) && first != "" && Braceless(second) && second != "" && first != second
    requires !HasPattern(second)
    ensures var vars := [Var(first, Token(second)), Var(second, Token(second))];
            Completes(vars[0].value, vars[1].name) && Chain(text, vars) == Substitute(text, vars)
  {
    var v, w := Var(first, Token(second)), Var(second, Token(second));
    TokenHasNoPattern(second);
    assert Agree(v.value, Rest(second, 0));
    ChainOfOne(text, v);
    ChainAppend(text, [v], [w]);
    ChainOfOne(Substitute(text, [v]), w);
    assert [v] + [w] == [v, w];
    OwnPlaceholderStays(Substitute(text, [v]), w);
    OwnPlaceholderAdds(text, v, w);
  }

  lemma {:induction false} OwnPlaceholderStays(text: string, w: Var)
    requires w.value == Token(w.name)
    ensures Substitute(text, [w]) == text
    decreases |text|
  {
    hide Substitute, Token;
    if text == "" {
      ScanEmpty([w]);
    } else {
      MatchOne(text, w);
      if StartsWith(text, Token(w.name)) {
        var rest := text[|Token(w.name)|..];
        assert text == Token(w.name) + rest;
        ScanOne(w, rest);
        TokenOpens(w.name);
        OwnPlaceholderStays(rest, w);
      } else {
        ScanNone(text, [w]);
        OwnPlaceholderStays(text[1..], w);
        assert text == [text[0]] + text[1..];
      }
    }
  }

  lemma {:induction false} OwnPlaceholderAdds(text: string, v: Var, w: Var)
    requires w.value == Token(w.name) && Braceless(w.name) && w.name != ""
    ensures Substitute(text, [v, w]) == Substitute(text, [v])
    decreases |text|
  {
    hide Match, Token;
    if text == "" {
    } else {
      MatchSnoc(text, [v], w);
      assert [v] + [w] == [v, w];
      if Match(text, [v]).Some? {
        var u := Match(text, [v]).value;
        MatchStands(text, [v]);
        TokenOpens(u.name);
        OwnPlaceholderAdds(text[|Token(u.name)|..], v, w);
      } else if StartsWith(text, Token(w.name)) {
        var rest := text[|Token(w.name)|..];
        assert text == Token(w.name) + rest;
        TokenOpens(w.name);
        ScanUnknown(w.name, rest, [v]);
        OwnPlaceholderAdds(rest, v, w);
      } else {
        OwnPlaceholderAdds(text[1..], v, w);
      }
    }
  }

  // ---- the variables of the source -------------------------------------------

  datatype Lead = Lead(
    name: Option<string>,
    company: Option<string>,
    city: Option<string>,
    metadata: map<string, string>)
  datatype Sender = Sender(name: Option<string>, email: Option<string>)

  /** `value || fallback`. */
  function Or(value: Option<string>, fallback: string): string {
    if value.Some? && value.value != "" then value.value else fallback
  }

  function Trimmed(value: Option<string>): Option<string> {
    if value.Some? then Some(Trim(value.value)) else None
  }

  function Meta(lead: Lead, key: string): Option<string> {
    if key in lead.metadata then Some(lead.metadata[key]) else None
  }

  /** `split(' ')[0]`. */
  function FirstWord(s: string): string {
    if s == "" || s[0] == ' ' then "" else [s[0]] + FirstWord(s[1..])
  }

  /** `split(' ').slice(1).join(' ')`. */
  function OtherWords(s: string): string {
    if s == "" then "" else if s[0] == ' ' then s[1..] else OtherWords(s[1..])
  }

  function CleanName(lead: Lead): Option<string> {
    if Trimmed(lead.name) == Some("Unknown") then None else Trimmed(lead.name)
  }

  function FirstName(lead: Lead): string {
    Or(match CleanName(lead) case Some(n) => Some(FirstWord(n)) case None => None, "there")
  }

  function LastName(lead: Lead): string {
    Or(match CleanName(lead) case Some(n) => Some(OtherWords(n)) case None => None, "there")
  }

  function FullName(lead: Lead): string {
    Or(CleanName(lead), FirstName(lead))
  }

  function NameVars(lead: Lead): seq<Var> {
    [ Var("firstName", FirstName(lead)),
      Var("lastName", LastName(lead)),
      Var("name", FullName(lead)),
      Var("lead_name", FullName(lead)) ]
  }

  function CompanyVars(lead: Lead): seq<Var> {
    var company := Or(Trimmed(lead.company), "your company");
    [ Var("company", company),
      Var("business_name", company),
      Var("city", Or(Meta(lead, "city"), Or(lead.city, ""))),
      Var("industry", Or(Meta(lead, "industry"), "")),
      Var("niche", Or(Meta(lead, "niche"), "")),
      Var("website", Or(Meta(lead, "website"), "")) ]
  }

  function SenderVars(sender: Option<Sender>): seq<Var> {
    var senderName := Or(match sender case Some(s) => Trimmed(s.name) case None => None, "there");
    var senderEmail := Or(match sender case Some(s) => Trimmed(s.email) case None => None, "");
    [ Var("sender_name", senderName),
      Var("senderName", senderName),
      Var("sender.name", senderName),
      Var("sender_email", senderEmail) ]
  }

  /** The fourteen replacements in the order of the source. */
  function Vars(lead: Lead, sender: Option<Sender>): seq<Var> {
    NameVars(lead) + CompanyVars(lead) + SenderVars(sender)
  }

  function ResolveTemplateVars(text: string, lead: Lead, sender: Option<Sender>): string {
    Chain(text, Vars(lead, sender))
  }

  function ResolveTemplateVarsWithSubject(body: string, subject: string, lead: Lead, sender: Option<Sender>)
      : (string, string)
  {
    (ResolveTemplateVars(body, lead, sender), ResolveTemplateVars(subject, lead, sender))
  }

  predicate CleanField(field: Option<string>) {
    field.Some? ==> Clean(field.value)
  }

  /** No field of the context holds an opening brace or a `$` pattern. */
  predicate CleanContext(lead: Lead, sender: Option<Sender>) {
    && CleanField(lead.name) && CleanField(lead.company) && CleanField(lead.city)
    && (forall key :: key in lead.metadata ==> Clean(lead.metadata[key]))
    && (sender.Some? ==> CleanField(sender.value.name) && CleanField(sender.value.email))
  }

  lemma {:induction false} TrimIsClean(s: string)
    requires Clean(s)
    ensures Clean(Trim(s))
  {
    if s == "" {
    } else {
      CleanPart(s, 1, |s|);
      CleanPart(s, 0, |s| - 1);
      assert s[1..|s|] == s[1..] && s[0..|s| - 1] == s[..|s| - 1];
      if IsSpace(s[0]) {
        TrimIsClean(s[1..]);
      } else if IsSpace(s[|s| - 1]) {
        TrimIsClean(s[..|s| - 1]);
      }
    }
  }

  lemma WordsAreClean(s: string)
    requires Clean(s)
    ensures Clean(FirstWord(s)) && Clean(OtherWords(s))
  {
    WordsOfName(s);
    if ' ' in s {
      var n := |FirstWord(s)|;
      assert |s| == n + 1 + |OtherWords(s)|;
      assert s[0..n] == FirstWord(s) && s[n + 1..|s|] == OtherWords(s);
      CleanPart(s, 0, n);
      CleanPart(s, n + 1, |s|);
    }
  }

  /** The words of a name are its pieces around the first blank. */
  lemma {:induction false} WordsOfName(s: string)
    ensures ' ' in s ==> s == FirstWord(s) + " " + OtherWords(s)
    ensures ' ' !in s ==> FirstWord(s) == s && OtherWords(s) == ""
  {
    if s == "" {
    } else {
      if s[0] == ' ' {
        assert s == [] + [' '] + s[1..];
      } else {
        WordsOfName(s[1..]);
        assert s == [s[0]] + s[1..];
      }
    }
  }

  /** A real name of several words is its first name, a blank and its last name;
      a single word is the first and the full name, and the last name is unknown. */
  lemma NamesFitTogether(lead: Lead, name: string)
    requires CleanName(lead) == Some(name) && name != ""
    ensures FullName(lead) == name
    ensures ' ' in name ==> FullName(lead) == FirstName(lead) + " " + LastName(lead)
    ensures ' ' !in name ==> FirstName(lead) == name && LastName(lead) == "there"
  {
    TrimIsPart(lead.name.value);
    WordsOfName(name);
    if ' ' in name {
      assert FirstWord(name) != "";
      var parts := FirstWord(name) + " ";
      assert name == parts + OtherWords(name);
      assert OtherWords(name) == "" ==> name == parts;
      assert parts[|parts| - 1] == ' ';
    }
  }

  /** Resolving a proper template for a clean context is one simultaneous
      substitution of the fourteen placeholders, and resolving again changes
      nothing. */
  lemma ResolveIsSubstitution(ps: seq<Piece>, lead: Lead, sender: Option<Sender>)
    requires Template(ps) && CleanContext(lead, sender)
    ensures ResolveTemplateVars(Render(ps), lead, sender) == Substitute(Render(ps), Vars(lead, sender))
    ensures ResolveTemplateVars(ResolveTemplateVars(Render(ps), lead, sender), lead, sender)
            == ResolveTemplateVars(Render(ps), lead, sender)
  {
    VarsAreNames(lead, sender);
    VarsAreClean(lead, sender);
    ChainIsSubstitution(ps, Vars(lead, sender));
    ChainIsIdempotent(ps, Vars(lead, sender));
  }

  /** Over all texts that holds exactly when no value completes the placeholder of
      a later variable. */
  lemma ResolveIsSubstitutionIff(lead: Lead, sender: Option<Sender>)
    requires CleanContext(lead, sender)
    ensures (forall text :: ResolveTemplateVars(text, lead, sender) == Substitute(text, Vars(lead, sender)))
            <==> NoneCompletes(Vars(lead, sender))
  {
    var vars := Vars(lead, sender);
    VarsAreNames(lead, sender);
    VarsAreClean(lead, sender);
    VarsAreDistinct(lead, sender);
    hide Vars;
    ChainIsSubstitutionIff(vars);
    if NoneCompletes(vars) {
      forall text ensures ResolveTemplateVars(text, lead, sender) == Substitute(text, vars) {
        assert ResolveTemplateVars(text, lead, sender) == Chain(text, vars);
      }
    } else {
      var text :| Chain(text, vars) != Substitute(text, vars);
      assert ResolveTemplateVars(text, lead, sender) == Chain(text, vars);
    }
  }

  /** Opening braces in the context do no harm as long as no value completes one. */
  lemma ResolveIsSubstitutionIfApart(text: string, lead: Lead, sender: Option<Sender>)
    requires NoPatterns(Vars(lead, sender)) && NoneCompletes(Vars(lead, sender))
    ensures ResolveTemplateVars(text, lead, sender) == Substitute(text, Vars(lead, sender))
  {
    VarsAreNames(lead, sender);
    hide Vars;
    ChainIsSubstitutionIfApart(text, Vars(lead, sender));
  }

  /** The value is missing, or empty. */
  predicate Absent(field: Option<string>) {
    Or(field, "") == ""
  }

  /** The same for body and subject at once.  It fails for every lead without a
      city, an industry, a niche or a website, because an empty value completes
      every placeholder: with no city `{{in{{city}}dustry}}` becomes the industry. */
  lemma AbsentFieldBreaksResolve(lead: Lead, sender: Option<Sender>)
    requires CleanContext(lead, sender)
    requires (Absent(Meta(lead, "city")) && Absent(lead.city)) || Absent(Meta(lead, "industry"))
             || Absent(Meta(lead, "niche")) || Absent(Meta(lead, "website"))
    ensures exists body, subject ::
              ResolveTemplateVarsWithSubject(body, subject, lead, sender)
              != (Substitute(body, Vars(lead, sender)), Substitute(subject, Vars(lead, sender)))
  {
    var vars := Vars(lead, sender);
    var i := EmptyCompanyVar(lead, sender);
    assert Agree("", Rest(vars[i + 1].name, 0));
    assert Completes(vars[i].value, vars[i + 1].name);
    ResolveIsSubstitutionIff(lead, sender);
    hide Vars, Completes;
    var text :| ResolveTemplateVars(text, lead, sender) != Substitute(text, vars);
    assert ResolveTemplateVarsWithSubject(text, text, lead, sender).0 == ResolveTemplateVars(text, lead, sender);
  }

  lemma EmptyCompanyVar(lead: Lead, sender: Option<Sender>) returns (i: nat)
    requires (Absent(Meta(lead, "city")) && Absent(lead.city)) || Absent(Meta(lead, "industry"))
             || Absent(Meta(lead, "niche")) || Absent(Meta(lead, "website"))
    ensures i + 1 < |Vars(lead, sender)| && Vars(lead, sender)[i].value == ""
  {
    hide Trimmed, NameVars;
    var at := if Absent(Meta(lead, "city")) && Absent(lead.city) then 2
              else if Absent(Meta(lead, "industry")) then 3
              else if Absent(Meta(lead, "niche")) then 4 else 5;
    assert CompanyVars(lead)[at].value == "";
    assert |SenderVars(sender)| == 4;
    i := |NameVars(lead)| + at;
  }

  /** The names of the fourteen placeholders. */
  const NAMES := [
    "firstName", "lastName", "name", "lead_name", "company", "business_name", "city",
    "industry", "niche", "website", "sender_name", "senderName", "sender.name", "sender_email"]

  lemma VarsAreNamed(lead: Lead, sender: Option<Sender>)
    ensures |Vars(lead, sender)| == |NAMES| && forall i :: 0 <= i < |NAMES| ==> Vars(lead, sender)[i].name == NAMES[i]
  {
    hide FirstName, LastName, FullName, Or, Trimmed, Meta;
  }

  lemma VarsAreDistinct(lead: Lead, sender: Option<Sender>)
    ensures DistinctNames(Vars(lead, sender))
  {
    VarsAreNamed(lead, sender);
    hide Vars;
    assert forall i, j :: 0 <= i < j < |NAMES| ==> NAMES[i] != NAMES[j];
  }

  // ---- what the placeholders stand for --------------------------------------------

  /** A placeholder alone resolves to its value. */
  lemma PlaceholderIs(i: nat, lead: Lead, sender: Option<Sender>)
    requires CleanContext(lead, sender) && i < |NAMES|
    ensures ResolveTemplateVars(Token(NAMES[i]), lead, sender) == Vars(lead, sender)[i].value
  {
    VarsAreNames(lead, sender);
    VarsAreClean(lead, sender);
    VarsAreDistinct(lead, sender);
    VarsAreNamed(lead, sender);
    hide Vars, Braceless, Clean, Token, Names, CleanValues, DistinctNames;
    TokenIsValue(Vars(lead, sender), i);
  }

  lemma TokenIsValue(vars: seq<Var>, i: nat)
    requires Names(vars) && CleanValues(vars) && DistinctNames(vars) && i < |vars|
    ensures Chain(Token(vars[i].name), vars) == vars[i].value
  {
    assert vars[i] in vars;
    LookupAt(vars, i);
    HoleIsFilled(vars[i].name, vars);
  }

  lemma HoleIsFilled(name: string, vars: seq<Var>)
    requires Names(vars) && CleanValues(vars) && Braceless(name) && name != "" && Lookup(name, vars).Some?
    ensures Chain(Token(name), vars) == Lookup(name, vars).value
  {
    var ps, value := [Hole(name)], Lookup(name, vars).value;
    ChainFills(ps, vars);
    assert ps[1..] == [];
    assert Render(ps) == Token(name) + "" == Token(name);
    assert FillAll(ps, vars) == [Plain(value)];
    assert [Plain(value)][1..] == [];
    assert Render([Plain(value)]) == value + "" == value;
  }

  /** The sender's placeholders are his trimmed name, or "there", and his trimmed
      address, or nothing. */
  lemma SenderPlaceholders(lead: Lead, sender: Option<Sender>, name: string, email: string)
    requires CleanContext(lead, sender)
    requires name == if sender.Some? && sender.value.name.Some? then Trim(sender.value.name.value) else ""
    requires email == if sender.Some? && sender.value.email.Some? then Trim(sender.value.email.value) else ""
    ensures forall text :: text in ["{{sender_name}}", "{{senderName}}", "{{sender.name}}"] ==>
              ResolveTemplateVars(text, lead, sender) == if name == "" then "there" else name
    ensures ResolveTemplateVars("{{sender_email}}", lead, sender) == email
  {
    SenderTokens();
    PlaceholderIs(10, lead, sender);
    PlaceholderIs(11, lead, sender);
    PlaceholderIs(12, lead, sender);
    PlaceholderIs(13, lead, sender);
    SenderValues(lead, sender);
    hide Vars, ResolveTemplateVars, CleanContext, Trim, Token;
  }

  lemma SenderValues(lead: Lead, sender: Option<Sender>)
    ensures |Vars(lead, sender)| == 14
    ensures var name := if sender.Some? && sender.value.name.Some? then Trim(sender.value.name.value) else "";
            forall i :: 10 <= i <= 12 ==> Vars(lead, sender)[i].value == if name == "" then "there" else name
    ensures Vars(lead, sender)[13].value
            == if sender.Some? && sender.value.email.Some? then Trim(sender.value.email.value) else ""
  {
    hide FirstName, LastName, FullName, Meta, Trim;
  }

  lemma SenderTokens()
    ensures Token(NAMES[10]) == "{{sender_name}}" && Token(NAMES[11]) == "{{senderName}}"
    ensures Token(NAMES[12]) == "{{sender.name}}" && Token(NAMES[13]) == "{{sender_email}}"
  {
  }

  /** The company is the trimmed one of the lead, or "your company"; the other fields
      come from the metadata, and the city from the lead when they have none. */
  lemma CompanyPlaceholders(lead: Lead, sender: Option<Sender>, company: string)
    requires CleanContext(lead, sender)
    requires company == if lead.company.Some? then Trim(lead.company.value) else ""
    ensures forall text :: text in ["{{company}}", "{{business_name}}"] ==>
              ResolveTemplateVars(text, lead, sender) == if company == "" then "your company" else company
    ensures ResolveTemplateVars("{{city}}", lead, sender)
            == if "city" in lead.metadata && lead.metadata["city"] != "" then lead.metadata["city"]
               else if lead.city.Some? then lead.city.value else ""
    ensures ResolveTemplateVars("{{industry}}", lead, sender)
            == if "industry" in lead.metadata then lead.metadata["industry"] else ""
    ensures ResolveTemplateVars("{{niche}}", lead, sender)
            == if "niche" in lead.metadata then lead.metadata["niche"] else ""
    ensures ResolveTemplateVars("{{website}}", lead, sender)
            == if "website" in lead.metadata then lead.metadata["website"] else ""
  {
    CompanyTokens();
    PlaceholderIs(4, lead, sender);
    PlaceholderIs(5, lead, sender);
    PlaceholderIs(6, lead, sender);
    PlaceholderIs(7, lead, sender);
    PlaceholderIs(8, lead, sender);
    PlaceholderIs(9, lead, sender);
    hide FirstName, LastName, FullName, ResolveTemplateVars, CleanContext, Trim, Token;
  }

  lemma CompanyTokens()
    ensures Token(NAMES[4]) == "{{company}}" && Token(NAMES[5]) == "{{business_name}}"
    ensures Token(NAMES[6]) == "{{city}}" && Token(NAMES[7]) == "{{industry}}"
    ensures Token(NAMES[8]) == "{{niche}}" && Token(NAMES[9]) == "{{website}}"
  {
  }

  /** A lead without a name, or with the name "Unknown", is "there".  Any other name is
      the full name; its first word is the first name, and what follows the blank the
      last name, which is "there" for a single word. */
  lemma NamePlaceholders(lead: Lead, sender: Option<Sender>, name: string)
    requires CleanContext(lead, sender)
    requires name == if lead.name.Some? && Trim(lead.name.value) != "Unknown" then Trim(lead.name.value) else ""
    ensures forall text :: text in ["{{name}}", "{{lead_name}}"] ==>
              ResolveTemplateVars(text, lead, sender) == if name == "" then "there" else name
    ensures name == "" ==> ResolveTemplateVars("{{firstName}}", lead, sender) == "there"
                           && ResolveTemplateVars("{{lastName}}", lead, sender) == "there"
    ensures name != "" && ' ' !in name ==> ResolveTemplateVars("{{firstName}}", lead, sender) == name
                                           && ResolveTemplateVars("{{lastName}}", lead, sender) == "there"
    ensures ' ' in name ==> ' ' !in ResolveTemplateVars("{{firstName}}", lead, sender)
    ensures ' ' in name ==> name == ResolveTemplateVars("{{firstName}}", lead, sender) + " "
                                    + ResolveTemplateVars("{{lastName}}", lead, sender)
  {
    NameTokens();
    PlaceholderIs(0, lead, sender);
    PlaceholderIs(1, lead, sender);
    PlaceholderIs(2, lead, sender);
    PlaceholderIs(3, lead, sender);
    hide ResolveTemplateVars, CleanContext, Trim, Token, CompanyVars, SenderVars;
    if name != "" {
      NamesFitTogether(lead, name);
      FirstWordIsOne(name);
      hide FullName;
    }
  }

  lemma {:induction false} FirstWordIsOne(s: string)
    ensures ' ' !in FirstWord(s)
  {
    if s == "" || s[0] == ' ' {
    } else {
      FirstWordIsOne(s[1..]);
    }
  }

  lemma NameTokens()
    ensures Token(NAMES[0]) == "{{firstName}}" && Token(NAMES[1]) == "{{lastName}}"
    ensures Token(NAMES[2]) == "{{name}}" && Token(NAMES[3]) == "{{lead_name}}"
  {
  }

  /** Body and subject are resolved alike, each in its place. */
  lemma SubjectIsSubstitution(ps: seq<Piece>, qs: seq<Piece>, lead: Lead, sender: Option<Sender>)
    requires Template(ps) && Template(qs) && CleanContext(lead, sender)
    ensures ResolveTemplateVarsWithSubject(Render(ps), Render(qs), lead, sender)
            == (Substitute(Render(ps), Vars(lead, sender)), Substitute(Render(qs), Vars(lead, sender)))
  {
    ResolveIsSubstitution(ps, lead, sender);
    ResolveIsSubstitution(qs, lead, sender);
  }

  lemma NameVarsAreNames(lead: Lead)
    ensures Names(NameVars(lead))
  {
    hide FirstName, LastName, FullName;
    assert Braceless("firstName") && Braceless("lastName") && Braceless("name") && Braceless("lead_name");
    hide Braceless;
  }

  lemma CompanyVarsAreNames(lead: Lead)
    ensures Names(CompanyVars(lead))
  {
    hide Meta, Or, Trimmed;
    assert Braceless("company") && Braceless("business_name") && Braceless("city");
    assert Braceless("industry") && Braceless("niche") && Braceless("website");
    hide Braceless;
  }

  lemma SenderVarsAreNames(sender: Option<Sender>)
    ensures Names(SenderVars(sender))
  {
    hide Or, Trimmed;
    assert Braceless("sender_name") && Braceless("senderName");
    assert Braceless("sender.name") && Braceless("sender_email");
    hide Braceless;
  }

  lemma VarsAreNames(lead: Lead, sender: Option<Sender>)
    ensures Names(Vars(lead, sender))
  {
    NameVarsAreNames(lead);
    CompanyVarsAreNames(lead);
    SenderVarsAreNames(sender);
    hide NameVars, CompanyVars, SenderVars;
  }

  lemma NameVarsAreClean(lead: Lead)
    requires CleanField(lead.name)
    ensures CleanValues(NameVars(lead))
  {
    FieldTrims(lead.name);
    assert Clean("there");
    if CleanName(lead).Some? {
      WordsAreClean(CleanName(lead).value);
    }
    assert Clean(FirstName(lead)) && Clean(LastName(lead)) && Clean(FullName(lead));
    hide FirstName, LastName, FullName;
  }

  lemma OrIsClean(value: Option<string>, fallback: string)
    requires CleanField(value) && Clean(fallback)
    ensures Clean(Or(value, fallback))
  {
  }

  lemma CompanyVarsAreClean(lead: Lead)
    requires CleanField(lead.company) && CleanField(lead.city)
    requires forall key :: key in lead.metadata ==> Clean(lead.metadata[key])
    ensures CleanValues(CompanyVars(lead))
  {
    FieldTrims(lead.company);
    assert Clean("your company");
    OrIsClean(Trimmed(lead.company), "your company");
    OrIsClean(lead.city, "");
    OrIsClean(Meta(lead, "city"), Or(lead.city, ""));
    OrIsClean(Meta(lead, "industry"), "");
    OrIsClean(Meta(lead, "niche"), "");
    OrIsClean(Meta(lead, "website"), "");
    hide Or, Trimmed, Meta;
  }

  lemma SenderVarsAreClean(sender: Option<Sender>)
    requires sender.Some? ==> CleanField(sender.value.name) && CleanField(sender.value.email)
    ensures CleanValues(SenderVars(sender))
  {
    assert Clean("there");
    if sender.Some? {
      FieldTrims(sender.value.name);
      FieldTrims(sender.value.email);
      OrIsClean(Trimmed(sender.value.name), "there");
      OrIsClean(Trimmed(sender.value.email), "");
      hide Or, Trimmed;
    }
  }

  lemma VarsAreClean(lead: Lead, sender: Option<Sender>)
    requires CleanContext(lead, sender)
    ensures CleanValues(Vars(lead, sender))
  {
    NameVarsAreClean(lead);
    CompanyVarsAreClean(lead);
    SenderVarsAreClean(sender);
    hide NameVars, CompanyVars, SenderVars;
  }

  lemma FieldTrims(field: Option<string>)
    requires CleanField(field)
    ensures CleanField(Trimmed(field))
  {
    if field.Some? {
      TrimIsClean(field.value);
    }
  }
}
