/**
 * The v1 `/css` handler of css.mjs: `family` is a `|`-separated list of `Name:tokens`
 * entries, each token a weight, a weight with an `i`/`italic` suffix, or one of the
 * `i`/`b`/`bold` shorthands. The subset loop rewrites the current style and weight in
 * place, so a token is resolved while its blocks are written.
 */
module Css1 {
  import opened Wrappers
  import opened Strings
  import opened FontFace

  const LAYOUT: Layout := Layout("", "  ")

  /** The all-letter tokens the weight map passes through. */
  const SHORTHANDS: seq<string> := ["i", "italic", "b", "bold", "bi", "ib", "bolditalic", "italicbold"]

  predicate IsLetter(c: char) {
    'a' <= c <= 'z' || 'A' <= c <= 'Z'
  }

  /** `/^[a-zA-Z]+$/.test(weight)`. */
  predicate AllLetters(s: string) {
    s != [] && forall i :: 0 <= i < |s| ==> IsLetter(s[i])
  }

  // ---------------------------------------------------------------- the token map

  /** The `.map` callback over the weight tokens of one family. */
  function MapToken(w: string): string {
    if w == "i" || w == "italic" then "400i"
    else if AllLetters(w) && w !in SHORTHANDS then "400"
    else w
  }

  /** The weight tokens of a family: the text after its first `:`, split on `,`, mapped. */
  function Tokens(spec: string): (ws: seq<string>)
    ensures |ws| == |Split(spec, ",")| && |ws| >= 1
  {
    var parts := Split(spec, ",");
    seq(|parts|, i requires 0 <= i < |parts| => MapToken(parts[i]))
  }

  /** A parsed family entry: displayed name, lower-cased hyphenated id, mapped tokens. */
  datatype Family = Family(name: string, id: string, weights: seq<string>)

  /** `family.split(":")[1].split(",")` throws when the entry has no `:`. */
  function Parse(family: string): Option<Family> {
    var parts := Split(family, ":");
    if |parts| < 2 then None
    else Some(Family(parts[0], DashId(parts[0]), Tokens(parts[1])))
  }

  // ---------------------------------------------------------------- the subset loop body

  /**
   * One pass of the subset loop body over the current style and weight: an `italic`
   * or `i` in the weight makes the style italic and removes the first `italic`, then
   * the first `i`; a `b` (or `bold`) left over makes the weight `700`.
   */
  function Step(style: Style, weight: string): (Style, string) {
    var italic := Contains(weight, "italic") || Contains(weight, "i");
    var s := if italic then Italic else style;
    var w := if italic then ReplaceFirst(ReplaceFirst(weight, "italic", ""), "i", "") else weight;
    (s, if Contains(w, "b") || Contains(w, "bold") then "700" else w)
  }

  // ---------------------------------------------------------------- the handler

  /** `font-display` is always `swap` when `display` is truthy; URLs carry no query. */
  function Context(f: Family, display: Option<string>, env: Env): FaceCtx {
    FaceCtx(f.name, f.id, SwapDisplay(display), "", env.domain, env.catalog)
  }

  /** The rules of one entry, or `None` when the request throws at it. */
  function FamilyRules(family: string, display: Option<string>, env: Env): Option<seq<Rule>> {
    match Parse(family)
    case None => None
    case Some(f) =>
      var p := Find(env.data, f.id);
      if !Listed(p) then None
      else Some(WeightWalk(Context(f, display, env), Step, Normal, f.weights, SubsetsOf(p)).rules)
  }

  function Outcomes(families: seq<string>, display: Option<string>, env: Env): (os: seq<Option<seq<Rule>>>)
    ensures |os| == |families|
  {
    Each(FamilyRules, families, display, env)
  }

  lemma OutcomesSnoc(families: seq<string>, n: nat, display: Option<string>, env: Env)
    requires n < |families|
    ensures Outcomes(families[..n + 1], display, env)
         == Outcomes(families[..n], display, env) + [FamilyRules(families[n], display, env)]
  {
    EachSnoc(FamilyRules, families, n, display, env);
  }

  /** `familyQuery.split("|")`; anything but a single string parameter throws. */
  function Families(p: Param): seq<string>
    requires p.One?
  {
    Split(p.value, "|")
  }

  function Rules(q: Query, env: Env): Option<seq<Rule>>
    requires q.family.One?
  {
    Gather(Outcomes(Families(q.family), q.display, env))
  }

  /** The outcome of the handler; every exception it catches becomes a status 500. */
  function Reply(q: Query, env: Env): Response {
    if !q.family.One? then ServerError(RuntimeError)
    else
      match Rules(q, env)
      case None => ServerError(RuntimeError)
      case Some(rs) => if rs == [] then StringError(CONTACT) else Css(Assemble(Renders(LAYOUT, rs)))
  }

  /** The subset loop with its in-place rewrite of `style` and `weight`. */
  method PushSubsets(payload: seq<string>, c: FaceCtx, style0: Style, weight0: string, subsets: seq<string>)
    returns (out: seq<string>, style: Style, weight: string)
    ensures var walk := SubsetWalk(c, Step, style0, weight0, subsets);
      out == payload + Renders(LAYOUT, walk.rules) && style == walk.style && weight == walk.weight
  {
    out, style, weight := payload, style0, weight0;
    for k := 0 to |subsets|
      invariant var walk := SubsetWalk(c, Step, style0, weight0, subsets[..k]);
        out == payload + Renders(LAYOUT, walk.rules) && style == walk.style && weight == walk.weight
    {
      ghost var prev := SubsetWalk(c, Step, style0, weight0, subsets[..k]);
      SubsetWalkSnoc(c, Step, style0, weight0, subsets, k);
      if Contains(weight, "italic") || Contains(weight, "i") {
        style := Italic;
        weight := ReplaceFirst(ReplaceFirst(weight, "italic", ""), "i", "");
      }
      if Contains(weight, "b") || Contains(weight, "bold") {
        weight := "700";
      }
      assert (style, weight) == Step(prev.style, prev.weight);
      PushOne(LAYOUT, payload, prev.rules, Face(c, style, weight, subsets[k]));
      out := out + [Render(LAYOUT, Face(c, style, weight, subsets[k]))];
    }
    assert subsets[..|subsets|] == subsets;
  }

  /** The weight loop of one family; `style` starts normal and is never reset. */
  method PushFamily(payload: seq<string>, c: FaceCtx, weights: seq<string>, subsets: seq<string>)
    returns (out: seq<string>)
    ensures out == payload + Renders(LAYOUT, WeightWalk(c, Step, Normal, weights, subsets).rules)
  {
    out := payload;
    var style := Normal;
    for j := 0 to |weights|
      invariant var run := WeightWalk(c, Step, Normal, weights[..j], subsets);
        out == payload + Renders(LAYOUT, run.rules) && style == run.style
    {
      assert weights[..j + 1][..j] == weights[..j];
      ghost var prev := WeightWalk(c, Step, Normal, weights[..j], subsets);
      ghost var walk := SubsetWalk(c, Step, style, weights[j], subsets);
      var weight;
      out, style, weight := PushSubsets(out, c, style, weights[j], subsets);
      RendersAfter(LAYOUT, payload, prev.rules, walk.rules);
    }
    assert weights[..|weights|] == weights;
  }

  /** The `css` handler. */
  method Handle(q: Query, env: Env) returns (r: Response)
    ensures r == Reply(q, env)
  {
    if !q.family.One? {
      return ServerError(RuntimeError);
    }
    var families := Split(q.family.value, "|");
    var payload: seq<string> := [];
    ghost var rules: seq<Rule> := [];
    for n := 0 to |families|
      invariant Gather(Outcomes(families[..n], q.display, env)) == Some(rules)
      invariant payload == Renders(LAYOUT, rules)
    {
      OutcomesSnoc(families, n, q.display, env);
      var parsed := Parse(families[n]);
      if parsed.None? {
        assert Outcomes(families, q.display, env)[n].None?;
        return ServerError(RuntimeError);
      }
      var f := parsed.value;
      var properties := Find(env.data, f.id);
      if !Listed(properties) {
        assert Outcomes(families, q.display, env)[n].None?;
        return ServerError(RuntimeError);
      }
      var subsets := properties.value.subsets.value;
      var c := Context(f, q.display, env);
      ghost var more := WeightWalk(c, Step, Normal, f.weights, subsets).rules;
      assert FamilyRules(families[n], q.display, env) == Some(more);
      payload := PushFamily(payload, c, f.weights, subsets);
      RendersAppend(LAYOUT, rules, more);
      GatherAppend(Outcomes(families[..n], q.display, env), rules, more);
      rules := rules + more;
    }
    assert families[..|families|] == families;
    if |payload| == 0 {
      return StringError(CONTACT);
    }
    return Css(Assemble(payload));
  }

  // ---------------------------------------------------------------- the token map

  /**
   * The map turns `i`/`italic` into `400i` and every other all-letter word outside the
   * shorthands into `400`; what it returns is never such a word, and mapping twice
   * changes nothing.
   */
  lemma MapTokenShape(w: string)
    ensures MapToken(w) == "400i" || MapToken(w) == "400" || MapToken(w) == w
    ensures w == "i" || w == "italic" ==> MapToken(w) == "400i"
    ensures w in SHORTHANDS && w != "i" && w != "italic" ==> MapToken(w) == w
    ensures AllDigits(w) ==> MapToken(w) == w
    ensures !(AllLetters(MapToken(w)) && MapToken(w) !in SHORTHANDS)
    ensures MapToken(w) != "i" && MapToken(w) != "italic"
    ensures MapToken(MapToken(w)) == MapToken(w)
  {
    assert !IsLetter("400i"[0]) && !IsLetter("400"[0]);
    if AllDigits(w) && w != [] {
      assert !IsLetter(w[0]);
    }
  }

  // ---------------------------------------------------------------- the rewrite

  lemma ItalicHasI(w: string)
    ensures Contains(w, "italic") ==> Contains(w, "i")
    ensures Contains(w, "bold") ==> Contains(w, "b")
  {
    if Contains(w, "italic") {
      ContainsHas(w, "italic", 'i');
      ContainsChar(w, 'i');
    }
    if Contains(w, "bold") {
      ContainsHas(w, "bold", 'b');
      ContainsChar(w, 'b');
    }
  }

  /** The rewrite makes the style italic exactly when the weight has an `i`, and never back. */
  lemma StepStyle(style: Style, weight: string)
    ensures Step(style, weight).0 == Italic <==> style == Italic || Contains(weight, "i")
    ensures !Contains(weight, "i") ==> Step(style, weight).0 == style
  {
    ItalicHasI(weight);
  }

  /** A rewritten weight has no `b` left, and once it has no `i` either, the rewrite is stable. */
  lemma StepSettles(style: Style, weight: string)
    ensures !Contains(Step(style, weight).1, "b")
    ensures !Contains(Step(style, weight).1, "i") ==> Step(Step(style, weight).0, Step(style, weight).1) == Step(style, weight)
  {
    var (s, w) := Step(style, weight);
    assert !Contains("700", "b") by { ContainsChar("700", 'b'); }
    ItalicHasI(w);
  }

  /** `b` and `bold` give weight 700 and keep the style. */
  lemma StepBold(style: Style)
    ensures Step(style, "b") == (style, "700")
    ensures Step(style, "bold") == (style, "700")
  {
    ContainsChar("b", 'i');
    ContainsChar("bold", 'i');
    ItalicHasI("b");
    ItalicHasI("bold");
    ContainsChar("b", 'b');
    ContainsChar("bold", 'b');
  }

  /** A pattern with a character the weight lacks does not occur in it. */
  lemma Lacks(w: string, pat: string, c: char)
    requires c in pat && c !in w
    ensures !Contains(w, pat)
  {
    if Contains(w, pat) {
      ContainsHas(w, pat, c);
    }
  }

  /** `bi`, `ib`, `bolditalic` and `italicbold` all end as italic 700, whatever the style before. */
  lemma StepBoldItalic(style: Style)
    ensures Step(style, "bi") == (Italic, "700")
    ensures Step(style, "ib") == (Italic, "700")
    ensures Step(style, "bolditalic") == (Italic, "700")
    ensures Step(style, "italicbold") == (Italic, "700")
  {
    StepShort(style);
    StepBoldThenItalic(style);
    StepItalicThenBold(style);
  }

  lemma StepShort(style: Style)
    ensures Step(style, "bi") == (Italic, "700")
    ensures Step(style, "ib") == (Italic, "700")
  {
    Lacks("bi", "italic", 't');
    Lacks("ib", "italic", 't');
    ReplaceFirstAt("b", "i", "", "");
    assert "b" + "i" + "" == "bi" && "b" + "" + "" == "b";
    ReplaceFirstAt("", "i", "b", "");
    assert "" + "i" + "b" == "ib" && "" + "" + "b" == "b";
    ContainsChar("b", 'b');
  }

  /** Removing `italic` from `bolditalic` leaves `bold`. */
  lemma StepBoldThenItalic(style: Style)
    ensures Step(style, "bolditalic") == (Italic, "700")
  {
    ReplaceFirstAt("bold", "italic", "", "");
    assert "bold" + "italic" + "" == "bolditalic";
    assert "bold" + "" + "" == "bold";
  }

  lemma StepItalicThenBold(style: Style)
    ensures Step(style, "italicbold") == (Italic, "700")
  {
    ReplaceFirstAt("", "italic", "bold", "");
    assert "" + "italic" + "bold" == "italicbold";
    assert "" + "" + "bold" == "bold";
  }

  lemma DigitsLack(d: string, c: char)
    requires AllDigits(d) && !IsDigit(c)
    ensures c !in d
  {
  }

  /**
   * A numeric weight is kept with the style it meets; with an `i` or `italic` suffix
   * (which `i`/`italic` themselves become) it is italic with the suffix removed.
   */
  lemma StepDigits(style: Style, d: string)
    requires AllDigits(d)
    ensures Step(style, d) == (style, d)
    ensures Step(style, d + "i") == (Italic, d)
    ensures Step(style, d + "italic") == (Italic, d)
  {
    DigitsLack(d, 'i');
    DigitsLack(d, 'b');
    Lacks(d, "i", 'i');
    Lacks(d, "italic", 'i');
    Lacks(d, "b", 'b');
    Lacks(d, "bold", 'b');
    assert d + "i" == d + "i" + "";
    ReplaceFirstAt(d, "i", "", "");
    assert d + "" + "" == d;
    Lacks(d + "i", "italic", 't');
    assert d + "italic" == d + "italic" + "";
    ReplaceFirstAt(d, "italic", "", "");
    assert d + "" + "" == d;
    ItalicHasI(d + "italic");
  }

  // ---------------------------------------------------------------- the loops

  /** Italic never turns back to normal: every later block, and the state left, stays italic. */
  predicate StaysItalic(rs: seq<Rule>, last: Style) {
    (forall a, b :: 0 <= a <= b < |rs| && rs[a].style == Italic ==> rs[b].style == Italic)
    && (forall a :: 0 <= a < |rs| && rs[a].style == Italic ==> last == Italic)
  }

  predicate AllItalic(rs: seq<Rule>) {
    forall a :: 0 <= a < |rs| ==> rs[a].style == Italic
  }

  lemma StaysItalicSnoc(rs: seq<Rule>, last: Style, r: Rule)
    requires StaysItalic(rs, last) && (last == Italic ==> r.style == Italic)
    ensures StaysItalic(rs + [r], r.style)
  {
    var xs := rs + [r];
    forall a, b | 0 <= a <= b < |xs| && xs[a].style == Italic
      ensures xs[b].style == Italic
    {
      if b == |rs| && a < |rs| {
        assert rs[a].style == Italic;
      }
    }
    forall a | 0 <= a < |xs| && xs[a].style == Italic
      ensures r.style == Italic
    {
      if a < |rs| {
        assert rs[a].style == Italic;
      }
    }
  }

  lemma StaysItalicAppend(a: seq<Rule>, la: Style, b: seq<Rule>, lb: Style)
    requires StaysItalic(a, la) && StaysItalic(b, lb)
    requires la == Italic ==> AllItalic(b) && lb == Italic
    ensures StaysItalic(a + b, lb)
  {
    var xs := a + b;
    forall i, j | 0 <= i <= j < |xs| && xs[i].style == Italic
      ensures xs[j].style == Italic
    {
      if i < |a| {
        assert a[i].style == Italic;
        if j < |a| {
          assert a[j] == xs[j];
        } else {
          assert b[j - |a|] == xs[j];
        }
      } else {
        assert b[i - |a|] == xs[i] && b[j - |a|] == xs[j];
      }
    }
    forall i | 0 <= i < |xs| && xs[i].style == Italic
      ensures lb == Italic
    {
      if i < |a| {
        assert a[i].style == Italic;
      } else {
        assert b[i - |a|] == xs[i];
      }
    }
  }

  lemma AllItalicAppend(a: seq<Rule>, b: seq<Rule>)
    requires AllItalic(a) && AllItalic(b)
    ensures AllItalic(a + b)
  {
    forall i | 0 <= i < |a + b|
      ensures (a + b)[i].style == Italic
    {
      if i < |a| {
        assert (a + b)[i] == a[i];
      } else {
        assert (a + b)[i] == b[i - |a|];
      }
    }
  }

  lemma {:induction false} SubsetWalkItalic(c: FaceCtx, style: Style, weight: string, subsets: seq<string>)
    ensures var w := SubsetWalk(c, Step, style, weight, subsets);
      StaysItalic(w.rules, w.style)
      && (style == Italic ==> AllItalic(w.rules) && w.style == Italic)
    decreases |subsets|
  {
    if subsets != [] {
      var n := |subsets| - 1;
      var prev := SubsetWalk(c, Step, style, weight, subsets[..n]);
      var next := Step(prev.style, prev.weight);
      var r := Face(c, next.0, next.1, subsets[n]);
      assert SubsetWalk(c, Step, style, weight, subsets) == Walk(prev.rules + [r], next.0, next.1);
      SubsetWalkItalic(c, style, weight, subsets[..n]);
      StepStyle(prev.style, prev.weight);
      StaysItalicSnoc(prev.rules, prev.style, r);
      if style == Italic {
        AllItalicAppend(prev.rules, [r]);
      }
    }
  }

  /** The same across the weights of a family, since `style` is never reset. */
  lemma {:induction false} WeightWalkItalic(c: FaceCtx, style: Style, weights: seq<string>, subsets: seq<string>)
    ensures var r := WeightWalk(c, Step, style, weights, subsets);
      StaysItalic(r.rules, r.style)
      && (style == Italic ==> AllItalic(r.rules) && r.style == Italic)
    decreases |weights|
  {
    if weights != [] {
      var n := |weights| - 1;
      var prev := WeightWalk(c, Step, style, weights[..n], subsets);
      var walk := SubsetWalk(c, Step, prev.style, weights[n], subsets);
      assert WeightWalk(c, Step, style, weights, subsets) == Run(prev.rules + walk.rules, walk.style);
      WeightWalkItalic(c, style, weights[..n], subsets);
      SubsetWalkItalic(c, prev.style, weights[n], subsets);
      StaysItalicAppend(prev.rules, prev.style, walk.rules, walk.style);
      if style == Italic {
        AllItalicAppend(prev.rules, walk.rules);
      }
    }
  }

  /**
   * A token whose first rewrite leaves no `i` writes the same style and weight for
   * every subset; until then, later subsets see the weight rewritten by earlier ones.
   */
  lemma TokenSettled(c: FaceCtx, style: Style, weight: string, subsets: seq<string>)
    requires subsets != [] && !Contains(Step(style, weight).1, "i")
    ensures var w := SubsetWalk(c, Step, style, weight, subsets); var s := Step(style, weight);
      w.style == s.0 && w.weight == s.1
      && forall k :: 0 <= k < |subsets| ==> w.rules[k].style == s.0 && w.rules[k].weight == s.1
  {
    StepSettles(style, weight);
    SubsetWalkSettled(c, Step, style, weight, subsets);
  }

  // ---------------------------------------------------------------- parsing

  /** An entry without `:` makes the request throw. */
  lemma ParseBare(family: string)
    requires ':' !in family
    ensures Parse(family) == None
  {
    SplitNone(family, ":");
  }

  /**
   * `Name:tokens` keeps the name as displayed, looks it up lower-cased and hyphenated
   * (no alias), and reads its tokens up to any further `:`.
   */
  lemma ParseEntry(family: string, name: string, rest: string)
    requires family == name + ":" + rest && ':' !in name
    ensures Parse(family) == Some(Family(name, DashId(name), Tokens(Split(rest, ":")[0])))
  {
    SplitFirst(name, ":", rest);
  }

  /** The tokens of a `,`-joined list are its items, each mapped, in order. */
  lemma TokensJoin(items: seq<string>)
    requires |items| >= 1 && forall i :: 0 <= i < |items| ==> ',' !in items[i]
    ensures Tokens(Join(items, ",")) == seq(|items|, i requires 0 <= i < |items| => MapToken(items[i]))
  {
    SplitJoin(items, ',');
  }

  /** The `|`-joined entries of a single `family` parameter are read back one by one. */
  lemma FamiliesJoin(entries: seq<string>)
    requires |entries| >= 1 && forall i :: 0 <= i < |entries| ==> '|' !in entries[i]
    ensures Families(One(Join(entries, "|"))) == entries
  {
    SplitJoin(entries, '|');
  }

  // ---------------------------------------------------------------- blocks of one family

  /**
   * A listed family gives one block per token and subset, token-major: block
   * `j * |subsets| + k` is for subset k, written with the rewrite of token j.
   */
  lemma {:induction false} FamilyBlockAt(family: string, display: Option<string>, env: Env, j: nat, k: nat, idx: nat)
    requires Parse(family).Some? && Listed(Find(env.data, Parse(family).value.id))
    requires var f := Parse(family).value;
      j < |f.weights| && k < |SubsetsOf(Find(env.data, f.id))|
      && idx == j * |SubsetsOf(Find(env.data, f.id))| + k
    ensures var f := Parse(family).value; var subsets := SubsetsOf(Find(env.data, f.id));
      var rs := FamilyRules(family, display, env).value;
      |rs| == |f.weights| * |subsets| && idx < |rs| && rs[idx].subset == subsets[k]
      && rs[idx] == SubsetWalk(Context(f, display, env), Step,
                               WeightWalk(Context(f, display, env), Step, Normal, f.weights[..j], subsets).style,
                               f.weights[j], subsets).rules[k]
  {
    var f := Parse(family).value;
    var subsets := SubsetsOf(Find(env.data, f.id));
    var c := Context(f, display, env);
    WeightWalkAt(c, Step, Normal, f.weights, subsets, j, k, idx);
    SubsetWalkShare(c, Step, WeightWalk(c, Step, Normal, f.weights[..j], subsets).style, f.weights[j], subsets);
  }

  // ---------------------------------------------------------------- the response

  /**
   * The request fails with status 500 exactly when `family` is not one string, or
   * some entry has no `:`, or names a family the registry does not list with subsets.
   */
  lemma ReplyFails(q: Query, env: Env)
    ensures Reply(q, env) == ServerError(RuntimeError) <==>
      !q.family.One? ||
      exists i :: 0 <= i < |Families(q.family)| &&
        var p := Parse(Families(q.family)[i]);
        p.None? || !Listed(Find(env.data, p.value.id))
  {
    if q.family.One? {
      var fs := Families(q.family);
      var os := Outcomes(fs, q.display, env);
      forall i | 0 <= i < |fs|
        ensures os[i].None? <==> var p := Parse(fs[i]); p.None? || !Listed(Find(env.data, p.value.id))
      {
      }
    }
  }

  /**
   * The thrown contact string needs every entry to parse and be listed, yet no block:
   * a family always has at least one token, so only empty subset lists give none.
   */
  lemma ReplyEmpty(q: Query, env: Env)
    ensures Reply(q, env) == StringError(CONTACT) <==>
      q.family.One? && forall i :: 0 <= i < |Families(q.family)| ==>
        var p := Parse(Families(q.family)[i]);
        p.Some? && Listed(Find(env.data, p.value.id)) && SubsetsOf(Find(env.data, p.value.id)) == []
  {
    if q.family.One? {
      assert Reply(q, env) == StringError(CONTACT) <==> Rules(q, env) == Some([]);
      RulesEmpty(Families(q.family), q.display, env);
    }
  }

  /** No rules at all exactly when every entry parses, is listed and has no subsets. */
  lemma RulesEmpty(families: seq<string>, display: Option<string>, env: Env)
    ensures Gather(Outcomes(families, display, env)) == Some([]) <==>
      forall i :: 0 <= i < |families| ==>
        var p := Parse(families[i]);
        p.Some? && Listed(Find(env.data, p.value.id)) && SubsetsOf(Find(env.data, p.value.id)) == []
  {
    var os := Outcomes(families, display, env);
    forall i | 0 <= i < |os|
      ensures os[i] == Some([]) <==>
        var p := Parse(families[i]);
        p.Some? && Listed(Find(env.data, p.value.id)) && SubsetsOf(Find(env.data, p.value.id)) == []
    {
      var p := Parse(families[i]);
      assert os[i] == FamilyRules(families[i], display, env);
      if p.Some? && Listed(Find(env.data, p.value.id)) {
        MulZero(|p.value.weights|, |SubsetsOf(Find(env.data, p.value.id))|);
      }
    }
    GatherNone(os);
  }

  /** A CSS body is the blocks joined by single spaces, less the newline that opens the first. */
  lemma ReplyCss(q: Query, env: Env)
    ensures Reply(q, env).Css? <==> q.family.One? && Rules(q, env).Some? && Rules(q, env).value != []
    ensures q.family.One? && Rules(q, env).Some? && Rules(q, env).value != [] ==>
      Join(Renders(LAYOUT, Rules(q, env).value), " ") == "\n" + LAYOUT.outer + Reply(q, env).body
  {
    if q.family.One? && Rules(q, env).Some? && Rules(q, env).value != [] {
      var rs := Rules(q, env).value;
      assert Reply(q, env) == Css(Assemble(Renders(LAYOUT, rs)));
      BodyOpens(LAYOUT, rs, Reply(q, env).body);
    }
  }

  /**
   * Every block of the response belongs to one entry: it shows that entry's name as
   * written, `font-display: swap` when `display` is truthy, and the URL for its own
   * id, style and weight.
   */
  lemma RulesShare(q: Query, env: Env)
    requires q.family.One? && Rules(q, env).Some?
    ensures forall x :: x in Rules(q, env).value ==>
      x.display == SwapDisplay(q.display) && x.range == UnicodeRange(env.catalog, x.subset)
      && exists i :: 0 <= i < |Families(q.family)| && Parse(Families(q.family)[i]).Some? &&
           var f := Parse(Families(q.family)[i]).value;
           x.family == f.name && x.url == FontUrl(env.domain, DashId(f.name), x.style, x.weight)
  {
    var fs := Families(q.family);
    var os := Outcomes(fs, q.display, env);
    GatherMembers(os);
    forall i | 0 <= i < |os|
      ensures os[i].Some? ==> Parse(fs[i]).Some? && forall x :: x in os[i].value ==>
        x.display == SwapDisplay(q.display) && x.range == UnicodeRange(env.catalog, x.subset)
        && x.family == Parse(fs[i]).value.name
        && x.url == FontUrl(env.domain, DashId(Parse(fs[i]).value.name), x.style, x.weight)
    {
      if os[i].Some? {
        var f := Parse(fs[i]).value;
        var c := Context(f, q.display, env);
        WeightWalkShare(c, Step, Normal, f.weights, SubsetsOf(Find(env.data, f.id)));
        assert FontUrl(env.domain, f.id, Normal, "") + "" == FontUrl(env.domain, f.id, Normal, "");
        forall x | x in os[i].value
          ensures x.url == FontUrl(env.domain, f.id, x.style, x.weight)
        {
          assert FontUrl(env.domain, f.id, x.style, x.weight) + "" == FontUrl(env.domain, f.id, x.style, x.weight);
        }
      }
    }
  }

  // ---------------------------------------------------------------- examples

  /** `Name:i,700` with one subset: the `i` token makes the following `700` italic too. */
  lemma StickyExample(c: FaceCtx, sub: string)
    ensures var rs := WeightWalk(c, Step, Normal, Tokens("i,700"), [sub]).rules;
      |rs| == 2 && rs[0].style == Italic && rs[0].weight == "400"
      && rs[1].style == Italic && rs[1].weight == "700"
  {
    TokensExample();
    StickyWalk(c, Tokens("i,700"), sub);
  }

  lemma TokensExample()
    ensures Tokens("i,700") == ["400i", "700"]
  {
    var items := ["i", "700"];
    TokensJoin(items);
    assert Join(items, ",") == "i,700";
    assert !IsLetter("700"[0]);
    assert MapToken(items[0]) == "400i" && MapToken(items[1]) == "700";
  }

  lemma StickyWalk(c: FaceCtx, ws: seq<string>, sub: string)
    requires ws == ["400i", "700"]
    ensures var rs := WeightWalk(c, Step, Normal, ws, [sub]).rules;
      |rs| == 2 && rs[0].style == Italic && rs[0].weight == "400"
      && rs[1].style == Italic && rs[1].weight == "700"
  {
    var first := FirstWalk(c, sub);
    assert ws[..1] == ["400i"] && ws[..1][..0] == [] && ws[..1][0] == "400i";
    assert WeightWalk(c, Step, Normal, [], [sub]) == Run([], Normal);
    var prev := WeightWalk(c, Step, Normal, ws[..1], [sub]);
    assert prev == Run([] + first.rules, first.style);
    assert prev.rules == first.rules && prev.style == Italic;
    var second := SecondWalk(c, sub);
    assert WeightWalk(c, Step, Normal, ws, [sub]).rules == prev.rules + second.rules;
  }

  lemma FirstWalk(c: FaceCtx, sub: string) returns (w: Walk)
    ensures w == SubsetWalk(c, Step, Normal, "400i", [sub])
    ensures |w.rules| == 1 && w.rules[0].style == Italic && w.rules[0].weight == "400" && w.style == Italic
  {
    StepDigits(Normal, "400");
    assert "400" + "i" == "400i";
    assert [sub][..1] == [sub] && [sub][..0] == [];
    SubsetWalkSnoc(c, Step, Normal, "400i", [sub], 0);
    assert SubsetWalk(c, Step, Normal, "400i", []) == Walk([], Normal, "400i");
    w := SubsetWalk(c, Step, Normal, "400i", [sub]);
  }

  lemma SecondWalk(c: FaceCtx, sub: string) returns (w: Walk)
    ensures w == SubsetWalk(c, Step, Italic, "700", [sub])
    ensures |w.rules| == 1 && w.rules[0].style == Italic && w.rules[0].weight == "700"
  {
    StepDigits(Italic, "700");
    assert [sub][..0] == [];
    w := SubsetWalk(c, Step, Italic, "700", [sub]);
  }
}
