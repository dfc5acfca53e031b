/**
 * The earlier `/css2` handler of css2-old.mjs. A token is parsed only when it mentions
 * `wght` or `ital` anywhere; its `;`-separated values are `s,w` pairs or bare values,
 * read by rewriting the family's `style` and the loop's `weight` in place during
 * the subset loop.
 */
module Css2Old {
  import opened Wrappers
  import opened Strings
  import opened FontFace

  /** The blocks of this version carry no indentation. */
  const LAYOUT: Layout := Layout("", "")

  /** `family.includes("wght") || family.includes("ital")`. */
  predicate Triggered(family: string) {
    Contains(family, "wght") || Contains(family, "ital")
  }

  /**
   * `family.split(":")[1]?.split("@")[1]?.split(";").filter((n) => n)`: the weight
   * list, `None` where a missing `:` or `@` makes it `undefined`.
   */
  function AxisWeights(family: string): Option<seq<string>> {
    var parts := Split(family, ":");
    if |parts| < 2 then None
    else
      var at := Split(parts[1], "@");
      if |at| < 2 then None else Some(NonEmpty(Split(at[1], ";")))
  }

  /** A parsed token: the displayed name, the looked-up id, and the weight list if defined. */
  datatype Family = Family(name: string, id: string, weights: Option<seq<string>>)

  /**
   * The family name is always the text before the first `:`, but only a triggered
   * token has its id cut there; otherwise the id is the whole normalised token.
   */
  function Parse(family: string): Family {
    var dash := DashId(family);
    if Triggered(family) then Family(Split(family, ":")[0], Alias(Split(dash, ":")[0]), AxisWeights(family))
    else Family(Split(family, ":")[0], Alias(dash), Some(["400"]))
  }

  /**
   * One pass of the subset loop body: `s,w` sets the style (normal only for `0`) and
   * the weight `w`; a bare `0` or `1` is normal or italic 400; anything else keeps both.
   */
  function Step(style: Style, weight: string): (Style, string) {
    if Contains(weight, ",") then
      var parts := Split(weight, ",");
      (if parts[0] == "0" then Normal else Italic, parts[1])
    else if weight == "0" then (Normal, "400")
    else if weight == "1" then (Italic, "400")
    else (style, weight)
  }

  function Context(f: Family, display: Option<string>, env: Env): FaceCtx {
    FaceCtx(f.name, f.id, SwapDisplay(display), "", env.domain, env.catalog)
  }

  /**
   * A family without weights is skipped; one with weights but no listed subsets ends
   * the request with the notice (`None`); otherwise its blocks.
   */
  function FamilyRules(family: string, display: Option<string>, env: Env): Option<seq<Rule>> {
    var f := Parse(family);
    if f.weights.None? || f.weights.value == [] then Some([])
    else
      var p := Find(env.data, f.id);
      if !Listed(p) then None
      else Some(WeightWalk(Context(f, display, env), Step, Normal, f.weights.value, SubsetsOf(p)).rules)
  }

  function Outcomes(families: seq<string>, display: Option<string>, env: Env): (os: seq<Option<seq<Rule>>>)
    ensures |os| == |families|
  {
    Each(FamilyRules, families, display, env)
  }

  lemma OutcomesSnoc(families: seq<string>, n: nat, display: Option<string>, env: Env)
    requires n < |families|
    ensures Outcomes(families[..n + 1], display, env)
         == Outcomes(families[..n], display, env) + [FamilyRules(families[n], display, env)]
  {
    EachSnoc(FamilyRules, families, n, display, env);
  }

  function Rules(q: Query, env: Env): Option<seq<Rule>> {
    Gather(Outcomes(FamilyList(q.family), q.display, env))
  }

  /** The outcome of the handler. */
  function Reply(q: Query, env: Env): Response {
    if !Given(q.family) then ServerError(WrongRequest)
    else
      match Rules(q, env)
      case None => HtmlNotice
      case Some(rs) => if rs == [] then StringError(CONTACT) else Css(Assemble(Renders(LAYOUT, rs)))
  }

  /** The subset loop with its in-place rewrite of `style` and `weight`. */
  method PushSubsets(payload: seq<string>, c: FaceCtx, style0: Style, weight0: string, subsets: seq<string>)
    returns (out: seq<string>, style: Style, weight: string)
    ensures var walk := SubsetWalk(c, Step, style0, weight0, subsets);
      out == payload + Renders(LAYOUT, walk.rules) && style == walk.style && weight == walk.weight
  {
    out, style, weight := payload, style0, weight0;
    for k := 0 to |subsets|
      invariant var walk := SubsetWalk(c, Step, style0, weight0, subsets[..k]);
        out == payload + Renders(LAYOUT, walk.rules) && style == walk.style && weight == walk.weight
    {
      ghost var prev := SubsetWalk(c, Step, style0, weight0, subsets[..k]);
      SubsetWalkSnoc(c, Step, style0, weight0, subsets, k);
      if Contains(weight, ",") {
        style := if Split(weight, ",")[0] == "0" then Normal else Italic;
        weight := Split(weight, ",")[1];
      } else {
        if weight == "0" {
          style := Normal;
          weight := "400";
        }
        if weight == "1" {
          style := Italic;
          weight := "400";
        }
      }
      assert (style, weight) == Step(prev.style, prev.weight);
      PushOne(LAYOUT, payload, prev.rules, Face(c, style, weight, subsets[k]));
      out := out + [Render(LAYOUT, Face(c, style, weight, subsets[k]))];
    }
    assert subsets[..|subsets|] == subsets;
  }

  /** The weight loop of one family; `style` starts normal and carries from weight to weight. */
  method PushFamily(payload: seq<string>, c: FaceCtx, weights: seq<string>, subsets: seq<string>)
    returns (out: seq<string>)
    ensures out == payload + Renders(LAYOUT, WeightWalk(c, Step, Normal, weights, subsets).rules)
  {
    out := payload;
    var style := Normal;
    for j := 0 to |weights|
      invariant var run := WeightWalk(c, Step, Normal, weights[..j], subsets);
        out == payload + Renders(LAYOUT, run.rules) && style == run.style
    {
      assert weights[..j + 1][..j] == weights[..j];
      ghost var prev := WeightWalk(c, Step, Normal, weights[..j], subsets);
      ghost var walk := SubsetWalk(c, Step, style, weights[j], subsets);
      var weight;
      out, style, weight := PushSubsets(out, c, style, weights[j], subsets);
      RendersAfter(LAYOUT, payload, prev.rules, walk.rules);
    }
    assert weights[..|weights|] == weights;
  }

  /** The `css2` handler of css2-old.mjs. */
  method Handle(q: Query, env: Env) returns (r: Response)
    ensures r == Reply(q, env)
  {
    if !Given(q.family) {
      return ServerError(WrongRequest);
    }
    var families := FamilyList(q.family);
    var payload: seq<string> := [];
    ghost var rules: seq<Rule> := [];
    for n := 0 to |families|
      invariant Gather(Outcomes(families[..n], q.display, env)) == Some(rules)
      invariant payload == Renders(LAYOUT, rules)
    {
      OutcomesSnoc(families, n, q.display, env);
      var f := Parse(families[n]);
      var properties := Find(env.data, f.id);
      ghost var more: seq<Rule> := [];
      if f.weights.Some? && |f.weights.value| > 0 {
        if !Listed(properties) {
          assert Outcomes(families, q.display, env)[n].None?;
          return HtmlNotice;
        }
        var subsets := properties.value.subsets.value;
        var c := Context(f, q.display, env);
        more := WeightWalk(c, Step, Normal, f.weights.value, subsets).rules;
        payload := PushFamily(payload, c, f.weights.value, subsets);
      }
      assert FamilyRules(families[n], q.display, env) == Some(more);
      RendersAppend(LAYOUT, rules, more);
      GatherAppend(Outcomes(families[..n], q.display, env), rules, more);
      rules := rules + more;
    }
    assert families[..|families|] == families;
    if |payload| == 0 {
      return StringError(CONTACT);
    }
    return Css(Assemble(payload));
  }

  // ---------------------------------------------------------------- parsing

  /**
   * A token that names neither axis keeps its whole normalised text as id and the
   * default weight 400; any `:` in it stays in the id, which no registry id contains.
   */
  lemma ParsePlain(family: string)
    requires !Triggered(family)
    ensures Parse(family).weights == Some(["400"])
    ensures Parse(family).id == Alias(DashId(family))
    ensures ':' in family ==> ':' in Parse(family).id
  {
    DashIdKeeps(family, ':');
  }

  /**
   * `Name:axes@v1;v2;…` with `axes` naming `wght` or `ital` is parsed: its name is the
   * text before the `:`, its id is that name normalised (before the alias), and its
   * weights are the non-empty `;`-separated values.
   */
  lemma ParseAxes(family: string, name: string, axes: string, list: string)
    requires family == name + ":" + axes + "@" + list
    requires ':' !in name && ':' !in axes && ':' !in list && '@' !in axes && '@' !in list
    requires Contains(axes, "wght") || Contains(axes, "ital")
    ensures Triggered(family)
    ensures Split(family, ":")[0] == name && Split(DashId(family), ":")[0] == DashId(name)
    ensures AxisWeights(family) == Some(NonEmpty(Split(list, ";")))
  {
    var rest := axes + "@" + list;
    AxesTriggered(family, name, axes, list);
    AxesWeights(family, name, rest, axes, list);
    AxesId(family, name, rest);
  }

  lemma AxesWeights(family: string, name: string, rest: string, axes: string, list: string)
    requires family == name + ":" + rest && rest == axes + "@" + list
    requires ':' !in name && ':' !in rest && '@' !in axes && '@' !in list
    ensures AxisWeights(family) == Some(NonEmpty(Split(list, ";")))
    ensures Split(family, ":")[0] == name
  {
    AxesSplit(family, name, rest);
    AxesList(rest, axes, list);
  }

  lemma AxesSplit(family: string, name: string, rest: string)
    requires family == name + ":" + rest && ':' !in name && ':' !in rest
    ensures Split(family, ":") == [name, rest]
  {
    SplitFirst(name, ":", rest);
    SplitNone(rest, ":");
  }

  lemma AxesTriggered(family: string, name: string, axes: string, list: string)
    requires family == name + ":" + axes + "@" + list
    requires Contains(axes, "wght") || Contains(axes, "ital")
    ensures Triggered(family)
  {
    assert family == (name + ":") + axes + ("@" + list);
    if Contains(axes, "wght") {
      ContainsIn(name + ":", axes, "@" + list, "wght");
    } else {
      ContainsIn(name + ":", axes, "@" + list, "ital");
    }
  }

  lemma AxesList(rest: string, axes: string, list: string)
    requires rest == axes + "@" + list && '@' !in axes && '@' !in list
    ensures Split(rest, "@") == [axes, list]
  {
    SplitFirst(axes, "@", list);
    SplitNone(list, "@");
  }

  lemma AxesId(family: string, name: string, rest: string)
    requires family == name + ":" + rest && ':' !in name
    ensures Split(DashId(family), ":")[0] == DashId(name)
  {
    DashIdConcat(name, ":" + rest);
    DashIdConcat(":", rest);
    assert DashId(":") == ":";
    assert DashId(family) == DashId(name) + ":" + DashId(rest);
    DashIdKeeps(name, ':');
    SplitFirst(DashId(name), ":", DashId(rest));
  }

  /** A triggered token without `:` has no weight list, so it writes nothing. */
  lemma ParseMissing(family: string)
    requires Triggered(family) && ':' !in family
    ensures Parse(family).weights == None
  {
    SplitNone(family, ":");
  }

  // ---------------------------------------------------------------- the rewrite

  /** `s,w` makes the style normal exactly for `s == "0"`, and the weight the text up to the next `,`. */
  lemma StepPair(style: Style, s: string, w: string)
    requires ',' !in s
    ensures Step(style, s + "," + w) == (if s == "0" then Normal else Italic, Split(w, ",")[0])
  {
    ContainsMid(s, ",", w);
    SplitFirst(s, ",", w);
  }

  /** A bare `0` or `1` is normal or italic 400; a value without `,` that is neither keeps both. */
  lemma StepBare(style: Style, w: string)
    requires ',' !in w
    ensures w == "0" ==> Step(style, w) == (Normal, "400")
    ensures w == "1" ==> Step(style, w) == (Italic, "400")
    ensures w != "0" && w != "1" ==> Step(style, w) == (style, w)
  {
    ContainsChar(w, ',');
  }

  /**
   * After one rewrite that leaves neither a `,` nor a bare `0` or `1`, the rewrite is
   * stable, so every subset of the value gets the same style and weight.
   */
  lemma PairSettled(c: FaceCtx, style: Style, weight: string, subsets: seq<string>)
    requires subsets != []
    requires var s := Step(style, weight); ',' !in s.1 && s.1 != "0" && s.1 != "1"
    ensures var w := SubsetWalk(c, Step, style, weight, subsets); var s := Step(style, weight);
      w.style == s.0 && w.weight == s.1
      && forall k :: 0 <= k < |subsets| ==> w.rules[k].style == s.0 && w.rules[k].weight == s.1
  {
    var s := Step(style, weight);
    StepBare(s.0, s.1);
    SubsetWalkSettled(c, Step, style, weight, subsets);
  }

  // ---------------------------------------------------------------- blocks of one family

  /**
   * A family with weights and listed subsets gives one block per value and subset,
   * value-major, each written with the state the rewrite had reached.
   */
  lemma {:induction false} FamilyBlockAt(family: string, display: Option<string>, env: Env, j: nat, k: nat, idx: nat)
    requires var f := Parse(family);
      f.weights.Some? && Listed(Find(env.data, f.id))
      && j < |f.weights.value| && k < |SubsetsOf(Find(env.data, f.id))|
      && idx == j * |SubsetsOf(Find(env.data, f.id))| + k
    ensures var f := Parse(family); var subsets := SubsetsOf(Find(env.data, f.id));
      var rs := FamilyRules(family, display, env).value;
      FamilyRules(family, display, env).Some?
      && |rs| == |f.weights.value| * |subsets| && idx < |rs| && rs[idx].subset == subsets[k]
      && rs[idx] == SubsetWalk(Context(f, display, env), Step,
                               WeightWalk(Context(f, display, env), Step, Normal, f.weights.value[..j], subsets).style,
                               f.weights.value[j], subsets).rules[k]
  {
    var f := Parse(family);
    var subsets := SubsetsOf(Find(env.data, f.id));
    var c := Context(f, display, env);
    WeightWalkAt(c, Step, Normal, f.weights.value, subsets, j, k, idx);
    SubsetWalkShare(c, Step, WeightWalk(c, Step, Normal, f.weights.value[..j], subsets).style, f.weights.value[j], subsets);
  }

  // ---------------------------------------------------------------- the response

  /** Without `family` the handler answers "Wrong request"; no other failure reaches status 500. */
  lemma ReplyWrong(q: Query, env: Env)
    ensures Reply(q, env).ServerError? <==> !Given(q.family)
    ensures Reply(q, env).ServerError? ==> Reply(q, env).fault == WrongRequest
  {
  }

  /** The notice is sent exactly when some token has weights but its family is not listed with subsets. */
  lemma ReplyNotice(q: Query, env: Env)
    ensures Reply(q, env) == HtmlNotice <==>
      Given(q.family) &&
      exists i :: 0 <= i < |FamilyList(q.family)| &&
        var f := Parse(FamilyList(q.family)[i]);
        f.weights.Some? && f.weights.value != [] && !Listed(Find(env.data, f.id))
  {
    var fs := FamilyList(q.family);
    var os := Outcomes(fs, q.display, env);
    forall i | 0 <= i < |fs|
      ensures os[i].None? <==> var f := Parse(fs[i]);
        f.weights.Some? && f.weights.value != [] && !Listed(Find(env.data, f.id))
    {
    }
  }

  /**
   * The thrown contact string: every token either has no weights or a listed family
   * with no subsets.
   */
  lemma ReplyEmpty(q: Query, env: Env)
    ensures Reply(q, env) == StringError(CONTACT) <==>
      Given(q.family) && forall i :: 0 <= i < |FamilyList(q.family)| ==>
        var f := Parse(FamilyList(q.family)[i]);
        f.weights.None? || f.weights.value == []
        || (Listed(Find(env.data, f.id)) && SubsetsOf(Find(env.data, f.id)) == [])
  {
    var fs := FamilyList(q.family);
    var os := Outcomes(fs, q.display, env);
    forall i | 0 <= i < |fs|
      ensures (os[i].Some? && os[i].value == []) <==> var f := Parse(fs[i]);
        f.weights.None? || f.weights.value == []
        || (Listed(Find(env.data, f.id)) && SubsetsOf(Find(env.data, f.id)) == [])
    {
      var f := Parse(fs[i]);
      if f.weights.Some? && f.weights.value != [] && Listed(Find(env.data, f.id)) {
        MulZero(|f.weights.value|, |SubsetsOf(Find(env.data, f.id))|);
      }
    }
    if Rules(q, env).Some? {
      RendersNone(Rules(q, env).value);
    }
  }

  lemma RendersNone(rs: seq<Rule>)
    ensures Renders(LAYOUT, rs) == [] <==> rs == []
  {
  }

  /** A CSS body is the blocks joined by single spaces, less the newline that opens the first. */
  lemma ReplyCss(q: Query, env: Env)
    ensures Reply(q, env).Css? <==> Given(q.family) && Rules(q, env).Some? && Rules(q, env).value != []
    ensures Given(q.family) && Rules(q, env).Some? && Rules(q, env).value != [] ==>
      Join(Renders(LAYOUT, Rules(q, env).value), " ") == "\n" + LAYOUT.outer + Reply(q, env).body
  {
    if Given(q.family) && Rules(q, env).Some? && Rules(q, env).value != [] {
      var rs := Rules(q, env).value;
      assert Reply(q, env) == Css(Assemble(Renders(LAYOUT, rs)));
      BodyOpens(LAYOUT, rs, Reply(q, env).body);
    }
  }

  /**
   * Every block belongs to one token with weights: it shows that token's name, and its
   * URL uses the token's id with the block's own style and weight.
   */
  lemma RulesShare(q: Query, env: Env)
    requires Rules(q, env).Some?
    ensures forall x :: x in Rules(q, env).value ==>
      x.display == SwapDisplay(q.display) && x.range == UnicodeRange(env.catalog, x.subset)
      && exists i :: 0 <= i < |FamilyList(q.family)| &&
           var f := Parse(FamilyList(q.family)[i]);
           x.family == f.name && x.url == FontUrl(env.domain, f.id, x.style, x.weight)
  {
    var fs := FamilyList(q.family);
    var os := Outcomes(fs, q.display, env);
    GatherMembers(os);
    forall i | 0 <= i < |os|
      ensures os[i].Some? ==> forall x :: x in os[i].value ==>
        x.display == SwapDisplay(q.display) && x.range == UnicodeRange(env.catalog, x.subset)
        && x.family == Parse(fs[i]).name && x.url == FontUrl(env.domain, Parse(fs[i]).id, x.style, x.weight)
    {
      var f := Parse(fs[i]);
      if os[i].Some? && f.weights.Some? && f.weights.value != [] {
        var c := Context(f, q.display, env);
        WeightWalkShare(c, Step, Normal, f.weights.value, SubsetsOf(Find(env.data, f.id)));
        forall x | x in os[i].value
          ensures x.url == FontUrl(env.domain, f.id, x.style, x.weight)
        {
          assert FontUrl(env.domain, f.id, x.style, x.weight) + "" == FontUrl(env.domain, f.id, x.style, x.weight);
        }
      }
    }
  }

  // ---------------------------------------------------------------- examples

  /**
   * The rewrite is repeated per subset on the already rewritten value: `0,1` over two
   * subsets writes normal 1 for the first, then reads the bare `1` as italic 400.
   */
  lemma RewriteExample(c: FaceCtx, a: string, b: string)
    ensures var rs := SubsetWalk(c, Step, Normal, "0,1", [a, b]).rules;
      |rs| == 2 && rs[0].style == Normal && rs[0].weight == "1"
      && rs[1].style == Italic && rs[1].weight == "400"
  {
    var first := FirstRewrite(c, a);
    assert [a, b][..1] == [a];
    assert first == SubsetWalk(c, Step, Normal, "0,1", [a, b][..1]);
    StepBare(Normal, "1");
    SubsetWalkSnoc(c, Step, Normal, "0,1", [a, b], 1);
    assert [a, b][..2] == [a, b];
  }

  lemma FirstRewrite(c: FaceCtx, a: string) returns (w: Walk)
    ensures w == SubsetWalk(c, Step, Normal, "0,1", [a])
    ensures |w.rules| == 1 && w.rules[0].style == Normal && w.rules[0].weight == "1"
    ensures w.style == Normal && w.weight == "1"
  {
    StepPair(Normal, "0", "1");
    assert "0" + "," + "1" == "0,1";
    SplitNone("1", ",");
    assert [a][..0] == [];
    w := SubsetWalk(c, Step, Normal, "0,1", [a]);
  }
}
