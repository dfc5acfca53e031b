/**
 * The `/css2` route of index.ts. It reads tokens as css2-old.mjs does, but without
 * optional chaining, without the legacy alias and without the empty-result check:
 * a malformed token or an unlisted family throws, and an empty result is an empty
 * stylesheet. Its rewrite knows only `s,w` pairs.
 */
module Css2Ts {
  import opened Wrappers
  import opened Strings
  import opened FontFace
  import Css2Old

  /** The blocks of this route are indented by two spaces, their properties by four. */
  const LAYOUT: Layout := Layout("  ", "    ")

  /** A parsed token: the displayed name, the looked-up id, and the weight list. */
  datatype Family = Family(name: string, id: string, weights: seq<string>)

  /**
   * A triggered token whose weight list is `undefined` (no `:` or no `@`) makes the
   * chained `split` throw (`None`); the id is the normalised text before the first `:`
   * for a triggered token and the whole normalised token otherwise.
   */
  function Parse(family: string): Option<Family> {
    var name := Split(family, ":")[0];
    if Css2Old.Triggered(family) then
      match Css2Old.AxisWeights(family)
      case None => None
      case Some(ws) => Some(Family(name, Split(DashId(family), ":")[0], ws))
    else Some(Family(name, DashId(family), ["400"]))
  }

  /** One pass of the subset loop body: only an `s,w` value changes the style and the weight. */
  function Step(style: Style, weight: string): (Style, string) {
    if Contains(weight, ",") then
      var parts := Split(weight, ",");
      (if parts[0] == "0" then Normal else Italic, parts[1])
    else (style, weight)
  }

  function Context(f: Family, display: Option<string>, env: Env): FaceCtx {
    FaceCtx(f.name, f.id, SwapDisplay(display), "", env.domain, env.catalog)
  }

  /**
   * The blocks of one token; `None` where the route throws: a malformed token, or a
   * family with weights whose registry entry or subset list is missing, since
   * iterating `properties?.subsets` then iterates `undefined`.
   */
  function FamilyRules(family: string, display: Option<string>, env: Env): Option<seq<Rule>> {
    match Parse(family)
    case None => None
    case Some(f) =>
      if f.weights == [] then Some([])
      else
        var p := Find(env.data, f.id);
        if !Listed(p) then None
        else Some(WeightWalk(Context(f, display, env), Step, Normal, f.weights, SubsetsOf(p)).rules)
  }

  function Outcomes(families: seq<string>, display: Option<string>, env: Env): (os: seq<Option<seq<Rule>>>)
    ensures |os| == |families|
  {
    Each(FamilyRules, families, display, env)
  }

  lemma OutcomesSnoc(families: seq<string>, n: nat, display: Option<string>, env: Env)
    requires n < |families|
    ensures Outcomes(families[..n + 1], display, env)
         == Outcomes(families[..n], display, env) + [FamilyRules(families[n], display, env)]
  {
    EachSnoc(FamilyRules, families, n, display, env);
  }

  function Rules(q: Query, env: Env): Option<seq<Rule>> {
    Gather(Outcomes(FamilyList(q.family), q.display, env))
  }

  /** The outcome of the route; every exception is answered with status 500. */
  function Reply(q: Query, env: Env): Response {
    if !Given(q.family) then ServerError(WrongRequest)
    else
      match Rules(q, env)
      case None => ServerError(RuntimeError)
      case Some(rs) => Css(Assemble(Renders(LAYOUT, rs)))
  }

  /** The subset loop with its in-place rewrite of `style` and `weight`. */
  method PushSubsets(payload: seq<string>, c: FaceCtx, style0: Style, weight0: string, subsets: seq<string>)
    returns (out: seq<string>, style: Style, weight: string)
    ensures var walk := SubsetWalk(c, Step, style0, weight0, subsets);
      out == payload + Renders(LAYOUT, walk.rules) && style == walk.style && weight == walk.weight
  {
    out, style, weight := payload, style0, weight0;
    for k := 0 to |subsets|
      invariant var walk := SubsetWalk(c, Step, style0, weight0, subsets[..k]);
        out == payload + Renders(LAYOUT, walk.rules) && style == walk.style && weight == walk.weight
    {
      ghost var prev := SubsetWalk(c, Step, style0, weight0, subsets[..k]);
      SubsetWalkSnoc(c, Step, style0, weight0, subsets, k);
      if Contains(weight, ",") {
        style := if Split(weight, ",")[0] == "0" then Normal else Italic;
      }
      weight := if Contains(weight, ",") then Split(weight, ",")[1] else weight;
      assert (style, weight) == Step(prev.style, prev.weight);
      PushOne(LAYOUT, payload, prev.rules, Face(c, style, weight, subsets[k]));
      out := out + [Render(LAYOUT, Face(c, style, weight, subsets[k]))];
    }
    assert subsets[..|subsets|] == subsets;
  }

  /** The weight loop of one family; `style` starts normal and carries from weight to weight. */
  method PushFamily(payload: seq<string>, c: FaceCtx, weights: seq<string>, subsets: seq<string>)
    returns (out: seq<string>)
    ensures out == payload + Renders(LAYOUT, WeightWalk(c, Step, Normal, weights, subsets).rules)
  {
    out := payload;
    var style := Normal;
    for j := 0 to |weights|
      invariant var run := WeightWalk(c, Step, Normal, weights[..j], subsets);
        out == payload + Renders(LAYOUT, run.rules) && style == run.style
    {
      assert weights[..j + 1][..j] == weights[..j];
      ghost var prev := WeightWalk(c, Step, Normal, weights[..j], subsets);
      ghost var walk := SubsetWalk(c, Step, style, weights[j], subsets);
      var weight;
      out, style, weight := PushSubsets(out, c, style, weights[j], subsets);
      RendersAfter(LAYOUT, payload, prev.rules, walk.rules);
    }
    assert weights[..|weights|] == weights;
  }

  /** The `/css2` route of index.ts. */
  method Handle(q: Query, env: Env) returns (r: Response)
    ensures r == Reply(q, env)
  {
    if !Given(q.family) {
      return ServerError(WrongRequest);
    }
    var families := FamilyList(q.family);
    var payload: seq<string> := [];
    ghost var rules: seq<Rule> := [];
    for n := 0 to |families|
      invariant Gather(Outcomes(families[..n], q.display, env)) == Some(rules)
      invariant payload == Renders(LAYOUT, rules)
    {
      OutcomesSnoc(families, n, q.display, env);
      var parsed := Parse(families[n]);
      if parsed.None? {
        assert Outcomes(families, q.display, env)[n].None?;
        return ServerError(RuntimeError);
      }
      var f := parsed.value;
      var properties := Find(env.data, f.id);
      ghost var more: seq<Rule> := [];
      if |f.weights| > 0 {
        if !Listed(properties) {
          assert Outcomes(families, q.display, env)[n].None?;
          return ServerError(RuntimeError);
        }
        var subsets := properties.value.subsets.value;
        var c := Context(f, q.display, env);
        more := WeightWalk(c, Step, Normal, f.weights, subsets).rules;
        payload := PushFamily(payload, c, f.weights, subsets);
      }
      assert FamilyRules(families[n], q.display, env) == Some(more);
      RendersAppend(LAYOUT, rules, more);
      GatherAppend(Outcomes(families[..n], q.display, env), rules, more);
      rules := rules + more;
    }
    assert families[..|families|] == families;
    return Css(Assemble(payload));
  }

  // ---------------------------------------------------------------- parsing

  /** A triggered token without `:` throws at the chained `split`. */
  lemma ParseThrows(family: string)
    requires Css2Old.Triggered(family) && ':' !in family
    ensures Parse(family) == None
  {
    Css2Old.ParseMissing(family);
  }

  /**
   * A token that names neither axis is looked up by its whole normalised text, with
   * no alias: `Source Sans Pro` is looked up as `source-sans-pro`.
   */
  lemma ParsePlain(family: string)
    requires !Css2Old.Triggered(family)
    ensures Parse(family).Some? && Parse(family).value.weights == ["400"]
    ensures Parse(family).value.id == DashId(family)
    ensures Css2Old.Parse(family).id == Alias(Parse(family).value.id)
  {
  }

  // ---------------------------------------------------------------- the rewrite

  /** `s,w` makes the style normal exactly for `s == "0"`, and the weight the text up to the next `,`. */
  lemma StepPair(style: Style, s: string, w: string)
    requires ',' !in s
    ensures Step(style, s + "," + w) == (if s == "0" then Normal else Italic, Split(w, ",")[0])
  {
    ContainsMid(s, ",", w);
    SplitFirst(s, ",", w);
  }

  /** Without `,` nothing changes: a bare `1` is weight 1 in whatever style was reached. */
  lemma StepBare(style: Style, w: string)
    requires ',' !in w
    ensures Step(style, w) == (style, w)
  {
    ContainsChar(w, ',');
  }

  /**
   * After one rewrite that leaves no `,` the rewrite is stable, so every subset of
   * the value gets the same style and weight.
   */
  lemma PairSettled(c: FaceCtx, style: Style, weight: string, subsets: seq<string>)
    requires subsets != [] && ',' !in Step(style, weight).1
    ensures var w := SubsetWalk(c, Step, style, weight, subsets); var s := Step(style, weight);
      w.style == s.0 && w.weight == s.1
      && forall k :: 0 <= k < |subsets| ==> w.rules[k].style == s.0 && w.rules[k].weight == s.1
  {
    var s := Step(style, weight);
    StepBare(s.0, s.1);
    SubsetWalkSettled(c, Step, style, weight, subsets);
  }

  // ---------------------------------------------------------------- blocks of one family

  /**
   * A parsed token with weights and a listed family gives one block per value and
   * subset, value-major, each written with the state the rewrite had reached.
   */
  lemma {:induction false} FamilyBlockAt(family: string, display: Option<string>, env: Env, j: nat, k: nat, idx: nat)
    requires Parse(family).Some? && Listed(Find(env.data, Parse(family).value.id))
    requires var f := Parse(family).value;
      j < |f.weights| && k < |SubsetsOf(Find(env.data, f.id))|
      && idx == j * |SubsetsOf(Find(env.data, f.id))| + k
    ensures var f := Parse(family).value; var subsets := SubsetsOf(Find(env.data, f.id));
      var rs := FamilyRules(family, display, env).value;
      FamilyRules(family, display, env).Some?
      && |rs| == |f.weights| * |subsets| && idx < |rs| && rs[idx].subset == subsets[k]
      && rs[idx] == SubsetWalk(Context(f, display, env), Step,
                               WeightWalk(Context(f, display, env), Step, Normal, f.weights[..j], subsets).style,
                               f.weights[j], subsets).rules[k]
  {
    var f := Parse(family).value;
    var subsets := SubsetsOf(Find(env.data, f.id));
    var c := Context(f, display, env);
    WeightWalkAt(c, Step, Normal, f.weights, subsets, j, k, idx);
    SubsetWalkShare(c, Step, WeightWalk(c, Step, Normal, f.weights[..j], subsets).style, f.weights[j], subsets);
  }

  // ---------------------------------------------------------------- the response

  /** The route answers with CSS or status 500, never the notice or the contact string. */
  lemma ReplyKinds(q: Query, env: Env)
    ensures Reply(q, env).Css? || Reply(q, env).ServerError?
    ensures Reply(q, env) == ServerError(WrongRequest) <==> !Given(q.family)
  {
  }

  /**
   * The route fails with a JavaScript exception exactly when some token is malformed,
   * or has weights but names a family the registry does not list with subsets.
   */
  lemma ReplyFails(q: Query, env: Env)
    ensures Reply(q, env) == ServerError(RuntimeError) <==>
      Given(q.family) &&
      exists i :: 0 <= i < |FamilyList(q.family)| &&
        var p := Parse(FamilyList(q.family)[i]);
        p.None? || (p.value.weights != [] && !Listed(Find(env.data, p.value.id)))
  {
    var fs := FamilyList(q.family);
    var os := Outcomes(fs, q.display, env);
    forall i | 0 <= i < |fs|
      ensures os[i].None? <==> var p := Parse(fs[i]);
        p.None? || (p.value.weights != [] && !Listed(Find(env.data, p.value.id)))
    {
    }
  }

  /**
   * With no failure the answer is CSS: the blocks joined by single spaces less the
   * newline and indentation before the first, and an empty body when there are none.
   */
  lemma ReplyCss(q: Query, env: Env)
    ensures Reply(q, env).Css? <==> Given(q.family) && Rules(q, env).Some?
    ensures Reply(q, env).Css? && Rules(q, env).value == [] ==> Reply(q, env).body == ""
    ensures Reply(q, env).Css? && Rules(q, env).value != [] ==>
      Join(Renders(LAYOUT, Rules(q, env).value), " ") == "\n" + LAYOUT.outer + Reply(q, env).body
  {
    if Given(q.family) && Rules(q, env).Some? {
      var rs := Rules(q, env).value;
      assert Reply(q, env) == Css(Assemble(Renders(LAYOUT, rs)));
      if rs == [] {
        AssembleNone(LAYOUT);
      } else {
        BodyOpens(LAYOUT, rs, Reply(q, env).body);
      }
    }
  }

  /**
   * Every block belongs to one parsed token: it shows that token's name, and its URL
   * uses the token's id with the block's own style and weight.
   */
  lemma RulesShare(q: Query, env: Env)
    requires Rules(q, env).Some?
    ensures forall x :: x in Rules(q, env).value ==>
      x.display == SwapDisplay(q.display) && x.range == UnicodeRange(env.catalog, x.subset)
      && exists i :: 0 <= i < |FamilyList(q.family)| && Parse(FamilyList(q.family)[i]).Some? &&
           var f := Parse(FamilyList(q.family)[i]).value;
           x.family == f.name && x.url == FontUrl(env.domain, f.id, x.style, x.weight)
  {
    var fs := FamilyList(q.family);
    var os := Outcomes(fs, q.display, env);
    GatherMembers(os);
    forall i | 0 <= i < |os|
      ensures os[i].Some? ==> Parse(fs[i]).Some? && forall x :: x in os[i].value ==>
        x.display == SwapDisplay(q.display) && x.range == UnicodeRange(env.catalog, x.subset)
        && x.family == Parse(fs[i]).value.name
        && x.url == FontUrl(env.domain, Parse(fs[i]).value.id, x.style, x.weight)
    {
      if os[i].Some? && Parse(fs[i]).value.weights != [] {
        var f := Parse(fs[i]).value;
        var c := Context(f, q.display, env);
        WeightWalkShare(c, Step, Normal, f.weights, SubsetsOf(Find(env.data, f.id)));
        forall x | x in os[i].value
          ensures x.url == FontUrl(env.domain, f.id, x.style, x.weight)
        {
          assert FontUrl(env.domain, f.id, x.style, x.weight) + "" == FontUrl(env.domain, f.id, x.style, x.weight);
        }
      }
    }
  }

  // ---------------------------------------------------------------- examples

  /** `1,400;700` with one subset: the bare `700` keeps the italic style of the value before it. */
  lemma CarryExample(c: FaceCtx, sub: string)
    ensures var rs := WeightWalk(c, Step, Normal, ["1,400", "700"], [sub]).rules;
      |rs| == 2 && rs[0].style == Italic && rs[0].weight == "400"
      && rs[1].style == Italic && rs[1].weight == "700"
  {
    var ws := ["1,400", "700"];
    var first := CarryFirst(c, sub);
    assert ws[..1] == ["1,400"] && ws[..1][..0] == [] && ws[..1][0] == "1,400";
    assert WeightWalk(c, Step, Normal, [], [sub]) == Run([], Normal);
    var prev := WeightWalk(c, Step, Normal, ws[..1], [sub]);
    assert prev == Run([] + first.rules, first.style);
    var second := CarrySecond(c, sub);
    assert ws[..2] == ws;
    assert WeightWalk(c, Step, Normal, ws, [sub]).rules == prev.rules + second.rules;
  }

  lemma CarryFirst(c: FaceCtx, sub: string) returns (w: Walk)
    ensures w == SubsetWalk(c, Step, Normal, "1,400", [sub])
    ensures |w.rules| == 1 && w.rules[0].style == Italic && w.rules[0].weight == "400" && w.style == Italic
  {
    StepPair(Normal, "1", "400");
    assert "1" + "," + "400" == "1,400";
    SplitNone("400", ",");
    assert [sub][..0] == [];
    w := SubsetWalk(c, Step, Normal, "1,400", [sub]);
  }

  lemma CarrySecond(c: FaceCtx, sub: string) returns (w: Walk)
    ensures w == SubsetWalk(c, Step, Italic, "700", [sub])
    ensures |w.rules| == 1 && w.rules[0].style == Italic && w.rules[0].weight == "700"
  {
    StepBare(Italic, "700");
    assert [sub][..0] == [];
    w := SubsetWalk(c, Step, Italic, "700", [sub]);
  }
}
