/**
 * The live `/css2` handler (css2.mjs): Google Fonts CSS2 specifiers such as
 * `Roboto`, `Roboto:wght@700` or `Roboto:ital,wght@0,400;1,700`, one `@font-face`
 * block per style, weight and subset.
 */
module Css2 {
  import opened Wrappers
  import opened Strings
  import opened OrderedSets
  import opened FontFace

  /** Blocks start at column 0 and their properties are indented by two spaces. */
  const LAYOUT: Layout := Layout("", "  ")

  /** What `parseFamily` returns; `styles` and `weights` are sets in insertion order. */
  datatype Family = Family(name: string, id: string, styles: seq<Style>, weights: seq<string>)

  /** The style and weight sets while the `;`-groups of the axis form are read. */
  datatype Sets = Sets(styles: seq<Style>, weights: seq<string>)

  /** `styleValue === "1" ? "italic" : "normal"` for the first comma part of a group. */
  function GroupStyle(value: string): (s: Style)
    ensures s == Italic <==> Split(value, ",")[0] == "1"
  {
    if Split(value, ",")[0] == "1" then Italic else Normal
  }

  /**
   * The weights one group adds when the axes name `wght`: none without a non-empty
   * second comma part, both ends of a `start..end` range through `Number` and
   * `toString`, and otherwise the second part verbatim.
   */
  function GroupWeights(value: string): (ws: seq<string>)
    ensures |ws| <= 2
  {
    var parts := Split(value, ",");
    if |parts| < 2 || parts[1] == "" then []
    else if Contains(parts[1], "..") then
      var ends := Split(parts[1], "..");
      [NumberString(JsNumber(ends[0])), NumberString(JsNumber(ends[1]))]
    else [parts[1]]
  }

  /** The style each group gives, in order. */
  function StylesRead(values: seq<string>): (r: seq<Style>)
    ensures |r| == |values|
  {
    seq(|values|, i requires 0 <= i < |values| => GroupStyle(values[i]))
  }

  /** The weights each group gives, in order. */
  function WeightsRead(values: seq<string>): (r: seq<seq<string>>)
    ensures |r| == |values|
  {
    seq(|values|, i requires 0 <= i < |values| => GroupWeights(values[i]))
  }

  /**
   * The sets after the `for (const value of valuesList)` loop, starting from two
   * cleared sets: a style per group when the axes name `ital`, the group's weights
   * when they name `wght`.
   */
  function Groups(axes: string, values: seq<string>): Sets {
    Sets(if Contains(axes, "ital") then Collect(StylesRead(values)) else [],
         if Contains(axes, "wght") then CollectAll(WeightsRead(values)) else [])
  }

  /** `parseFamily(family)`. */
  function Parse(family: string): Family {
    var name := Split(family, ":")[0];
    if !Contains(family, ":") then Family(name, Alias(DashId(family)), [Normal], ["400"])
    else
      var params := Split(family, ":")[1];
      var id := Alias(DashId(name));
      if "wght@" <= params then
        PrefixContains(params, "wght@", '@', 4);
        Family(name, id, [Normal], [Split(params, "@")[1]])
      else if Contains(params, "@") then
        var at := Split(params, "@");
        var g := Groups(at[0], Split(at[1], ";"));
        Family(name, id, g.styles, g.weights)
      else Family(name, id, [Normal], ["400"])
  }

  /** `parseFamily`, as the source runs it: sets cleared and then filled group by group. */
  method ParseFamily(family: string) returns (f: Family)
    ensures f == Parse(family)
  {
    var weights := ["400"];
    var styles := [Normal];
    var dashFamily := DashId(family);
    var familyName := Split(family, ":")[0];
    if Contains(family, ":") {
      var params := Split(family, ":")[1];
      if "wght@" <= params {
        PrefixContains(params, "wght@", '@', 4);
        weights := [Split(params, "@")[1]];
      } else if Contains(params, "@") {
        var at := Split(params, "@");
        var axes, values := at[0], at[1];
        var valuesList := Split(values, ";");
        var g := ReadGroups(axes, valuesList);
        styles, weights := g.styles, g.weights;
      }
      dashFamily := DashId(familyName);
    }
    if dashFamily == "source-sans-pro" {
      dashFamily := "source-sans-3";
    }
    f := Family(familyName, dashFamily, styles, weights);
  }

  /** The loop over the `;`-groups: `styles.clear()`, `weights = new Set()`, then `add`s. */
  method ReadGroups(axes: string, valuesList: seq<string>) returns (g: Sets)
    ensures g == Groups(axes, valuesList)
  {
    var styles: seq<Style> := [];
    var weights: seq<string> := [];
    for i := 0 to |valuesList|
      invariant Sets(styles, weights) == Groups(axes, valuesList[..i])
    {
      styles, weights := ReadGroup(axes, valuesList[i], styles, weights);
      GroupsSnoc(axes, valuesList, i);
    }
    assert valuesList[..|valuesList|] == valuesList;
    g := Sets(styles, weights);
  }

  /** The body of the group loop for one `value`: its style and then its weights are added. */
  method ReadGroup(axes: string, value: string, styles: seq<Style>, weights: seq<string>)
    returns (styles': seq<Style>, weights': seq<string>)
    ensures styles' == if Contains(axes, "ital") then Add(styles, GroupStyle(value)) else styles
    ensures weights' == if Contains(axes, "wght") then AddAll(weights, GroupWeights(value)) else weights
  {
    var parts := Split(value, ",");
    styles', weights' := styles, weights;
    if Contains(axes, "ital") {
      styles' := Add(styles, if parts[0] == "1" then Italic else Normal);
    }
    if Contains(axes, "wght") && |parts| >= 2 && parts[1] != "" {
      if Contains(parts[1], "..") {
        var ends := Split(parts[1], "..");
        weights' := Add(weights', NumberString(JsNumber(ends[0])));
        weights' := Add(weights', NumberString(JsNumber(ends[1])));
        AddTwo(weights, NumberString(JsNumber(ends[0])), NumberString(JsNumber(ends[1])));
      } else {
        weights' := Add(weights', parts[1]);
        AddOne(weights, parts[1]);
      }
    }
  }

  /** One more group adds its style and its weights to the sets of the groups before it. */
  lemma GroupsSnoc(axes: string, values: seq<string>, i: nat)
    requires i < |values|
    ensures var g := Groups(axes, values[..i]);
      Groups(axes, values[..i + 1])
      == Sets(if Contains(axes, "ital") then Add(g.styles, GroupStyle(values[i])) else [],
              if Contains(axes, "wght") then AddAll(g.weights, GroupWeights(values[i])) else [])
  {
    var vs := values[..i + 1];
    assert vs[..i] == values[..i];
    assert StylesRead(vs) == StylesRead(values[..i]) + [GroupStyle(values[i])];
    assert WeightsRead(vs) == WeightsRead(values[..i]) + [GroupWeights(values[i])];
    assert StylesRead(vs)[..i] == StylesRead(values[..i]);
    assert WeightsRead(vs)[..i] == WeightsRead(values[..i]);
  }

  /** What every block of one family shares; `display` always becomes `swap`. */
  function Context(f: Family, display: Option<string>, env: Env): FaceCtx {
    FaceCtx(f.name, f.id, SwapDisplay(display), "", env.domain, env.catalog)
  }

  /** The rules of a parsed family over its listed subsets: style, then weight, then subset. */
  function FamilyFaces(f: Family, subsets: seq<string>, display: Option<string>, env: Env): seq<Rule> {
    Faces(Context(f, display, env), Cross(f.styles, f.weights, subsets))
  }

  /** The rules of one family token, or `None` when the registry does not list its subsets. */
  function FamilyRules(token: string, display: Option<string>, env: Env): Option<seq<Rule>> {
    var f := Parse(token);
    var p := Find(env.data, f.id);
    if !Listed(p) then None else Some(FamilyFaces(f, SubsetsOf(p), display, env))
  }

  function Outcomes(tokens: seq<string>, display: Option<string>, env: Env): (os: seq<Option<seq<Rule>>>)
    ensures |os| == |tokens|
  {
    Each(FamilyRules, tokens, display, env)
  }

  lemma OutcomesSnoc(tokens: seq<string>, n: nat, display: Option<string>, env: Env)
    requires n < |tokens|
    ensures Outcomes(tokens[..n + 1], display, env)
         == Outcomes(tokens[..n], display, env) + [FamilyRules(tokens[n], display, env)]
  {
    EachSnoc(FamilyRules, tokens, n, display, env);
  }

  /** All rules of the request in order, or `None` when some family is not available. */
  function Rules(q: Query, env: Env): Option<seq<Rule>> {
    Gather(Outcomes(FamilyList(q.family), q.display, env))
  }

  /** The outcome of the handler. */
  function Reply(q: Query, env: Env): Response {
    if !Given(q.family) then ServerError(WrongRequest)
    else
      match Rules(q, env)
      case None => HtmlNotice
      case Some(rs) => if rs == [] then StringError(CONTACT) else Css(Assemble(Renders(LAYOUT, rs)))
  }

  /** The `css2` handler with its nested loops and `payload.push`. */
  method Handle(q: Query, env: Env) returns (r: Response)
    ensures r == Reply(q, env)
  {
    if !Given(q.family) {
      return ServerError(WrongRequest);
    }
    var familyList := FamilyList(q.family);
    var payload: seq<string> := [];
    ghost var rules: seq<Rule> := [];
    for n := 0 to |familyList|
      invariant Gather(Outcomes(familyList[..n], q.display, env)) == Some(rules)
      invariant payload == Renders(LAYOUT, rules)
    {
      var f := ParseFamily(familyList[n]);
      var properties := Find(env.data, f.id);
      OutcomesSnoc(familyList, n, q.display, env);
      if !Listed(properties) {
        assert Outcomes(familyList, q.display, env)[n].None?;
        return HtmlNotice;
      }
      var subsets := properties.value.subsets.value;
      var c := Context(f, q.display, env);
      ghost var more := FamilyFaces(f, subsets, q.display, env);
      assert FamilyRules(familyList[n], q.display, env) == Some(more);
      payload := PushFaces(payload, LAYOUT, c, f.styles, f.weights, subsets);
      RendersAppend(LAYOUT, rules, more);
      GatherAppend(Outcomes(familyList[..n], q.display, env), rules, more);
      rules := rules + more;
    }
    assert familyList[..|familyList|] == familyList;
    if |payload| == 0 {
      return StringError(CONTACT);
    }
    return Css(Assemble(payload));
  }

  // ---------------------------------------------------------------- parseFamily

  /** A token without `:` is the whole family name, normal style and weight 400. */
  lemma ParseBare(token: string)
    requires ':' !in token
    ensures Parse(token) == Family(token, Alias(DashId(token)), [Normal], ["400"])
  {
    SplitNone(token, ":");
  }

  /** `Name:wght@w` has the one weight `w`, verbatim: not split on `;`, not range-expanded. */
  lemma ParseWght(name: string, w: string)
    requires ':' !in name && ':' !in w && '@' !in w
    ensures Parse(name + ":wght@" + w) == Family(name, Alias(DashId(name)), [Normal], [w])
  {
    var token := name + ":wght@" + w;
    assert token == name + ":" + ("wght@" + w);
    SplitFirst(name, ":", "wght@" + w);
    SplitNone("wght@" + w, ":");
    ContainsMid(name, ":", "wght@" + w);
    assert "wght@" + w == "wght" + "@" + w;
    SplitFirst("wght", "@", w);
    SplitNone(w, "@");
  }

  /** `Name:axes@values` with other axes than the `wght@` shorthand reads its `;`-groups. */
  lemma ParseAxes(token: string, name: string, axes: string, values: string)
    requires token == name + ":" + axes + "@" + values
    requires ':' !in name && ':' !in axes && ':' !in values
    requires '@' !in axes && '@' !in values && axes != "wght"
    ensures var g := Groups(axes, Split(values, ";"));
            Parse(token) == Family(name, Alias(DashId(name)), g.styles, g.weights)
  {
    var params := axes + "@" + values;
    assert token == name + ":" + params;
    assert Split(token, ":") == [name, params] by {
      assert ':' !in params;
      SplitFirst(name, ":", params);
      SplitNone(params, ":");
    }
    assert Contains(token, ":") by { ContainsMid(name, ":", params); }
    assert Split(params, "@") == [axes, values] by {
      SplitFirst(axes, "@", values);
      SplitNone(values, "@");
    }
    assert Contains(params, "@") by { ContainsMid(axes, "@", values); }
    assert !("wght@" <= params) by { NotShorthand(axes, values); }
    ParseGroups(token, name, axes, values);
  }

  /** The branch of `Parse` taken by a token `name:axes@values` once its splits are known. */
  lemma ParseGroups(token: string, name: string, axes: string, values: string)
    requires Split(token, ":") == [name, axes + "@" + values] && Contains(token, ":")
    requires Split(axes + "@" + values, "@") == [axes, values] && Contains(axes + "@" + values, "@")
    requires !("wght@" <= axes + "@" + values)
    ensures var g := Groups(axes, Split(values, ";"));
            Parse(token) == Family(name, Alias(DashId(name)), g.styles, g.weights)
  {
  }

  /**
   * The styles read are the groups' styles when `ital` is named, each once; the
   * weights read are the groups' weights when `wght` is named, each once.
   */
  lemma {:induction false} GroupsShape(axes: string, vs: seq<string>)
    ensures NoDup(Groups(axes, vs).styles) && NoDup(Groups(axes, vs).weights)
    ensures forall s :: s in Groups(axes, vs).styles <==>
              Contains(axes, "ital") && exists i :: 0 <= i < |vs| && GroupStyle(vs[i]) == s
    ensures forall w :: w in Groups(axes, vs).weights <==>
              Contains(axes, "wght") && exists i :: 0 <= i < |vs| && w in GroupWeights(vs[i])
  {
    StylesShape(vs);
    WeightsShape(vs);
  }

  lemma {:induction false} StylesShape(vs: seq<string>)
    ensures forall s :: s in Collect(StylesRead(vs)) <==> exists i :: 0 <= i < |vs| && GroupStyle(vs[i]) == s
  {
    var r := Collect(StylesRead(vs));
    forall s | s in r
      ensures exists i :: 0 <= i < |vs| && GroupStyle(vs[i]) == s
    {
      var k :| 0 <= k < |r| && r[k] == s;
      var i :| 0 <= i < |vs| && StylesRead(vs)[i] == s;
    }
    forall s, i | 0 <= i < |vs| && GroupStyle(vs[i]) == s
      ensures s in r
    {
      assert StylesRead(vs)[i] == s;
    }
  }

  lemma {:induction false} WeightsShape(vs: seq<string>)
    ensures forall w :: w in CollectAll(WeightsRead(vs)) <==> exists i :: 0 <= i < |vs| && w in GroupWeights(vs[i])
  {
    var r := CollectAll(WeightsRead(vs));
    forall w | w in r
      ensures exists i :: 0 <= i < |vs| && w in GroupWeights(vs[i])
    {
      var k :| 0 <= k < |r| && r[k] == w;
      var i :| 0 <= i < |vs| && w in WeightsRead(vs)[i];
    }
    forall w, i | 0 <= i < |vs| && w in GroupWeights(vs[i])
      ensures w in r
    {
      var k :| 0 <= k < |GroupWeights(vs[i])| && GroupWeights(vs[i])[k] == w;
      assert WeightsRead(vs)[i][k] == w;
    }
  }

  /** A `start..end` group adds only `Number(start)` and `Number(end)`, nothing in between. */
  lemma GroupRange(lead: string, lo: string, hi: string)
    requires ',' !in lead && AllDigits(lo) && AllDigits(hi)
    ensures GroupWeights(lead + "," + lo + ".." + hi)
         == [NatStr(DigitsValue(lo)), NatStr(DigitsValue(hi))]
  {
    var w := lo + ".." + hi;
    assert lead + "," + lo + ".." + hi == lead + "," + w;
    RangeParts(lo, hi);
    GroupParts(lead, w);
    var parts := Split(lead + "," + w, ",");
    assert parts[1] == w && w != "";
    var ends := Split(w, "..");
    assert ends[0] == lo && ends[1] == hi;
  }

  /** A group without further commas splits into its lead and its second part. */
  lemma GroupParts(lead: string, w: string)
    requires ',' !in lead && ',' !in w
    ensures Split(lead + "," + w, ",") == [lead, w]
  {
    SplitFirst(lead, ",", w);
    SplitNone(w, ",");
  }

  /** `lo..hi` of digit strings has no comma and splits at `..` into its two ends. */
  lemma RangeParts(lo: string, hi: string)
    requires AllDigits(lo) && AllDigits(hi)
    ensures ',' !in lo + ".." + hi
    ensures Contains(lo + ".." + hi, "..") && Split(lo + ".." + hi, "..") == [lo, hi]
  {
    var w := lo + ".." + hi;
    forall i | 0 <= i < |w|
      ensures w[i] != ','
    {
      if i < |lo| {
        assert w[i] == lo[i];
      } else if i >= |lo| + 2 {
        assert w[i] == hi[i - |lo| - 2];
      }
    }
    ContainsMid(lo, "..", hi);
    assert '.' !in lo by {
      forall i | 0 <= i < |lo| ensures lo[i] != '.' { assert IsDigit(lo[i]); }
    }
    assert '.' !in hi by {
      forall i | 0 <= i < |hi| ensures hi[i] != '.' { assert IsDigit(hi[i]); }
    }
    SplitFirst(lo, "..", hi);
    SplitNone(hi, "..");
  }

  /** Any other non-empty second part is one weight, verbatim. */
  lemma GroupPlain(lead: string, w: string)
    requires ',' !in lead && ',' !in w && w != "" && !Contains(w, "..")
    ensures GroupWeights(lead + "," + w) == [w]
    ensures GroupStyle(lead + "," + w) == (if lead == "1" then Italic else Normal)
  {
    SplitFirst(lead, ",", w);
    SplitNone(w, ",");
  }

  /** The id is the name lower-cased and hyphenated, with the one alias; the name is kept. */
  lemma ParseNames(token: string)
    ensures Parse(token).name == Split(token, ":")[0]
    ensures Parse(token).id == Alias(DashId(Parse(token).name))
  {
    if !Contains(token, ":") {
      assert Join(Split(token, ":"), ":") == Split(token, ":")[0];
    }
  }

  // ---------------------------------------------------------------- blocks of one family

  /** A family gives `|styles| * |weights| * |subsets|` rules, none exactly when a factor is empty. */
  lemma FamilyCount(f: Family, subsets: seq<string>, display: Option<string>, env: Env)
    ensures |FamilyFaces(f, subsets, display, env)| == |f.styles| * (|f.weights| * |subsets|)
    ensures FamilyFaces(f, subsets, display, env) == [] <==> f.styles == [] || f.weights == [] || subsets == []
  {
    MulZero(|f.weights|, |subsets|);
    MulZero(|f.styles|, |f.weights| * |subsets|);
  }

  /** Rule `idx = i * (|weights| * |subsets|) + j * |subsets| + k` is style i, weight j, subset k. */
  lemma {:induction false} FamilyRuleAt(f: Family, subsets: seq<string>, display: Option<string>, env: Env,
                     i: nat, j: nat, k: nat, idx: nat)
    requires i < |f.styles| && j < |f.weights| && k < |subsets|
    requires idx == i * (|f.weights| * |subsets|) + j * |subsets| + k
    ensures idx < |FamilyFaces(f, subsets, display, env)|
    ensures FamilyFaces(f, subsets, display, env)[idx]
         == Rule(subsets[k], f.name, f.styles[i], f.weights[j], SwapDisplay(display),
                 FontUrl(env.domain, f.id, f.styles[i], f.weights[j]), UnicodeRange(env.catalog, subsets[k]))
  {
    var cr := Cross(f.styles, f.weights, subsets);
    CrossAt(f.styles, f.weights, subsets, i, j, k, idx);
    FaceOf(Context(f, display, env), cr, idx, (f.styles[i], f.weights[j], subsets[k]));
    var u := FontUrl(env.domain, f.id, f.styles[i], f.weights[j]);
    assert u + "" == u;
  }

  // ---------------------------------------------------------------- the response

  /** A missing or empty `family` is the 500 "Wrong request", and nothing else is a 500. */
  lemma ReplyMissing(q: Query, env: Env)
    ensures Reply(q, env) == ServerError(WrongRequest) <==> !Given(q.family)
    ensures Reply(q, env) != ServerError(RuntimeError)
  {
  }

  /** One family without listed subsets turns the whole response into the notice. */
  lemma ReplyNotice(q: Query, env: Env)
    ensures Reply(q, env) == HtmlNotice <==>
      Given(q.family) && exists i :: 0 <= i < |FamilyList(q.family)|
                                     && !Listed(Find(env.data, Parse(FamilyList(q.family)[i]).id))
  {
    assert Reply(q, env) == HtmlNotice <==> Given(q.family) && Rules(q, env).None?;
    RulesNone(FamilyList(q.family), q.display, env);
  }

  /** The rules are missing exactly when some family token has no listed subsets. */
  lemma RulesNone(tokens: seq<string>, display: Option<string>, env: Env)
    ensures Gather(Outcomes(tokens, display, env)).None? <==>
      exists i :: 0 <= i < |tokens| && !Listed(Find(env.data, Parse(tokens[i]).id))
  {
    var os := Outcomes(tokens, display, env);
    forall i | 0 <= i < |os|
      ensures os[i].None? <==> !Listed(Find(env.data, Parse(tokens[i]).id))
    {
      assert os[i] == FamilyRules(tokens[i], display, env);
    }
  }

  /** Families that are all listed but give no rules at all end in the thrown contact string. */
  lemma ReplyEmpty(q: Query, env: Env)
    ensures Reply(q, env) == StringError(CONTACT) <==>
      Given(q.family) && forall i :: 0 <= i < |FamilyList(q.family)| ==>
        var f := Parse(FamilyList(q.family)[i]);
        Listed(Find(env.data, f.id))
        && (f.styles == [] || f.weights == [] || SubsetsOf(Find(env.data, f.id)) == [])
  {
    assert Reply(q, env) == StringError(CONTACT) <==> Given(q.family) && Rules(q, env) == Some([]);
    RulesEmpty(FamilyList(q.family), q.display, env);
  }

  /** No rules at all exactly when every token is listed and lacks styles, weights or subsets. */
  lemma RulesEmpty(tokens: seq<string>, display: Option<string>, env: Env)
    ensures Gather(Outcomes(tokens, display, env)) == Some([]) <==>
      forall i :: 0 <= i < |tokens| ==>
        var f := Parse(tokens[i]);
        Listed(Find(env.data, f.id))
        && (f.styles == [] || f.weights == [] || SubsetsOf(Find(env.data, f.id)) == [])
  {
    var os := Outcomes(tokens, display, env);
    forall i | 0 <= i < |os|
      ensures var f := Parse(tokens[i]);
        os[i] == Some([]) <==>
        Listed(Find(env.data, f.id))
        && (f.styles == [] || f.weights == [] || SubsetsOf(Find(env.data, f.id)) == [])
    {
      var f := Parse(tokens[i]);
      assert os[i] == FamilyRules(tokens[i], display, env);
      FamilyCount(f, SubsetsOf(Find(env.data, f.id)), display, env);
    }
    GatherNone(os);
  }

  /** The CSS body is the blocks joined by single spaces, less the newline opening the first. */
  lemma ReplyCss(q: Query, env: Env)
    ensures Reply(q, env).Css? <==> Given(q.family) && Rules(q, env).Some? && Rules(q, env).value != []
    ensures Given(q.family) && Rules(q, env).Some? && Rules(q, env).value != [] ==>
      Join(Renders(LAYOUT, Rules(q, env).value), " ") == "\n" + LAYOUT.outer + Reply(q, env).body
  {
    if Given(q.family) && Rules(q, env).Some? && Rules(q, env).value != [] {
      var rs := Rules(q, env).value;
      assert Reply(q, env) == Css(Assemble(Renders(LAYOUT, rs)));
      BodyOpens(LAYOUT, rs, Reply(q, env).body);
    }
  }

  /**
   * Every rule of the response belongs to one of the tokens: it shows that token's
   * family name, `swap` exactly when `display` is truthy, and the URL and
   * unicode-range for its own style, weight and subset.
   */
  lemma RulesShare(q: Query, env: Env)
    requires Rules(q, env).Some?
    ensures forall x :: x in Rules(q, env).value ==>
      x.display == SwapDisplay(q.display) && x.range == UnicodeRange(env.catalog, x.subset)
      && exists i :: 0 <= i < |FamilyList(q.family)| &&
           var f := Parse(FamilyList(q.family)[i]);
           x.family == f.name && x.url == FontUrl(env.domain, f.id, x.style, x.weight)
  {
    var ts := FamilyList(q.family);
    var os := Outcomes(ts, q.display, env);
    GatherMembers(os);
    forall i | 0 <= i < |os|
      ensures forall x :: x in os[i].value ==>
        x.display == SwapDisplay(q.display) && x.range == UnicodeRange(env.catalog, x.subset)
        && x.family == Parse(ts[i]).name && x.url == FontUrl(env.domain, Parse(ts[i]).id, x.style, x.weight)
    {
      var f := Parse(ts[i]);
      var p := Find(env.data, f.id);
      FacesShare(Context(f, q.display, env), Cross(f.styles, f.weights, SubsetsOf(p)));
    }
  }
}
