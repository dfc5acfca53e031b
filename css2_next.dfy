/**
 * The fuller `/css2` handler of deprecated/css2-next.mjs: `start..end` ranges expand
 * to the standard weights between them, axis values are matched to axis names by
 * position, weights are emitted in ascending numeric order, `display` is written
 * verbatim and the `text` hint adds a comment and a query to every URL.
 */
module Css2Next {
  import opened Wrappers
  import opened Strings
  import opened OrderedSets
  import opened FontFace
  import opened StableSort

  /** Blocks start at column 0 and their properties are indented by two spaces. */
  const LAYOUT: Layout := Layout("", "  ")

  /** What `parseFamily` returns; `styles` and `weights` are sets in insertion order. */
  datatype Family = Family(name: string, id: string, styles: seq<Style>, weights: seq<string>)

  // ---------------------------------------------------------------- weight ranges

  /** The `standardWeights` a range is expanded over. */
  const STANDARD: seq<nat> := [100, 200, 300, 400, 500, 600, 700, 800, 900]

  /** `weight >= start && weight <= end`, where a NaN bound makes both comparisons false. */
  predicate Between(w: nat, start: Option<nat>, end: Option<nat>) {
    start.Some? && end.Some? && start.value <= w && w <= end.value
  }

  /** The weights of `ws` within the bounds, in order, as `toString` writes them. */
  function Ladder(ws: seq<nat>, start: Option<nat>, end: Option<nat>): (r: seq<string>)
    ensures |r| <= |ws|
    decreases |ws|
  {
    if ws == [] then []
    else
      var w := ws[|ws| - 1];
      Ladder(ws[..|ws| - 1], start, end) + (if Between(w, start, end) then [NatStr(w)] else [])
  }

  /**
   * The weights one spec adds: a spec containing `..` is split there, both ends go
   * through `Number`, and the standard weights between them are added; any other
   * spec is added verbatim.
   */
  function Expand(spec: string): seq<string> {
    if Contains(spec, "..") then
      var ends := Split(spec, "..");
      Ladder(STANDARD, JsNumber(ends[0]), JsNumber(ends[1]))
    else [spec]
  }

  /** The weights each `;`-separated spec of the `wght@` form adds, in order. */
  function SpecsRead(specs: seq<string>): (r: seq<seq<string>>)
    ensures |r| == |specs|
  {
    seq(|specs|, i requires 0 <= i < |specs| => Expand(specs[i]))
  }

  // ---------------------------------------------------------------- positional axes

  /** `axisValues[i]`: `undefined` past the end of the group. */
  function ValueAt(vals: seq<string>, i: nat): Option<string> {
    if i < |vals| then Some(vals[i]) else None
  }

  /** The style axis `i` adds: for `ital`, italic exactly when its value is `"1"`. */
  function ItalAdds(axisList: seq<string>, vals: seq<string>, i: nat): seq<Style>
    requires i < |axisList|
  {
    if axisList[i] == "ital" then [if ValueAt(vals, i) == Some("1") then Italic else Normal] else []
  }

  /** The weights axis `i` adds: for `wght` with a non-empty value, that value expanded. */
  function WghtAdds(axisList: seq<string>, vals: seq<string>, i: nat): seq<string>
    requires i < |axisList|
  {
    if axisList[i] == "wght" && Truthy(ValueAt(vals, i)) then Expand(vals[i]) else []
  }

  /** What each axis adds to the style set for one group, by position. */
  function ItalsAt(axisList: seq<string>, vals: seq<string>): (r: seq<seq<Style>>)
    ensures |r| == |axisList|
  {
    seq(|axisList|, i requires 0 <= i < |axisList| => ItalAdds(axisList, vals, i))
  }

  /** What each axis adds to the weight set for one group, by position. */
  function WghtsAt(axisList: seq<string>, vals: seq<string>): (r: seq<seq<string>>)
    ensures |r| == |axisList|
  {
    seq(|axisList|, i requires 0 <= i < |axisList| => WghtAdds(axisList, vals, i))
  }

  /** The styles one group adds, in axis order. */
  function AxisStyles(axisList: seq<string>, vals: seq<string>): seq<Style> {
    Flatten(ItalsAt(axisList, vals))
  }

  /** The weights one group adds, in axis order. */
  function AxisWeights(axisList: seq<string>, vals: seq<string>): seq<string> {
    Flatten(WghtsAt(axisList, vals))
  }

  /** The styles each `;`-group adds, in order. */
  function StylesRead(axisList: seq<string>, values: seq<string>): (r: seq<seq<Style>>)
    ensures |r| == |values|
  {
    seq(|values|, j requires 0 <= j < |values| => AxisStyles(axisList, Split(values[j], ",")))
  }

  /** The weights each `;`-group adds, in order. */
  function WeightsRead(axisList: seq<string>, values: seq<string>): (r: seq<seq<string>>)
    ensures |r| == |values|
  {
    seq(|values|, j requires 0 <= j < |values| => AxisWeights(axisList, Split(values[j], ",")))
  }

  /** `parseFamily(family)`. */
  function Parse(family: string): Family {
    var name := Split(family, ":")[0];
    if !Contains(family, ":") then Family(name, Alias(DashId(family)), [Normal], ["400"])
    else
      var params := Split(family, ":")[1];
      var id := Alias(DashId(name));
      if "wght@" <= params then
        PrefixContains(params, "wght@", '@', 4);
        Family(name, id, [Normal], CollectAll(SpecsRead(Split(Split(params, "@")[1], ";"))))
      else if Contains(params, "@") then
        var at := Split(params, "@");
        var axisList := Split(at[0], ",");
        var values := Split(at[1], ";");
        Family(name, id, CollectAll(StylesRead(axisList, values)), CollectAll(WeightsRead(axisList, values)))
      else Family(name, id, [Normal], ["400"])
  }

  // ---------------------------------------------------------------- parseFamily, as it runs

  /** `standardWeights.forEach(...)`: each standard weight within the bounds is added. */
  method AddLadder(weights: seq<string>, start: Option<nat>, end: Option<nat>) returns (out: seq<string>)
    ensures out == AddAll(weights, Ladder(STANDARD, start, end))
  {
    out := AddWithin(weights, STANDARD, start, end);
  }

  /** The `forEach` loop over a list of candidate weights `ws`. */
  method AddWithin(weights: seq<string>, ws: seq<nat>, start: Option<nat>, end: Option<nat>) returns (out: seq<string>)
    ensures out == AddAll(weights, Ladder(ws, start, end))
  {
    out := weights;
    for k := 0 to |ws|
      invariant out == AddAll(weights, Ladder(ws[..k], start, end))
    {
      var w := ws[k];
      assert ws[..k + 1][..k] == ws[..k];
      var more := if Between(w, start, end) then [NatStr(w)] else [];
      assert Ladder(ws[..k + 1], start, end) == Ladder(ws[..k], start, end) + more;
      AddAllAppend(weights, Ladder(ws[..k], start, end), more);
      if Between(w, start, end) {
        AddOne(out, NatStr(w));
        out := Add(out, NatStr(w));
      } else {
        assert AddAll(out, []) == out;
      }
    }
    assert ws[..|ws|] == ws;
  }

  /** One spec or one axis value: a range through `AddLadder`, anything else added as it is. */
  method AddSpec(weights: seq<string>, spec: string) returns (out: seq<string>)
    ensures out == AddAll(weights, Expand(spec))
  {
    if Contains(spec, "..") {
      var ends := Split(spec, "..");
      out := AddLadder(weights, JsNumber(ends[0]), JsNumber(ends[1]));
    } else {
      AddOne(weights, spec);
      out := Add(weights, spec);
    }
  }

  /** The `for (const spec of weightSpecs)` loop of the `wght@` form, into a new set. */
  method ReadSpecs(weightSpecs: seq<string>) returns (weights: seq<string>)
    ensures weights == CollectAll(SpecsRead(weightSpecs))
  {
    weights := [];
    for i := 0 to |weightSpecs|
      invariant weights == CollectAll(SpecsRead(weightSpecs[..i]))
    {
      SpecsReadSnoc(weightSpecs, i);
      CollectAllSnoc(SpecsRead(weightSpecs[..i]), Expand(weightSpecs[i]));
      weights := AddSpec(weights, weightSpecs[i]);
    }
    assert weightSpecs[..|weightSpecs|] == weightSpecs;
  }

  /** The inner `for (let i = 0; i < axisList.length; i++)` loop over one group's values. */
  method ReadAxes(styles: seq<Style>, weights: seq<string>, axisList: seq<string>, axisValues: seq<string>)
    returns (styles': seq<Style>, weights': seq<string>)
    ensures styles' == AddAll(styles, AxisStyles(axisList, axisValues))
    ensures weights' == AddAll(weights, AxisWeights(axisList, axisValues))
  {
    styles', weights' := styles, weights;
    for i := 0 to |axisList|
      invariant styles' == AddAll(styles, Flatten(ItalsAt(axisList, axisValues)[..i]))
      invariant weights' == AddAll(weights, Flatten(WghtsAt(axisList, axisValues)[..i]))
    {
      var axisValue := ValueAt(axisValues, i);
      ghost var styles0, weights0 := styles', weights';
      ghost var its, wts := ItalAdds(axisList, axisValues, i), WghtAdds(axisList, axisValues, i);
      if axisList[i] == "ital" {
        var s := if axisValue == Some("1") then Italic else Normal;
        assert its == [s];
        AddOne(styles', s);
        styles' := Add(styles', s);
      } else {
        assert its == [] && AddAll(styles', []) == styles';
      }
      if axisList[i] == "wght" && Truthy(axisValue) {
        assert wts == Expand(axisValue.value);
        weights' := AddSpec(weights', axisValue.value);
      } else {
        assert wts == [] && AddAll(weights', []) == weights';
      }
      assert styles' == AddAll(styles0, its) && weights' == AddAll(weights0, wts);
      AtSnoc(axisList, axisValues, i);
      AddAllAppend(styles, Flatten(ItalsAt(axisList, axisValues)[..i]), its);
      AddAllAppend(weights, Flatten(WghtsAt(axisList, axisValues)[..i]), wts);
    }
    assert ItalsAt(axisList, axisValues)[..|axisList|] == ItalsAt(axisList, axisValues);
    assert WghtsAt(axisList, axisValues)[..|axisList|] == WghtsAt(axisList, axisValues);
  }

  lemma AtSnoc(axisList: seq<string>, vals: seq<string>, i: nat)
    requires i < |axisList|
    ensures Flatten(ItalsAt(axisList, vals)[..i + 1]) == Flatten(ItalsAt(axisList, vals)[..i]) + ItalAdds(axisList, vals, i)
    ensures Flatten(WghtsAt(axisList, vals)[..i + 1]) == Flatten(WghtsAt(axisList, vals)[..i]) + WghtAdds(axisList, vals, i)
  {
    var its, wts := ItalsAt(axisList, vals), WghtsAt(axisList, vals);
    assert its[..i + 1] == its[..i] + [its[i]];
    assert wts[..i + 1] == wts[..i] + [wts[i]];
    FlattenSnoc(its[..i], its[i]);
    FlattenSnoc(wts[..i], wts[i]);
  }

  /** The outer `for (const value of valuesList)` loop, after `styles.clear()` and a new weight set. */
  method ReadValues(axisList: seq<string>, valuesList: seq<string>) returns (styles: seq<Style>, weights: seq<string>)
    ensures styles == CollectAll(StylesRead(axisList, valuesList))
    ensures weights == CollectAll(WeightsRead(axisList, valuesList))
  {
    styles, weights := [], [];
    for j := 0 to |valuesList|
      invariant styles == CollectAll(StylesRead(axisList, valuesList[..j]))
      invariant weights == CollectAll(WeightsRead(axisList, valuesList[..j]))
    {
      var axisValues := Split(valuesList[j], ",");
      StylesReadSnoc(axisList, valuesList, j);
      WeightsReadSnoc(axisList, valuesList, j);
      CollectAllSnoc(StylesRead(axisList, valuesList[..j]), AxisStyles(axisList, axisValues));
      CollectAllSnoc(WeightsRead(axisList, valuesList[..j]), AxisWeights(axisList, axisValues));
      styles, weights := ReadAxes(styles, weights, axisList, axisValues);
    }
    assert valuesList[..|valuesList|] == valuesList;
  }

  lemma SpecsReadSnoc(specs: seq<string>, i: nat)
    requires i < |specs|
    ensures SpecsRead(specs[..i + 1]) == SpecsRead(specs[..i]) + [Expand(specs[i])]
  {
    assert specs[..i + 1][..i] == specs[..i];
  }

  lemma StylesReadSnoc(axisList: seq<string>, values: seq<string>, j: nat)
    requires j < |values|
    ensures StylesRead(axisList, values[..j + 1])
         == StylesRead(axisList, values[..j]) + [AxisStyles(axisList, Split(values[j], ","))]
  {
    var a := StylesRead(axisList, values[..j + 1]);
    var b := StylesRead(axisList, values[..j]);
    var c := AxisStyles(axisList, Split(values[j], ","));
    assert values[..j + 1][j] == values[j];
    assert a[j] == c;
    forall k | 0 <= k < j ensures a[k] == b[k] {
      assert values[..j + 1][k] == values[..j][k];
    }
    SnocEq(a, b, c);
  }

  lemma WeightsReadSnoc(axisList: seq<string>, values: seq<string>, j: nat)
    requires j < |values|
    ensures WeightsRead(axisList, values[..j + 1])
         == WeightsRead(axisList, values[..j]) + [AxisWeights(axisList, Split(values[j], ","))]
  {
    var a := WeightsRead(axisList, values[..j + 1]);
    var b := WeightsRead(axisList, values[..j]);
    forall k | 0 <= k < j ensures a[k] == b[k] {
      assert values[..j + 1][k] == values[..j][k];
    }
  }

  /** `parseFamily`, as the source runs it. */
  method ParseFamily(family: string) returns (f: Family)
    ensures f == Parse(family)
  {
    var weights := ["400"];
    var styles := [Normal];
    var dashFamily := DashId(family);
    var familyName := Split(family, ":")[0];
    if Contains(family, ":") {
      var params := Split(family, ":")[1];
      if "wght@" <= params {
        PrefixContains(params, "wght@", '@', 4);
        var weightParam := Split(params, "@")[1];
        weights := ReadSpecs(Split(weightParam, ";"));
      } else if Contains(params, "@") {
        var at := Split(params, "@");
        var axes, values := at[0], at[1];
        styles, weights := ReadValues(Split(axes, ","), Split(values, ";"));
      }
      dashFamily := DashId(familyName);
    }
    if dashFamily == "source-sans-pro" {
      dashFamily := "source-sans-3";
    }
    f := Family(familyName, dashFamily, styles, weights);
  }

  // ---------------------------------------------------------------- the handler

  /** `decodeURIComponent`, which throws on a malformed escape, and `encodeURIComponent`. */
  datatype UriCodec = UriCodec(decode: string -> Option<string>, encode: string -> string)

  /** `if (display) css += "font-display: " + display`: a truthy value is written as it is. */
  function Display(display: Option<string>): (d: Option<string>)
    ensures d.Some? <==> Truthy(display)
    ensures d.Some? ==> d == display
  {
    if Truthy(display) then display else None
  }

  /** `if (text) url += "?text=" + encodeURIComponent(text)`. */
  function TextQuery(text: Option<string>, codec: UriCodec): string {
    if Truthy(text) then "?text=" + codec.encode(text.value) else ""
  }

  /** The comment pushed first when `text` is truthy. */
  function TextComment(decoded: string): string {
    "/* Optimized for text: " + decoded + " */"
  }

  /** The payload before any block: the text comment, or nothing; `None` when decoding throws. */
  function Head(text: Option<string>, codec: UriCodec): Option<seq<string>> {
    if !Truthy(text) then Some([])
    else
      match codec.decode(text.value)
      case None => None
      case Some(d) => Some([TextComment(d)])
  }

  /** What every block of one family shares. */
  function Context(f: Family, q: Query, env: Env, codec: UriCodec): FaceCtx {
    FaceCtx(f.name, f.id, Display(q.display), TextQuery(q.text, codec), env.domain, env.catalog)
  }

  /** `parseInt`, as the key of the numeric comparator. */
  function WeightKey(w: string): int {
    ParseIntKey(w)
  }

  /** The rules of a parsed family over its listed subsets: style, then sorted weight, then subset. */
  function FamilyFaces(f: Family, subsets: seq<string>, q: Query, env: Env, codec: UriCodec): seq<Rule> {
    Faces(Context(f, q, env, codec), Cross(f.styles, SortBy(f.weights, WeightKey), subsets))
  }

  /** The rules of one family token, or `None` when the registry does not list its subsets. */
  function FamilyRules(token: string, q: Query, env: Env, codec: UriCodec): Option<seq<Rule>> {
    var f := Parse(token);
    var p := Find(env.data, f.id);
    if !Listed(p) then None else Some(FamilyFaces(f, SubsetsOf(p), q, env, codec))
  }

  function Outcomes(tokens: seq<string>, q: Query, env: Env, codec: UriCodec): (os: seq<Option<seq<Rule>>>)
    ensures |os| == |tokens|
  {
    seq(|tokens|, i requires 0 <= i < |tokens| => FamilyRules(tokens[i], q, env, codec))
  }

  lemma OutcomesSnoc(tokens: seq<string>, n: nat, q: Query, env: Env, codec: UriCodec)
    requires n < |tokens|
    ensures Outcomes(tokens[..n + 1], q, env, codec)
         == Outcomes(tokens[..n], q, env, codec) + [FamilyRules(tokens[n], q, env, codec)]
  {
    assert tokens[..n + 1][..n] == tokens[..n];
  }

  /** All rules of the request in order, or `None` when some family is not available. */
  function Rules(q: Query, env: Env, codec: UriCodec): Option<seq<Rule>> {
    Gather(Outcomes(FamilyList(q.family), q, env, codec))
  }

  /** The payload after the family loop, or `None` when it returns the notice. */
  function Payload(head: seq<string>, q: Query, env: Env, codec: UriCodec): Option<seq<string>> {
    match Rules(q, env, codec)
    case None => None
    case Some(rs) => Some(head + Renders(LAYOUT, rs))
  }

  /** The outcome of the handler. */
  function Reply(q: Query, env: Env, codec: UriCodec): Response {
    if !Given(q.family) then ServerError(WrongRequest)
    else
      match Head(q.text, codec)
      case None => ServerError(RuntimeError)
      case Some(head) =>
        match Payload(head, q, env, codec)
        case None => HtmlNotice
        case Some(payload) => if payload == [] then StringError(CONTACT) else Css(Assemble(payload))
  }

  /** `parseFamily` and then `weights.sort(...)` on the array it returned. */
  method SortedFamily(token: string) returns (f: Family, sortedWeights: seq<string>)
    ensures f == Parse(token) && sortedWeights == SortBy(f.weights, WeightKey)
  {
    f := ParseFamily(token);
    var a := new string[|f.weights|](k requires 0 <= k < |f.weights| => f.weights[k]);
    assert a[..] == f.weights;
    SortInPlace(a, WeightKey);
    sortedWeights := a[..];
  }

  /** One pass of the family loop: the notice, or the family's blocks pushed. */
  method PushFamily(payload: seq<string>, token: string, q: Query, env: Env, codec: UriCodec)
    returns (out: Option<seq<string>>)
    ensures out.None? <==> FamilyRules(token, q, env, codec).None?
    ensures out.Some? ==> out.value == payload + Renders(LAYOUT, FamilyRules(token, q, env, codec).value)
  {
    var f, sortedWeights := SortedFamily(token);
    var properties := Find(env.data, f.id);
    if !Listed(properties) {
      return None;
    }
    var subsets := properties.value.subsets.value;
    var pushed := PushFaces(payload, LAYOUT, Context(f, q, env, codec), f.styles, sortedWeights, subsets);
    return Some(pushed);
  }

  /** The `for (const family of familyList)` loop; `None` where it returns the notice. */
  method PushFamilies(head: seq<string>, q: Query, env: Env, codec: UriCodec) returns (out: Option<seq<string>>)
    ensures out == Payload(head, q, env, codec)
  {
    var familyList := FamilyList(q.family);
    var payload := head;
    ghost var rules: seq<Rule> := [];
    for n := 0 to |familyList|
      invariant Gather(Outcomes(familyList[..n], q, env, codec)) == Some(rules)
      invariant payload == head + Renders(LAYOUT, rules)
    {
      OutcomesSnoc(familyList, n, q, env, codec);
      var next := PushFamily(payload, familyList[n], q, env, codec);
      if next.None? {
        assert Outcomes(familyList, q, env, codec)[n].None?;
        return None;
      }
      ghost var more := FamilyRules(familyList[n], q, env, codec).value;
      RendersAfter(LAYOUT, head, rules, more);
      GatherAppend(Outcomes(familyList[..n], q, env, codec), rules, more);
      rules := rules + more;
      payload := next.value;
    }
    assert familyList[..|familyList|] == familyList;
    return Some(payload);
  }

  /** The `css2` handler. */
  method Handle(q: Query, env: Env, codec: UriCodec) returns (r: Response)
    ensures r == Reply(q, env, codec)
  {
    if !Given(q.family) {
      return ServerError(WrongRequest);
    }
    var payload: seq<string> := [];
    if Truthy(q.text) {
      var decoded := codec.decode(q.text.value);
      if decoded.None? {
        return ServerError(RuntimeError);
      }
      payload := [TextComment(decoded.value)];
    }
    var built := PushFamilies(payload, q, env, codec);
    if built.None? {
      return HtmlNotice;
    }
    payload := built.value;
    if |payload| == 0 {
      return StringError(CONTACT);
    }
    return Css(Assemble(payload));
  }

  // ---------------------------------------------------------------- ranges

  /** The weights of a ladder are exactly the weights of `ws` within the bounds, written out. */
  lemma {:induction false} LadderIn(ws: seq<nat>, start: Option<nat>, end: Option<nat>)
    ensures forall x :: x in Ladder(ws, start, end) <==>
              exists k :: 0 <= k < |ws| && Between(ws[k], start, end) && x == NatStr(ws[k])
    decreases |ws|
  {
    if ws != [] {
      var init := ws[..|ws| - 1];
      LadderIn(init, start, end);
      assert forall k :: 0 <= k < |init| ==> init[k] == ws[k];
    }
  }

  /**
   * A range adds exactly those of 100, 200, ..., 900 that lie within its ends, and
   * nothing at all when an end is NaN.
   */
  lemma RangeWeights(start: Option<nat>, end: Option<nat>)
    ensures forall x :: x in Ladder(STANDARD, start, end) <==>
              exists w :: w in STANDARD && Between(w, start, end) && x == NatStr(w)
    ensures start.None? || end.None? ==> Ladder(STANDARD, start, end) == []
  {
    LadderIn(STANDARD, start, end);
    LadderNaN(STANDARD, start, end);
  }

  lemma {:induction false} LadderNaN(ws: seq<nat>, start: Option<nat>, end: Option<nat>)
    ensures start.None? || end.None? ==> Ladder(ws, start, end) == []
    decreases |ws|
  {
    if ws != [] {
      LadderNaN(ws[..|ws| - 1], start, end);
    }
  }

  lemma LadderStep(ws: seq<nat>, k: nat, start: Option<nat>, end: Option<nat>)
    requires k < |ws|
    ensures Ladder(ws[..k + 1], start, end)
         == Ladder(ws[..k], start, end) + (if Between(ws[k], start, end) then [NatStr(ws[k])] else [])
  {
    assert ws[..k + 1][..k] == ws[..k];
  }

  /** `toString` of a whole hundred. */
  lemma Hundred(d: nat)
    requires 1 <= d <= 9
    ensures NatStr(d * 100) == [DigitChar(d), '0', '0']
  {
    assert (d * 100) / 10 == d * 10 && (d * 100) % 10 == 0;
    assert (d * 10) / 10 == d && (d * 10) % 10 == 0;
    assert NatStr(d * 100) == NatStr(d * 10) + ['0'];
    assert NatStr(d * 10) == NatStr(d) + ['0'];
  }

  lemma Hundreds()
    ensures NatStr(100) == "100" && NatStr(200) == "200" && NatStr(300) == "300"
    ensures NatStr(400) == "400" && NatStr(500) == "500" && NatStr(600) == "600"
    ensures NatStr(700) == "700" && NatStr(800) == "800" && NatStr(900) == "900"
  {
    Hundred(1); Hundred(2); Hundred(3); Hundred(4); Hundred(5);
    Hundred(6); Hundred(7); Hundred(8); Hundred(9);
  }

  /** A spec `lo..hi` of digits is the ladder between their values; other specs are kept verbatim. */
  lemma ExpandRange(lo: string, hi: string)
    requires AllDigits(lo) && AllDigits(hi)
    ensures Expand(lo + ".." + hi) == Ladder(STANDARD, Some(DigitsValue(lo)), Some(DigitsValue(hi)))
  {
    ContainsMid(lo, "..", hi);
    assert '.' !in lo by {
      forall i | 0 <= i < |lo| ensures lo[i] != '.' { assert IsDigit(lo[i]); }
    }
    assert '.' !in hi by {
      forall i | 0 <= i < |hi| ensures hi[i] != '.' { assert IsDigit(hi[i]); }
    }
    SplitFirst(lo, "..", hi);
    SplitNone(hi, "..");
  }

  // ---------------------------------------------------------------- parseFamily

  /** A token without `:` is the whole family name, normal style and weight 400. */
  lemma ParseBare(token: string)
    requires ':' !in token
    ensures Parse(token) == Family(token, Alias(DashId(token)), [Normal], ["400"])
  {
    SplitNone(token, ":");
  }

  /** `Name:wght@specs` keeps the normal style and reads every `;`-separated spec. */
  lemma ParseWght(token: string, name: string, specs: string)
    requires token == name + ":wght@" + specs
    requires ':' !in name && ':' !in specs && '@' !in specs
    ensures Parse(token) == Family(name, Alias(DashId(name)), [Normal], CollectAll(SpecsRead(Split(specs, ";"))))
  {
    var params := "wght@" + specs;
    assert token == name + ":" + params;
    assert Split(token, ":") == [name, params] by {
      SplitFirst(name, ":", params);
      SplitNone(params, ":");
    }
    assert Contains(token, ":") by { ContainsMid(name, ":", params); }
    WghtSplit(specs);
    ParseShorthand(token, name, specs);
  }

  lemma WghtSplit(specs: string)
    requires '@' !in specs
    ensures Split("wght@" + specs, "@") == ["wght", specs]
  {
    assert "wght@" + specs == "wght" + "@" + specs;
    SplitFirst("wght", "@", specs);
    SplitNone(specs, "@");
  }

  lemma ParseShorthand(token: string, name: string, specs: string)
    requires Split(token, ":") == [name, "wght@" + specs] && Contains(token, ":")
    requires Split("wght@" + specs, "@") == ["wght", specs]
    ensures Parse(token) == Family(name, Alias(DashId(name)), [Normal], CollectAll(SpecsRead(Split(specs, ";"))))
  {
  }

  /** The weights of the `wght@` form: every spec's weights, each once; nothing else. */
  lemma SpecsShape(specs: seq<string>)
    ensures NoDup(CollectAll(SpecsRead(specs)))
    ensures forall w :: w in CollectAll(SpecsRead(specs)) <==> exists i :: 0 <= i < |specs| && w in Expand(specs[i])
  {
    var xss := SpecsRead(specs);
    CollectAllIn(xss);
    forall w | w in CollectAll(xss) ensures exists i :: 0 <= i < |specs| && w in Expand(specs[i]) {
      var j :| 0 <= j < |xss| && w in xss[j];
      assert xss[j] == Expand(specs[j]);
    }
    forall w, i | 0 <= i < |specs| && w in Expand(specs[i]) ensures w in CollectAll(xss) {
      assert w in xss[i];
    }
  }

  /** `Name:axes@values` with other axes than the `wght@` shorthand reads the values by position. */
  lemma ParseAxes(token: string, name: string, axes: string, values: string)
    requires token == name + ":" + axes + "@" + values
    requires ':' !in name && ':' !in axes && ':' !in values
    requires '@' !in axes && '@' !in values && axes != "wght"
    ensures var axisList, vs := Split(axes, ","), Split(values, ";");
            Parse(token) == Family(name, Alias(DashId(name)),
                                   CollectAll(StylesRead(axisList, vs)), CollectAll(WeightsRead(axisList, vs)))
  {
    var params := axes + "@" + values;
    assert token == name + ":" + params;
    assert Split(token, ":") == [name, params] by {
      assert ':' !in params;
      SplitFirst(name, ":", params);
      SplitNone(params, ":");
    }
    assert Contains(token, ":") by { ContainsMid(name, ":", params); }
    assert Split(params, "@") == [axes, values] by {
      SplitFirst(axes, "@", values);
      SplitNone(values, "@");
    }
    assert Contains(params, "@") by { ContainsMid(axes, "@", values); }
    assert !("wght@" <= params) by { NotShorthand(axes, values); }
    ParseGroups(token, name, axes, values);
  }

  lemma ParseGroups(token: string, name: string, axes: string, values: string)
    requires Split(token, ":") == [name, axes + "@" + values] && Contains(token, ":")
    requires Split(axes + "@" + values, "@") == [axes, values] && Contains(axes + "@" + values, "@")
    requires !("wght@" <= axes + "@" + values)
    ensures var axisList, vs := Split(axes, ","), Split(values, ";");
            Parse(token) == Family(name, Alias(DashId(name)),
                                   CollectAll(StylesRead(axisList, vs)), CollectAll(WeightsRead(axisList, vs)))
  {
  }

  /** Axis `i` gives a style only when it is named `ital`: italic for `"1"`, normal otherwise. */
  lemma AxisStylesIn(axisList: seq<string>, vals: seq<string>)
    ensures forall s :: s in AxisStyles(axisList, vals) <==>
              exists i :: 0 <= i < |axisList| && axisList[i] == "ital"
                          && s == (if ValueAt(vals, i) == Some("1") then Italic else Normal)
  {
    var xss := ItalsAt(axisList, vals);
    FlattenIn(xss);
    forall s | s in Flatten(xss)
      ensures exists i :: 0 <= i < |axisList| && axisList[i] == "ital"
                          && s == (if ValueAt(vals, i) == Some("1") then Italic else Normal)
    {
      var i :| 0 <= i < |xss| && s in xss[i];
      assert xss[i] == ItalAdds(axisList, vals, i);
    }
    forall i | 0 <= i < |axisList| && axisList[i] == "ital"
      ensures (if ValueAt(vals, i) == Some("1") then Italic else Normal) in Flatten(xss)
    {
      assert xss[i] == ItalAdds(axisList, vals, i);
    }
  }

  /** Axis `i` gives weights only when it is named `wght` and its value is non-empty. */
  lemma AxisWeightsIn(axisList: seq<string>, vals: seq<string>)
    ensures forall w :: w in AxisWeights(axisList, vals) <==>
              exists i :: 0 <= i < |axisList| && axisList[i] == "wght" && i < |vals| && vals[i] != ""
                          && w in Expand(vals[i])
  {
    var xss := WghtsAt(axisList, vals);
    FlattenIn(xss);
    forall w | w in Flatten(xss)
      ensures exists i :: 0 <= i < |axisList| && axisList[i] == "wght" && i < |vals| && vals[i] != ""
                          && w in Expand(vals[i])
    {
      var i :| 0 <= i < |xss| && w in xss[i];
      assert xss[i] == WghtAdds(axisList, vals, i);
    }
    forall w, i | 0 <= i < |axisList| && axisList[i] == "wght" && i < |vals| && vals[i] != ""
                  && w in Expand(vals[i])
      ensures w in Flatten(xss)
    {
      assert xss[i] == WghtAdds(axisList, vals, i);
    }
  }

  /**
   * The style and weight sets of the axis form: each once, and exactly those some
   * group gives at some axis position.
   */
  lemma AxesShape(axisList: seq<string>, values: seq<string>)
    ensures NoDup(CollectAll(StylesRead(axisList, values))) && NoDup(CollectAll(WeightsRead(axisList, values)))
    ensures forall s :: s in CollectAll(StylesRead(axisList, values)) <==>
              exists j :: 0 <= j < |values| && s in AxisStyles(axisList, Split(values[j], ","))
    ensures forall w :: w in CollectAll(WeightsRead(axisList, values)) <==>
              exists j :: 0 <= j < |values| && w in AxisWeights(axisList, Split(values[j], ","))
  {
    var ss, ws := StylesRead(axisList, values), WeightsRead(axisList, values);
    CollectAllIn(ss);
    CollectAllIn(ws);
    forall s | s in CollectAll(ss)
      ensures exists j :: 0 <= j < |values| && s in AxisStyles(axisList, Split(values[j], ","))
    {
      var j :| 0 <= j < |ss| && s in ss[j];
      assert ss[j] == AxisStyles(axisList, Split(values[j], ","));
    }
    forall s, j | 0 <= j < |values| && s in AxisStyles(axisList, Split(values[j], ","))
      ensures s in CollectAll(ss)
    {
      assert s in ss[j];
    }
    forall w | w in CollectAll(ws)
      ensures exists j :: 0 <= j < |values| && w in AxisWeights(axisList, Split(values[j], ","))
    {
      var j :| 0 <= j < |ws| && w in ws[j];
      assert ws[j] == AxisWeights(axisList, Split(values[j], ","));
    }
    forall w, j | 0 <= j < |values| && w in AxisWeights(axisList, Split(values[j], ","))
      ensures w in CollectAll(ws)
    {
      assert w in ws[j];
    }
  }

  /** The id is the name lower-cased and hyphenated, with the one alias; the name is kept. */
  lemma ParseNames(token: string)
    ensures Parse(token).name == Split(token, ":")[0]
    ensures Parse(token).id == Alias(DashId(Parse(token).name))
  {
    if !Contains(token, ":") {
      assert Join(Split(token, ":"), ":") == Split(token, ":")[0];
    }
  }

  // ---------------------------------------------------------------- blocks of one family

  /** A family gives `|styles| * |weights| * |subsets|` rules, none exactly when a factor is empty. */
  lemma FamilyCount(f: Family, subsets: seq<string>, q: Query, env: Env, codec: UriCodec)
    ensures |FamilyFaces(f, subsets, q, env, codec)| == |f.styles| * (|f.weights| * |subsets|)
    ensures FamilyFaces(f, subsets, q, env, codec) == [] <==> f.styles == [] || f.weights == [] || subsets == []
  {
    MulZero(|f.weights|, |subsets|);
    MulZero(|f.styles|, |f.weights| * |subsets|);
  }

  /**
   * Rule `idx = i * (|weights| * |subsets|) + j * |subsets| + k` is style i, the j-th
   * weight in ascending order, subset k; it writes `display` as given and appends
   * the text query to the URL.
   */
  lemma {:induction false} FamilyRuleAt(f: Family, subsets: seq<string>, q: Query, env: Env, codec: UriCodec,
                     i: nat, j: nat, k: nat, idx: nat)
    requires i < |f.styles| && j < |f.weights| && k < |subsets|
    requires idx == i * (|f.weights| * |subsets|) + j * |subsets| + k
    ensures idx < |FamilyFaces(f, subsets, q, env, codec)|
    ensures var w := SortBy(f.weights, WeightKey)[j];
      FamilyFaces(f, subsets, q, env, codec)[idx]
      == Rule(subsets[k], f.name, f.styles[i], w, Display(q.display),
              FontUrl(env.domain, f.id, f.styles[i], w) + TextQuery(q.text, codec),
              UnicodeRange(env.catalog, subsets[k]))
  {
    var ws := SortBy(f.weights, WeightKey);
    CrossAt(f.styles, ws, subsets, i, j, k, idx);
    FaceOf(Context(f, q, env, codec), Cross(f.styles, ws, subsets), idx, (f.styles[i], ws[j], subsets[k]));
  }

  /** The weights emitted are the parsed weights, each as often, reordered. */
  lemma FamilyWeightsKept(f: Family)
    ensures multiset(SortBy(f.weights, WeightKey)) == multiset(f.weights)
    ensures SortedBy(SortBy(f.weights, WeightKey), WeightKey)
  {
    SortPerm(f.weights, WeightKey);
    SortSorted(f.weights, WeightKey);
  }

  // ---------------------------------------------------------------- the response

  /** A missing or empty `family` is the 500 "Wrong request". */
  lemma ReplyMissing(q: Query, env: Env, codec: UriCodec)
    ensures Reply(q, env, codec) == ServerError(WrongRequest) <==> !Given(q.family)
  {
  }

  /** A `text` that `decodeURIComponent` rejects fails the request before any family is read. */
  lemma ReplyDecodeFails(q: Query, env: Env, codec: UriCodec)
    ensures Reply(q, env, codec) == ServerError(RuntimeError) <==>
      Given(q.family) && Truthy(q.text) && codec.decode(q.text.value).None?
  {
  }

  /** One family without listed subsets turns the whole response into the notice. */
  lemma ReplyNotice(q: Query, env: Env, codec: UriCodec)
    ensures Reply(q, env, codec) == HtmlNotice <==>
      Given(q.family) && Head(q.text, codec).Some?
      && exists i :: 0 <= i < |FamilyList(q.family)| && !Listed(Find(env.data, Parse(FamilyList(q.family)[i]).id))
  {
    var os := Outcomes(FamilyList(q.family), q, env, codec);
    forall i | 0 <= i < |os|
      ensures os[i].None? <==> !Listed(Find(env.data, Parse(FamilyList(q.family)[i]).id))
    {
    }
  }

  /**
   * The thrown contact string needs an empty payload: no `text` comment and no
   * block from any family, all of which are listed.
   */
  lemma ReplyEmpty(q: Query, env: Env, codec: UriCodec)
    ensures Reply(q, env, codec) == StringError(CONTACT) <==>
      Given(q.family) && !Truthy(q.text) && forall i :: 0 <= i < |FamilyList(q.family)| ==>
        var f := Parse(FamilyList(q.family)[i]);
        Listed(Find(env.data, f.id))
        && (f.styles == [] || f.weights == [] || SubsetsOf(Find(env.data, f.id)) == [])
  {
    RulesEmpty(q, env, codec);
    ReplyEmptyPayload(q, env, codec);
  }

  /** The contact string is the empty payload: no head and no rules. */
  lemma ReplyEmptyPayload(q: Query, env: Env, codec: UriCodec)
    ensures Reply(q, env, codec) == StringError(CONTACT) <==>
      Given(q.family) && !Truthy(q.text) && Rules(q, env, codec) == Some([])
  {
    if Given(q.family) && Head(q.text, codec).Some? && Rules(q, env, codec).Some? {
      RendersEmpty(Rules(q, env, codec).value);
    }
  }

  /** No family gives a block exactly when every family is listed and has an empty factor. */
  lemma RulesEmpty(q: Query, env: Env, codec: UriCodec)
    ensures Rules(q, env, codec) == Some([]) <==>
      forall i :: 0 <= i < |FamilyList(q.family)| ==>
        var f := Parse(FamilyList(q.family)[i]);
        Listed(Find(env.data, f.id))
        && (f.styles == [] || f.weights == [] || SubsetsOf(Find(env.data, f.id)) == [])
  {
    var ts := FamilyList(q.family);
    var os := Outcomes(ts, q, env, codec);
    forall i | 0 <= i < |os|
      ensures var f := Parse(ts[i]);
        os[i] == Some([]) <==>
        Listed(Find(env.data, f.id))
        && (f.styles == [] || f.weights == [] || SubsetsOf(Find(env.data, f.id)) == [])
    {
      assert os[i] == FamilyRules(ts[i], q, env, codec);
      OutcomeEmpty(ts[i], q, env, codec);
    }
    GatherNone(os);
  }

  lemma OutcomeEmpty(token: string, q: Query, env: Env, codec: UriCodec)
    ensures var f := Parse(token);
      FamilyRules(token, q, env, codec) == Some([]) <==>
      Listed(Find(env.data, f.id))
      && (f.styles == [] || f.weights == [] || SubsetsOf(Find(env.data, f.id)) == [])
  {
    var f := Parse(token);
    FamilyCount(f, SubsetsOf(Find(env.data, f.id)), q, env, codec);
  }


  lemma RendersEmpty(rs: seq<Rule>)
    ensures Renders(LAYOUT, rs) == [] <==> rs == []
  {
  }

  /**
   * With a decodable `text`, every listed request is CSS whose body starts with the
   * text comment, even when no family gives a block.
   */
  lemma ReplyText(q: Query, env: Env, codec: UriCodec)
    requires Given(q.family) && Truthy(q.text) && codec.decode(q.text.value).Some?
    requires Rules(q, env, codec).Some?
    ensures Reply(q, env, codec).Css?
    ensures TextComment(codec.decode(q.text.value).value) <= Reply(q, env, codec).body
  {
    var c := TextComment(codec.decode(q.text.value).value);
    var payload := [c] + Renders(LAYOUT, Rules(q, env, codec).value);
    JoinPrefix(payload, " ");
    assert c[0] == '/' && c[|c| - 1] == '/';
    TrimPrefix(c, Join(payload, " "));
  }

  /** Without `text`, the CSS body is the blocks joined by single spaces, less the first newline. */
  lemma ReplyCss(q: Query, env: Env, codec: UriCodec)
    requires !Truthy(q.text)
    ensures Reply(q, env, codec).Css? <==> Given(q.family) && Rules(q, env, codec).Some? && Rules(q, env, codec).value != []
    ensures Given(q.family) && Rules(q, env, codec).Some? && Rules(q, env, codec).value != [] ==>
      Join(Renders(LAYOUT, Rules(q, env, codec).value), " ") == "\n" + LAYOUT.outer + Reply(q, env, codec).body
  {
    ReplyCssKind(q, env, codec);
    if Given(q.family) && Rules(q, env, codec).Some? && Rules(q, env, codec).value != [] {
      ReplyCssBody(q, env, codec);
      BodyOpens(LAYOUT, Rules(q, env, codec).value, Reply(q, env, codec).body);
    }
  }

  lemma ReplyCssKind(q: Query, env: Env, codec: UriCodec)
    requires !Truthy(q.text)
    ensures Reply(q, env, codec).Css? <==> Given(q.family) && Rules(q, env, codec).Some? && Rules(q, env, codec).value != []
  {
    ReplyPlain(q, env, codec);
  }

  lemma ReplyCssBody(q: Query, env: Env, codec: UriCodec)
    requires !Truthy(q.text)
    requires Given(q.family) && Rules(q, env, codec).Some? && Rules(q, env, codec).value != []
    ensures Reply(q, env, codec) == Css(Assemble(Renders(LAYOUT, Rules(q, env, codec).value)))
  {
    ReplyPlain(q, env, codec);
  }

  /** Without `text`, the payload is the blocks alone. */
  lemma ReplyPlain(q: Query, env: Env, codec: UriCodec)
    requires !Truthy(q.text)
    ensures Reply(q, env, codec) ==
      if !Given(q.family) then ServerError(WrongRequest)
      else match Rules(q, env, codec)
        case None => HtmlNotice
        case Some(rs) => if rs == [] then StringError(CONTACT) else Css(Assemble(Renders(LAYOUT, rs)))
  {
    assert Head(q.text, codec) == Some([]);
    PayloadPlain(q, env, codec);
    if Rules(q, env, codec).Some? {
      RendersEmpty(Rules(q, env, codec).value);
    }
  }

  lemma PayloadPlain(q: Query, env: Env, codec: UriCodec)
    ensures Rules(q, env, codec).None? ==> Payload([], q, env, codec).None?
    ensures Rules(q, env, codec).Some? ==> Payload([], q, env, codec) == Some(Renders(LAYOUT, Rules(q, env, codec).value))
  {
    if Rules(q, env, codec).Some? {
      assert [] + Renders(LAYOUT, Rules(q, env, codec).value) == Renders(LAYOUT, Rules(q, env, codec).value);
    }
  }

  /**
   * Every rule of the response belongs to one of the tokens: it shows that token's
   * family name, `display` as given when truthy, and the URL for its own style and
   * weight followed by the text query.
   */
  lemma RulesShare(q: Query, env: Env, codec: UriCodec)
    requires Rules(q, env, codec).Some?
    ensures forall x :: x in Rules(q, env, codec).value ==>
      x.display == Display(q.display) && x.range == UnicodeRange(env.catalog, x.subset)
      && exists i :: 0 <= i < |FamilyList(q.family)| &&
           var f := Parse(FamilyList(q.family)[i]);
           x.family == f.name && x.url == FontUrl(env.domain, f.id, x.style, x.weight) + TextQuery(q.text, codec)
  {
    var ts := FamilyList(q.family);
    var os := Outcomes(ts, q, env, codec);
    GatherMembers(os);
    forall i | 0 <= i < |os|
      ensures forall x :: x in os[i].value ==>
        x.display == Display(q.display) && x.range == UnicodeRange(env.catalog, x.subset)
        && x.family == Parse(ts[i]).name
        && x.url == FontUrl(env.domain, Parse(ts[i]).id, x.style, x.weight) + TextQuery(q.text, codec)
    {
      var f := Parse(ts[i]);
      var p := Find(env.data, f.id);
      FacesShare(Context(f, q, env, codec), Cross(f.styles, SortBy(f.weights, WeightKey), SubsetsOf(p)));
    }
  }

  // ---------------------------------------------------------------- examples

  /** `100..900` gives all nine standard weights, in ascending order. */
  lemma FullRange()
    ensures Ladder(STANDARD, Some(100), Some(900))
         == ["100", "200", "300", "400", "500", "600", "700", "800", "900"]
  {
    FullLadder();
    Hundreds();
  }

  lemma FullLadder()
    ensures Ladder(STANDARD, Some(100), Some(900))
         == [NatStr(100), NatStr(200), NatStr(300), NatStr(400), NatStr(500),
             NatStr(600), NatStr(700), NatStr(800), NatStr(900)]
  {
    assert STANDARD[..0] == [];
    LadderStep(STANDARD, 0, Some(100), Some(900));
    LadderStep(STANDARD, 1, Some(100), Some(900));
    LadderStep(STANDARD, 2, Some(100), Some(900));
    LadderStep(STANDARD, 3, Some(100), Some(900));
    LadderStep(STANDARD, 4, Some(100), Some(900));
    LadderStep(STANDARD, 5, Some(100), Some(900));
    LadderStep(STANDARD, 6, Some(100), Some(900));
    LadderStep(STANDARD, 7, Some(100), Some(900));
    LadderStep(STANDARD, 8, Some(100), Some(900));
    assert STANDARD[..9] == STANDARD;
  }

  /** `300..700` gives the five standard weights from 300 to 700 and no other. */
  lemma PartialRange()
    ensures Ladder(STANDARD, Some(300), Some(700)) == ["300", "400", "500", "600", "700"]
  {
    PartialLadder();
    Hundreds();
  }

  lemma PartialLadder()
    ensures Ladder(STANDARD, Some(300), Some(700))
         == [NatStr(300), NatStr(400), NatStr(500), NatStr(600), NatStr(700)]
  {
    assert STANDARD[..0] == [];
    LadderStep(STANDARD, 0, Some(300), Some(700));
    LadderStep(STANDARD, 1, Some(300), Some(700));
    LadderStep(STANDARD, 2, Some(300), Some(700));
    LadderStep(STANDARD, 3, Some(300), Some(700));
    LadderStep(STANDARD, 4, Some(300), Some(700));
    LadderStep(STANDARD, 5, Some(300), Some(700));
    LadderStep(STANDARD, 6, Some(300), Some(700));
    LadderStep(STANDARD, 7, Some(300), Some(700));
    LadderStep(STANDARD, 8, Some(300), Some(700));
    assert STANDARD[..9] == STANDARD;
  }
}
