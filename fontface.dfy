/** A JavaScript `Set` read back in insertion order (`Array.from(set)`), as a sequence. */
module OrderedSets {
  predicate NoDup<T(==)>(xs: seq<T>) {
    forall i, j :: 0 <= i < j < |xs| ==> xs[i] != xs[j]
  }

  /** `set.add(x)`: appended when new, otherwise the set is unchanged and keeps its order. */
  function Add<T(==)>(xs: seq<T>, x: T): (r: seq<T>)
    ensures x in r
    ensures r == (if x in xs then xs else xs + [x])
    ensures NoDup(xs) ==> NoDup(r)
  {
    if x in xs then xs else xs + [x]
  }

  lemma AddOne<T>(xs: seq<T>, a: T)
    ensures AddAll(xs, [a]) == Add(xs, a)
  {
    assert [a][1..] == [];
  }

  lemma AddTwo<T>(xs: seq<T>, a: T, b: T)
    ensures AddAll(xs, [a, b]) == Add(Add(xs, a), b)
  {
    assert [a, b][1..] == [b];
    AddOne(Add(xs, a), b);
  }

  /** `add` of each of `ys` in turn. */
  function AddAll<T(==)>(xs: seq<T>, ys: seq<T>): (r: seq<T>)
    ensures forall i :: 0 <= i < |xs| ==> xs[i] in r
    ensures forall i :: 0 <= i < |ys| ==> ys[i] in r
    ensures forall i :: 0 <= i < |r| ==> r[i] in xs || r[i] in ys
    ensures NoDup(xs) ==> NoDup(r)
    decreases |ys|
  {
    if ys == [] then xs else AddAll(Add(xs, ys[0]), ys[1..])
  }

  /** Adding `a` and then `b` is adding `a + b`. */
  lemma {:induction false} AddAllAppend<T>(xs: seq<T>, a: seq<T>, b: seq<T>)
    ensures AddAll(xs, a + b) == AddAll(AddAll(xs, a), b)
    decreases |a|
  {
    if a == [] {
      assert a + b == b;
    } else {
      assert (a + b)[0] == a[0] && (a + b)[1..] == a[1..] + b;
      AddAllAppend(Add(xs, a[0]), a[1..], b);
    }
  }

  /** A set filled by `add`ing each of `xs` in turn: every element once, nothing else. */
  function Collect<T(==)>(xs: seq<T>): (r: seq<T>)
    ensures NoDup(r)
    ensures forall i :: 0 <= i < |xs| ==> xs[i] in r
    ensures forall k :: 0 <= k < |r| ==> r[k] in xs
    decreases |xs|
  {
    if xs == [] then [] else Add(Collect(xs[..|xs| - 1]), xs[|xs| - 1])
  }

  /** A set filled by `add`ing each element of each of `xss` in turn. */
  function CollectAll<T(==)>(xss: seq<seq<T>>): (r: seq<T>)
    ensures NoDup(r)
    ensures forall i, k :: 0 <= i < |xss| && 0 <= k < |xss[i]| ==> xss[i][k] in r
    ensures forall k :: 0 <= k < |r| ==> exists i :: 0 <= i < |xss| && r[k] in xss[i]
    decreases |xss|
  {
    if xss == [] then []
    else
      var prev := xss[..|xss| - 1];
      var r := AddAll(CollectAll(prev), xss[|xss| - 1]);
      assert forall i :: 0 <= i < |prev| ==> prev[i] == xss[i];
      r
  }

  /** A sequence that agrees with `b` and then ends in `c` is `b + [c]`. */
  lemma SnocEq<T>(a: seq<T>, b: seq<T>, c: T)
    requires |a| == |b| + 1 && a[|b|] == c
    requires forall k :: 0 <= k < |b| ==> a[k] == b[k]
    ensures a == b + [c]
  {
  }

  /** The members of `CollectAll(xss)` are the members of the lists of `xss`, each once. */
  lemma CollectAllIn<T>(xss: seq<seq<T>>)
    ensures NoDup(CollectAll(xss))
    ensures forall x :: x in CollectAll(xss) <==> exists j :: 0 <= j < |xss| && x in xss[j]
  {
    var r := CollectAll(xss);
    forall x | x in r ensures exists j :: 0 <= j < |xss| && x in xss[j] {
      var k :| 0 <= k < |r| && r[k] == x;
    }
    forall x, j | 0 <= j < |xss| && x in xss[j] ensures x in r {
      var k :| 0 <= k < |xss[j]| && xss[j][k] == x;
    }
  }

  /** The lists of `xss` laid end to end. */
  function Flatten<T>(xss: seq<seq<T>>): seq<T>
    decreases |xss|
  {
    if xss == [] then [] else Flatten(xss[..|xss| - 1]) + xss[|xss| - 1]
  }

  lemma {:induction false} FlattenIn<T>(xss: seq<seq<T>>)
    ensures forall x :: x in Flatten(xss) <==> exists j :: 0 <= j < |xss| && x in xss[j]
    decreases |xss|
  {
    if xss != [] {
      var init := xss[..|xss| - 1];
      FlattenIn(init);
      assert forall j :: 0 <= j < |init| ==> init[j] == xss[j];
    }
  }

  lemma FlattenSnoc<T>(xss: seq<seq<T>>, ys: seq<T>)
    ensures Flatten(xss + [ys]) == Flatten(xss) + ys
  {
    assert (xss + [ys])[..|xss|] == xss;
  }

  /** One more list of adds after the others. */
  lemma CollectAllSnoc<T>(xss: seq<seq<T>>, ys: seq<T>)
    ensures CollectAll(xss + [ys]) == AddAll(CollectAll(xss), ys)
  {
    assert (xss + [ys])[..|xss|] == xss;
  }
}

/**
 * What every version of the handler shares: the query and registry it reads, the
 * `@font-face` record it emits and how that record is rendered, the registry lookup,
 * the style-major cross product and the shape of a response.
 */
module FontFace {
  import opened Wrappers
  import opened Strings

  datatype Style = Normal | Italic

  function StyleName(s: Style): string {
    match s
    case Normal => "normal"
    case Italic => "italic"
  }

  /** A registry entry: a family id and, when present, its ordered subset names. */
  datatype Entry = Entry(id: string, subsets: Option<seq<string>>)

  /** The read-only inputs besides the query: the registry, the CDN domain and the subset catalog. */
  datatype Env = Env(data: seq<Entry>, domain: string, catalog: map<string, string>)

  /** The `family` query parameter: missing, given once, or repeated. */
  datatype Param = Absent | One(value: string) | Many(values: seq<string>)

  datatype Query = Query(family: Param, display: Option<string>, text: Option<string>)

  /** JavaScript truthiness of an optional string parameter. */
  predicate Truthy(o: Option<string>) {
    o.Some? && o.value != ""
  }

  /** `if (!families)` fails exactly for a missing or empty `family`. */
  predicate Given(p: Param) {
    (p.One? && p.value != "") || p.Many?
  }

  /** `Array.isArray(families) ? families : [families]`. */
  function FamilyList(p: Param): seq<string> {
    match p
    case Absent => []
    case One(s) => [s]
    case Many(l) => l
  }

  /** Why a request ends in status 500: the handler's own "Wrong request", or a JavaScript exception. */
  datatype Fault = WrongRequest | RuntimeError

  datatype Response =
    | Css(body: string)          // 200, content type text/css
    | HtmlNotice                 // 200, content type text/html, body NOT_AVAILABLE
    | ServerError(fault: Fault)  // status 500
    | StringError(message: string) // a thrown string, content type text/html

  const NOT_AVAILABLE: string :=
    "This font is not available. <br>If you think this is a bug, <a href=\"https://docs.coollabs.io/contact\">let us know</a>."

  const CONTACT: string :=
    "Wrong request. Please <a href=\"https://docs.coollabs.io/contact\">contact us</a> if you think this is a bug."

  /** `data.find((f) => f.id === id)`: the first entry with that id. */
  function Find(data: seq<Entry>, id: string): (r: Option<Entry>)
    ensures r.None? <==> forall k :: 0 <= k < |data| ==> data[k].id != id
    ensures r.Some? ==> exists k :: 0 <= k < |data| && data[k] == r.value && r.value.id == id
                          && forall j :: 0 <= j < k ==> data[j].id != id
    decreases |data|
  {
    if data == [] then None
    else if data[0].id == id then Some(data[0])
    else
      var r := Find(data[1..], id);
      assert forall k :: 1 <= k < |data| ==> data[k] == data[1..][k - 1];
      r
  }

  /** `properties?.subsets` is truthy: the id is registered and the entry lists subsets. */
  predicate Listed(p: Option<Entry>) {
    p.Some? && p.value.subsets.Some?
  }

  function SubsetsOf(p: Option<Entry>): seq<string> {
    if Listed(p) then p.value.subsets.value else []
  }

  /** `subsets[subset]` in a template literal: a missing catalog entry prints as "undefined". */
  function UnicodeRange(catalog: map<string, string>, subset: string): string {
    if subset in catalog then catalog[subset] else "undefined"
  }

  /** `https://{domain}/{id}/{style}/{weight}.woff2`. */
  function FontUrl(domain: string, id: string, style: Style, weight: string): string {
    "https://" + domain + "/" + id + "/" + StyleName(style) + "/" + weight + ".woff2"
  }

  /** The one legacy id remapped before lookup. */
  function Alias(id: string): (r: string)
    ensures r == "source-sans-3" <==> id == "source-sans-pro" || id == "source-sans-3"
    ensures id != "source-sans-pro" ==> r == id
  {
    if id == "source-sans-pro" then "source-sans-3" else id
  }

  /** In `axes@values`, only the axes `wght` give the `wght@` shorthand form. */
  lemma NotShorthand(axes: string, values: string)
    requires '@' !in axes && axes != "wght"
    ensures !("wght@" <= axes + "@" + values)
  {
    PrefixBefore(axes, '@', values, "wght");
    assert "wght" + ['@'] == "wght@";
  }

  /** `if (display) css += "font-display: swap;"`. */
  function SwapDisplay(display: Option<string>): Option<string> {
    if Truthy(display) then Some("swap") else None
  }

  /** One `@font-face` block before rendering; `display` is the value written, if any. */
  datatype Rule = Rule(subset: string, family: string, style: Style, weight: string,
                       display: Option<string>, url: string, range: string)

  /** What a family's blocks share: its displayed name, its id, display, URL query, domain, catalog. */
  datatype FaceCtx = FaceCtx(family: string, id: string, display: Option<string>, query: string,
                             domain: string, catalog: map<string, string>)

  function Face(c: FaceCtx, style: Style, weight: string, subset: string): Rule {
    Rule(subset, c.family, style, weight, c.display,
         FontUrl(c.domain, c.id, style, weight) + c.query, UnicodeRange(c.catalog, subset))
  }

  function Faces(c: FaceCtx, ts: seq<(Style, string, string)>): (rs: seq<Rule>)
    ensures |rs| == |ts|
  {
    seq(|ts|, i requires 0 <= i < |ts| => Face(c, ts[i].0, ts[i].1, ts[i].2))
  }

  /** Every rule built from a context carries its family, display and URL and range scheme. */
  lemma FacesShare(c: FaceCtx, ts: seq<(Style, string, string)>)
    ensures forall x :: x in Faces(c, ts) ==>
      x.family == c.family && x.display == c.display
      && x.url == FontUrl(c.domain, c.id, x.style, x.weight) + c.query
      && x.range == UnicodeRange(c.catalog, x.subset)
  {
  }

  lemma FaceOf(c: FaceCtx, ts: seq<(Style, string, string)>, i: nat, t: (Style, string, string))
    requires i < |ts| && ts[i] == t
    ensures i < |Faces(c, ts)| && Faces(c, ts)[i] == Face(c, t.0, t.1, t.2)
  {
  }

  lemma FacesSnoc(c: FaceCtx, ts: seq<(Style, string, string)>, t: (Style, string, string))
    ensures Faces(c, ts + [t]) == Faces(c, ts) + [Face(c, t.0, t.1, t.2)]
  {
  }

  /** The indentation of a block: before the comment and braces, and before each property. */
  datatype Layout = Layout(outer: string, inner: string)

  /**
   * The template literal of `generateFontFace`: a newline and the outer indentation,
   * then the block proper, which opens with the subset comment and closes with `}`.
   */
  function Render(l: Layout, r: Rule): string {
    "\n" + l.outer + "/* " + Body(l, r) + "}"
  }

  /** Everything between the opening of the subset comment and the closing brace. */
  function Body(l: Layout, r: Rule): string {
    Concat(Pieces(l, r))
  }

  /** The block as pieces: each property on its own line, `font-display` only when set. */
  function Pieces(l: Layout, r: Rule): seq<string> {
    [r.subset, " */\n" + l.outer + "@font-face {\n" + l.inner,
     "font-family: '" + r.family + "';", "\n" + l.inner,
     "font-style: " + StyleName(r.style) + ";", "\n" + l.inner,
     "font-weight: " + r.weight + ";",
     (match r.display case None => "" case Some(_) => "\n" + l.inner),
     (match r.display case None => "" case Some(d) => "font-display: " + d + ";"),
     "\n" + l.inner,
     "src: url(" + r.url + ") format('woff2');", "\n" + l.inner,
     "unicode-range: " + r.range + ";", "\n" + l.outer]
  }

  /** Every piece of the block after the subset comment appears in the rendered block. */
  lemma PieceShown(l: Layout, r: Rule, i: nat)
    requires i < |Pieces(l, r)|
    ensures Contains(Render(l, r), Pieces(l, r)[i])
  {
    var w := "\n" + l.outer + "/* ";
    assert Render(l, r) == w + Body(l, r) + "}";
    ConcatContains(Pieces(l, r), i);
    ContainsIn(w, Body(l, r), "}", Pieces(l, r)[i]);
  }

  /** A rendered block opens with a newline, the outer indentation and its subset comment. */
  lemma RenderOpens(l: Layout, r: Rule)
    ensures ("\n" + l.outer + "/* " + r.subset + " */\n") <= Render(l, r)
  {
    var ps := Pieces(l, r);
    assert Concat(ps[1..]) == ps[1] + Concat(ps[1..][1..]);
    assert Body(l, r) == r.subset + (" */\n" + l.outer + "@font-face {\n" + l.inner + Concat(ps[1..][1..]));
  }

  /**
   * A rendered block carries the family, style and weight, a `font-display` line when
   * the rule has a display value, the `src` URL and the unicode-range.
   */
  lemma RenderShows(l: Layout, r: Rule)
    ensures Contains(Render(l, r), "font-family: '" + r.family + "';")
    ensures Contains(Render(l, r), "font-style: " + StyleName(r.style) + ";")
    ensures Contains(Render(l, r), "font-weight: " + r.weight + ";")
    ensures r.display.Some? ==> Contains(Render(l, r), "font-display: " + r.display.value + ";")
    ensures Contains(Render(l, r), "src: url(" + r.url + ") format('woff2');")
    ensures Contains(Render(l, r), "unicode-range: " + r.range + ";")
  {
    PieceShown(l, r, 2);
    PieceShown(l, r, 4);
    PieceShown(l, r, 6);
    PieceShown(l, r, 8);
    PieceShown(l, r, 10);
    PieceShown(l, r, 12);
  }

  function Renders(l: Layout, rs: seq<Rule>): (bs: seq<string>)
    ensures |bs| == |rs|
  {
    seq(|rs|, i requires 0 <= i < |rs| => Render(l, rs[i]))
  }

  lemma RendersSnoc(l: Layout, rs: seq<Rule>, r: Rule)
    ensures Renders(l, rs + [r]) == Renders(l, rs) + [Render(l, r)]
  {
  }

  lemma RendersAppend(l: Layout, a: seq<Rule>, b: seq<Rule>)
    ensures Renders(l, a + b) == Renders(l, a) + Renders(l, b)
  {
  }

  lemma FacesAppend(c: FaceCtx, a: seq<(Style, string, string)>, b: seq<(Style, string, string)>)
    ensures Faces(c, a + b) == Faces(c, a) + Faces(c, b)
  {
  }

  /** Pushing the blocks of `b` after those of `a`, behind any earlier items. */
  lemma RendersAfter(l: Layout, head: seq<string>, a: seq<Rule>, b: seq<Rule>)
    ensures head + Renders(l, a + b) == (head + Renders(l, a)) + Renders(l, b)
  {
    RendersAppend(l, a, b);
  }

  /** Pushing one more rendered block. */
  lemma PushOne(l: Layout, head: seq<string>, a: seq<Rule>, r: Rule)
    ensures head + Renders(l, a + [r]) == (head + Renders(l, a)) + [Render(l, r)]
  {
    RendersSnoc(l, a, r);
  }

  /** The blocks of `a + b`, pushed, are the blocks of `a` and then those of `b`. */
  lemma PushAppend(l: Layout, c: FaceCtx, base: seq<string>,
                   a: seq<(Style, string, string)>, b: seq<(Style, string, string)>)
    ensures base + Renders(l, Faces(c, a + b)) == base + Renders(l, Faces(c, a)) + Renders(l, Faces(c, b))
  {
    FacesAppend(c, a, b);
    RendersAppend(l, Faces(c, a), Faces(c, b));
  }

  /** The innermost `for (const subset of subsets)` loop, for one style and weight. */
  method PushSubsets(payload: seq<string>, l: Layout, c: FaceCtx, style: Style, weight: string,
                     subsets: seq<string>)
    returns (out: seq<string>)
    ensures out == payload + Renders(l, Faces(c, Singles(style, weight, subsets)))
  {
    out := payload;
    for k := 0 to |subsets|
      invariant out == payload + Renders(l, Faces(c, Singles(style, weight, subsets[..k])))
    {
      assert subsets[..k + 1][..k] == subsets[..k];
      PushAppend(l, c, payload, Singles(style, weight, subsets[..k]), [(style, weight, subsets[k])]);
      out := out + [Render(l, Face(c, style, weight, subsets[k]))];
    }
    assert subsets[..|subsets|] == subsets;
  }

  /** The `for (const weight of weights)` loop for one style. */
  method PushWeights(payload: seq<string>, l: Layout, c: FaceCtx, style: Style,
                     weights: seq<string>, subsets: seq<string>)
    returns (out: seq<string>)
    ensures out == payload + Renders(l, Faces(c, Pairs(style, weights, subsets)))
  {
    out := payload;
    for j := 0 to |weights|
      invariant out == payload + Renders(l, Faces(c, Pairs(style, weights[..j], subsets)))
    {
      assert weights[..j + 1][..j] == weights[..j];
      PushAppend(l, c, payload, Pairs(style, weights[..j], subsets), Singles(style, weights[j], subsets));
      out := PushSubsets(out, l, c, style, weights[j], subsets);
    }
    assert weights[..|weights|] == weights;
  }

  /**
   * The nested `for style / for weight / for subset` loops that push one rendered
   * block per combination onto `payload`, style-major.
   */
  method PushFaces(payload: seq<string>, l: Layout, c: FaceCtx,
                   styles: seq<Style>, weights: seq<string>, subsets: seq<string>)
    returns (out: seq<string>)
    ensures out == payload + Renders(l, Faces(c, Cross(styles, weights, subsets)))
  {
    out := payload;
    for i := 0 to |styles|
      invariant out == payload + Renders(l, Faces(c, Cross(styles[..i], weights, subsets)))
    {
      assert styles[..i + 1][..i] == styles[..i];
      PushAppend(l, c, payload, Cross(styles[..i], weights, subsets), Pairs(styles[i], weights, subsets));
      out := PushWeights(out, l, c, styles[i], weights, subsets);
    }
    assert styles[..|styles|] == styles;
  }

  // ---------------------------------------------------------------- a style carried across weights

  /**
   * In the older handlers a family's `style` lives outside the weight loop and the
   * loop variable `weight` is rewritten inside the subset loop, so each subset sees
   * the state the previous one left. `step` is one pass of that rewrite.
   */
  datatype Walk = Walk(rules: seq<Rule>, style: Style, weight: string)

  /** The subset loop for one weight: the rules written and the style and weight it leaves. */
  function SubsetWalk(c: FaceCtx, step: (Style, string) -> (Style, string),
                      style: Style, weight: string, subsets: seq<string>): (w: Walk)
    ensures |w.rules| == |subsets|
    decreases |subsets|
  {
    if subsets == [] then Walk([], style, weight)
    else
      var prev := SubsetWalk(c, step, style, weight, subsets[..|subsets| - 1]);
      var next := step(prev.style, prev.weight);
      Walk(prev.rules + [Face(c, next.0, next.1, subsets[|subsets| - 1])], next.0, next.1)
  }

  lemma SubsetWalkSnoc(c: FaceCtx, step: (Style, string) -> (Style, string),
                       style: Style, weight: string, subsets: seq<string>, k: nat)
    requires k < |subsets|
    ensures var prev := SubsetWalk(c, step, style, weight, subsets[..k]);
      var next := step(prev.style, prev.weight);
      SubsetWalk(c, step, style, weight, subsets[..k + 1])
      == Walk(prev.rules + [Face(c, next.0, next.1, subsets[k])], next.0, next.1)
  {
    assert subsets[..k + 1][..k] == subsets[..k];
  }

  /** The rules of one family's weight loop and the style it leaves. */
  datatype Run = Run(rules: seq<Rule>, style: Style)

  /** The weight loop: each weight restarts the rewrite from itself, never the style. */
  function WeightWalk(c: FaceCtx, step: (Style, string) -> (Style, string),
                      style: Style, weights: seq<string>, subsets: seq<string>): (r: Run)
    ensures |r.rules| == |weights| * |subsets|
    decreases |weights|
  {
    if weights == [] then Run([], style)
    else
      var n := |weights| - 1;
      var prev := WeightWalk(c, step, style, weights[..n], subsets);
      var walk := SubsetWalk(c, step, prev.style, weights[n], subsets);
      assert |prev.rules + walk.rules| == n * |subsets| + |subsets| == |weights| * |subsets|;
      Run(prev.rules + walk.rules, walk.style)
  }

  /** Block k of a weight's subset loop is for subset k and carries the family's shared parts. */
  lemma {:induction false} SubsetWalkShare(c: FaceCtx, step: (Style, string) -> (Style, string),
                                           style: Style, weight: string, subsets: seq<string>)
    ensures var rs := SubsetWalk(c, step, style, weight, subsets).rules;
      forall k :: 0 <= k < |subsets| ==>
        rs[k].subset == subsets[k] && rs[k].family == c.family && rs[k].display == c.display
        && rs[k].url == FontUrl(c.domain, c.id, rs[k].style, rs[k].weight) + c.query
        && rs[k].range == UnicodeRange(c.catalog, subsets[k])
    decreases |subsets|
  {
    if subsets != [] {
      var n := |subsets| - 1;
      var prev := SubsetWalk(c, step, style, weight, subsets[..n]);
      var next := step(prev.style, prev.weight);
      var rs := SubsetWalk(c, step, style, weight, subsets).rules;
      assert rs == prev.rules + [Face(c, next.0, next.1, subsets[n])];
      SubsetWalkShare(c, step, style, weight, subsets[..n]);
      forall k | 0 <= k < |subsets|
        ensures rs[k].subset == subsets[k] && rs[k].family == c.family && rs[k].display == c.display
          && rs[k].url == FontUrl(c.domain, c.id, rs[k].style, rs[k].weight) + c.query
          && rs[k].range == UnicodeRange(c.catalog, subsets[k])
      {
        if k < n {
          assert rs[k] == prev.rules[k] && subsets[..n][k] == subsets[k];
        }
      }
    }
  }

  /** Every block of a family's weight loop carries its name, display, URL scheme and range. */
  lemma {:induction false} WeightWalkShare(c: FaceCtx, step: (Style, string) -> (Style, string),
                                           style: Style, weights: seq<string>, subsets: seq<string>)
    ensures forall x :: x in WeightWalk(c, step, style, weights, subsets).rules ==>
      x.family == c.family && x.display == c.display
      && x.url == FontUrl(c.domain, c.id, x.style, x.weight) + c.query
      && x.range == UnicodeRange(c.catalog, x.subset)
    decreases |weights|
  {
    if weights != [] {
      var n := |weights| - 1;
      var prev := WeightWalk(c, step, style, weights[..n], subsets);
      var walk := SubsetWalk(c, step, prev.style, weights[n], subsets);
      assert WeightWalk(c, step, style, weights, subsets) == Run(prev.rules + walk.rules, walk.style);
      WeightWalkShare(c, step, style, weights[..n], subsets);
      SubsetWalkShare(c, step, prev.style, weights[n], subsets);
    }
  }

  /**
   * Block `idx = j * |subsets| + k` of a family is block k of weight j's subset loop,
   * started from the style the earlier weights left.
   */
  lemma {:induction false} WeightWalkAt(c: FaceCtx, step: (Style, string) -> (Style, string),
                                        style: Style, weights: seq<string>, subsets: seq<string>,
                                        j: nat, k: nat, idx: nat)
    requires j < |weights| && k < |subsets| && idx == j * |subsets| + k
    ensures idx < |WeightWalk(c, step, style, weights, subsets).rules|
    ensures WeightWalk(c, step, style, weights, subsets).rules[idx]
         == SubsetWalk(c, step, WeightWalk(c, step, style, weights[..j], subsets).style, weights[j], subsets).rules[k]
    decreases |weights|
  {
    var n := |weights| - 1;
    var prev := WeightWalk(c, step, style, weights[..n], subsets);
    var walk := SubsetWalk(c, step, prev.style, weights[n], subsets);
    var rs := prev.rules + walk.rules;
    assert WeightWalk(c, step, style, weights, subsets) == Run(rs, walk.style);
    if j < n {
      RowBound(j, k, n, |subsets|);
      WeightWalkAt(c, step, style, weights[..n], subsets, j, k, idx);
      assert rs[idx] == prev.rules[idx];
      assert weights[..n][..j] == weights[..j] && weights[..n][j] == weights[j];
    } else {
      RowBound(j, k, |weights|, |subsets|);
      assert rs[idx] == walk.rules[k];
      assert weights[..j] == weights[..n];
    }
  }

  /**
   * A weight whose first rewrite is a fixed point of the rewrite writes the same style
   * and weight for every subset; otherwise later subsets see a different weight.
   */
  lemma {:induction false} SubsetWalkSettled(c: FaceCtx, step: (Style, string) -> (Style, string),
                                             style: Style, weight: string, subsets: seq<string>)
    requires subsets != []
    requires step(step(style, weight).0, step(style, weight).1) == step(style, weight)
    ensures var w := SubsetWalk(c, step, style, weight, subsets); var s := step(style, weight);
      w.style == s.0 && w.weight == s.1
      && forall k :: 0 <= k < |subsets| ==> w.rules[k].style == s.0 && w.rules[k].weight == s.1
    decreases |subsets|
  {
    var n := |subsets| - 1;
    var s := step(style, weight);
    var prev := SubsetWalk(c, step, style, weight, subsets[..n]);
    var next := step(prev.style, prev.weight);
    var rs := prev.rules + [Face(c, next.0, next.1, subsets[n])];
    assert SubsetWalk(c, step, style, weight, subsets) == Walk(rs, next.0, next.1);
    if n > 0 {
      SubsetWalkSettled(c, step, style, weight, subsets[..n]);
      assert next == s;
      forall k | 0 <= k < n
        ensures rs[k].style == s.0 && rs[k].weight == s.1
      {
        assert rs[k] == prev.rules[k];
      }
    } else {
      assert subsets[..n] == [];
    }
  }

  /** `payload.join(" ").trim()`. */
  function Assemble(payload: seq<string>): string {
    Trim(Join(payload, " "))
  }

  predicate AllSpace(w: string) {
    forall i :: 0 <= i < |w| ==> IsJsSpace(w[i])
  }

  lemma {:induction false} JoinEnds(parts: seq<string>, sep: string, c: char, d: char)
    requires |parts| >= 1
    requires forall i :: 0 <= i < |parts| ==> parts[i] != [] && parts[i][|parts[i]| - 1] == d
    requires parts[0][0] == c
    ensures Join(parts, sep) != [] && Join(parts, sep)[0] == c
    ensures Join(parts, sep)[|Join(parts, sep)| - 1] == d
    decreases |parts|
  {
    if |parts| > 1 {
      if parts[1..][0] != [] {
        JoinEnds(parts[1..], sep, parts[1..][0][0], d);
      }
    }
  }

  /**
   * Trimming the joined blocks removes only the newline and indentation that open
   * the first block: every block ends with `}`, so nothing is lost at the end.
   */
  lemma AssembleRendered(l: Layout, rs: seq<Rule>)
    requires rs != [] && AllSpace(l.outer)
    ensures Join(Renders(l, rs), " ") == "\n" + l.outer + Assemble(Renders(l, rs))
  {
    var bs := Renders(l, rs);
    var w := "\n" + l.outer;
    assert AllSpace(w) by {
      forall i | 0 <= i < |w| ensures IsJsSpace(w[i]) {
        if i > 0 { assert w[i] == l.outer[i - 1]; }
      }
    }
    forall i | 0 <= i < |bs|
      ensures bs[i] != [] && bs[i][|bs[i]| - 1] == '}'
    {
      RenderEnds(l, rs[i]);
    }
    RenderEnds(l, rs[0]);
    AssembleTrimmed(bs, w);
  }

  /** No blocks assemble to the empty body. */
  lemma AssembleNone(l: Layout)
    ensures Assemble(Renders(l, [])) == ""
  {
    assert Renders(l, []) == [];
    assert Join([], " ") == "";
  }

  /** The body sent for blocks `rs`, preceded by what trimming removed, is the joined blocks. */
  lemma BodyOpens(l: Layout, rs: seq<Rule>, body: string)
    requires rs != [] && AllSpace(l.outer) && body == Assemble(Renders(l, rs))
    ensures Join(Renders(l, rs), " ") == "\n" + l.outer + body
  {
    AssembleRendered(l, rs);
  }

  /** Blocks that all end in `}` and whose first opens with white space `w` lose exactly `w`. */
  lemma AssembleTrimmed(bs: seq<string>, w: string)
    requires |bs| >= 1 && AllSpace(w)
    requires |bs[0]| > |w| && bs[0][..|w|] == w && bs[0][|w|] == '/'
    requires forall i :: 0 <= i < |bs| ==> bs[i] != [] && bs[i][|bs[i]| - 1] == '}'
    ensures Join(bs, " ") == w + Assemble(bs)
  {
    JoinEnds(bs, " ", bs[0][0], '}');
    var joined := Join(bs, " ");
    JoinPrefix(bs, " ");
    PrefixSplit(joined, bs[0], w);
    var rest := joined[|w|..];
    assert rest[|rest| - 1] == '}';
    TrimStartSpaces(w, rest);
  }

  lemma RenderEnds(l: Layout, r: Rule)
    ensures Render(l, r)[..1 + |l.outer|] == "\n" + l.outer
    ensures |Render(l, r)| > 1 + |l.outer| && Render(l, r)[1 + |l.outer|] == '/'
    ensures Render(l, r)[|Render(l, r)| - 1] == '}'
  {
    var w := "\n" + l.outer;
    var b := "/* " + Body(l, r) + "}";
    assert Render(l, r) == w + b;
    assert (w + b)[..|w|] == w;
    assert (w + b)[|w|] == b[0];
  }

  /** A string whose prefix `p` starts with `w` followed by a non-space is `w` and a non-space. */
  lemma PrefixSplit(s: string, p: string, w: string)
    requires p <= s && |p| > |w| && p[..|w|] == w && p[|w|] == '/'
    ensures s == w + s[|w|..] && s[|w|..][0] == '/'
  {
    assert s[..|w|] == p[..|w|];
    assert s == s[..|w|] + s[|w|..];
  }

  lemma JoinPrefix(parts: seq<string>, sep: string)
    requires |parts| >= 1
    ensures parts[0] <= Join(parts, sep)
  {
  }

  /** The blocks of one subset list for a fixed style and weight. */
  function Singles<S, W, B>(s: S, w: W, bs: seq<B>): (r: seq<(S, W, B)>)
    ensures |r| == |bs|
    ensures forall k :: 0 <= k < |bs| ==> r[k] == (s, w, bs[k])
    decreases |bs|
  {
    if bs == [] then [] else Singles(s, w, bs[..|bs| - 1]) + [(s, w, bs[|bs| - 1])]
  }

  /** For a fixed style: every weight, then every subset. */
  function Pairs<S, W, B>(s: S, ws: seq<W>, bs: seq<B>): (r: seq<(S, W, B)>)
    ensures |r| == |ws| * |bs|
    decreases |ws|
  {
    if ws == [] then []
    else
      assert (|ws| - 1) * |bs| + |bs| == |ws| * |bs|;
      Pairs(s, ws[..|ws| - 1], bs) + Singles(s, ws[|ws| - 1], bs)
  }

  /** The nested `for style / for weight / for subset` loops: style-major order. */
  function Cross<S, W, B>(ss: seq<S>, ws: seq<W>, bs: seq<B>): (r: seq<(S, W, B)>)
    ensures |r| == |ss| * (|ws| * |bs|)
    decreases |ss|
  {
    if ss == [] then []
    else
      assert (|ss| - 1) * (|ws| * |bs|) + |ws| * |bs| == |ss| * (|ws| * |bs|);
      Cross(ss[..|ss| - 1], ws, bs) + Pairs(ss[|ss| - 1], ws, bs)
  }

  lemma {:induction false} MulMono(a: nat, c: nat, b: nat)
    requires a <= c
    ensures a * b <= c * b
    decreases b
  {
    if b > 0 {
      MulMono(a, c, b - 1);
      assert a * b == a * (b - 1) + a;
      assert c * b == c * (b - 1) + c;
    }
  }

  lemma MulZero(a: nat, b: nat)
    ensures a * b == 0 <==> a == 0 || b == 0
  {
    if a > 0 && b > 0 {
      MulMono(1, a, b);
    }
  }

  lemma RowBound(j: nat, k: nat, n: nat, b: nat)
    requires j < n && k < b
    ensures j * b + k < n * b
  {
    MulMono(j + 1, n, b);
    assert (j + 1) * b == j * b + b;
  }

  lemma {:induction false} PairsAt<S, W, B>(s: S, ws: seq<W>, bs: seq<B>, j: nat, k: nat)
    requires j < |ws| && k < |bs|
    ensures j * |bs| + k < |Pairs(s, ws, bs)|
    ensures Pairs(s, ws, bs)[j * |bs| + k] == (s, ws[j], bs[k])
    decreases |ws|
  {
    var n, b := |ws|, |bs|;
    var prev := ws[..n - 1];
    RowBound(j, k, n, b);
    var idx := j * b + k;
    if j < n - 1 {
      RowBound(j, k, n - 1, b);
      PairsAt(s, prev, bs, j, k);
      assert prev[j] == ws[j];
    } else {
      assert idx - (n - 1) * b == k;
    }
  }

  /** Row `i` of the cross product is the block of style `ss[i]`. */
  lemma {:induction false} CrossRow<S, W, B>(ss: seq<S>, ws: seq<W>, bs: seq<B>, i: nat, r: nat)
    requires i < |ss| && r < |ws| * |bs|
    ensures i * (|ws| * |bs|) + r < |Cross(ss, ws, bs)|
    ensures Cross(ss, ws, bs)[i * (|ws| * |bs|) + r] == Pairs(ss[i], ws, bs)[r]
    decreases |ss|
  {
    var n, m := |ss|, |ws| * |bs|;
    var prev := ss[..n - 1];
    RowBound(i, r, n, m);
    if i < n - 1 {
      RowBound(i, r, n - 1, m);
      CrossRow(prev, ws, bs, i, r);
      assert prev[i] == ss[i];
    } else {
      assert i * m == (n - 1) * m;
    }
  }

  /** Entry `idx = i * (|ws| * |bs|) + j * |bs| + k` of the cross product is (style i, weight j, subset k). */
  lemma {:induction false} CrossAt<S, W, B>(ss: seq<S>, ws: seq<W>, bs: seq<B>, i: nat, j: nat, k: nat, idx: nat)
    requires i < |ss| && j < |ws| && k < |bs|
    requires idx == i * (|ws| * |bs|) + j * |bs| + k
    ensures idx < |Cross(ss, ws, bs)|
    ensures Cross(ss, ws, bs)[idx] == (ss[i], ws[j], bs[k])
  {
    var r := j * |bs| + k;
    PairsAt(ss[i], ws, bs, j, k);
    CrossRow(ss, ws, bs, i, r);
  }

  /** The outcome of every family token, in order; `f` is a version's per-family handler. */
  function Each<X, Y>(f: (string, X, Y) -> Option<seq<Rule>>, families: seq<string>, x: X, y: Y): (os: seq<Option<seq<Rule>>>)
    ensures |os| == |families|
    ensures forall i :: 0 <= i < |families| ==> os[i] == f(families[i], x, y)
  {
    seq(|families|, i requires 0 <= i < |families| => f(families[i], x, y))
  }

  lemma EachSnoc<X, Y>(f: (string, X, Y) -> Option<seq<Rule>>, families: seq<string>, n: nat, x: X, y: Y)
    requires n < |families|
    ensures Each(f, families[..n + 1], x, y) == Each(f, families[..n], x, y) + [f(families[n], x, y)]
  {
    assert families[..n + 1][..n] == families[..n];
  }

  /** Each per-family outcome in turn; a `None` (notice or exception) stops the request. */
  function Gather(os: seq<Option<seq<Rule>>>): (r: Option<seq<Rule>>)
    ensures r.None? <==> exists i :: 0 <= i < |os| && os[i].None?
    ensures r.Some? ==> (r.value == [] <==> forall i :: 0 <= i < |os| ==> os[i].value == [])
    decreases |os|
  {
    if os == [] then Some([])
    else
      var prev := Gather(os[..|os| - 1]);
      assert forall i :: 0 <= i < |os| - 1 ==> os[..|os| - 1][i] == os[i];
      match prev
      case None => None
      case Some(rs) =>
        match os[|os| - 1]
        case None => None
        case Some(more) => Some(rs + more)
  }

  /** Nothing is gathered exactly when every outcome succeeds with no rules. */
  lemma GatherNone(os: seq<Option<seq<Rule>>>)
    ensures Gather(os) == Some([]) <==> forall i :: 0 <= i < |os| ==> os[i] == Some([])
  {
  }

  /** The rules gathered are exactly the rules of the outcomes. */
  lemma {:induction false} GatherMembers(os: seq<Option<seq<Rule>>>)
    requires Gather(os).Some?
    ensures forall x :: x in Gather(os).value <==> exists i :: 0 <= i < |os| && x in os[i].value
    decreases |os|
  {
    if os != [] {
      var prev := os[..|os| - 1];
      GatherMembers(prev);
      assert forall i :: 0 <= i < |prev| ==> prev[i] == os[i];
    }
  }

  /** The rules of a run of successful outcomes, in order. */
  lemma {:induction false} GatherAppend(os: seq<Option<seq<Rule>>>, rs: seq<Rule>, more: seq<Rule>)
    requires Gather(os) == Some(rs)
    ensures Gather(os + [Some(more)]) == Some(rs + more)
  {
    assert (os + [Some(more)])[..|os|] == os;
  }
}
