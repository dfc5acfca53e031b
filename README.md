# Font CSS engine: a verified model

This project is a Dafny model of the part of a self-hosted web-font CSS service that decides what CSS is served. The service exposes `/css2` and `/css` routes that turn a family query into `@font-face` blocks. Example queries are `Roboto:wght@700`, `Roboto:ital,wght@0,400;1,700`, `Roboto:wght@100..900` and, in the v1 grammar, `Roboto:400,700i|Lato:b`.

Each block has five parts:
- a subset comment;
- the family name;
- a style and a weight;
- an optional `font-display`;
- a `src` URL `https://{domain}/{id}/{style}/{weight}.woff2` and the subset's `unicode-range`.

The repository carries five versions of this handler, and each behaves differently. Each version is its own module:

| module | file | version |
|---|---|---|
| `Css2` | `css2.mjs` | the live `/css2` handler |
| `Css2Next` | `deprecated/css2-next.mjs` | range expansion over the nine standard weights, named-axis matching, weights sorted by `parseInt`, the `text` hint, verbatim `display` |
| `Css1` | `css.mjs` | the v1 `/css` grammar with the `i`/`b`/`bold` shorthands and a style that stays italic |
| `Css2Old` | `css2-old.mjs` | the earlier `/css2` with a substring trigger for axis parsing and bare `0`/`1` |
| `Css2Ts` | `index.ts`, `/css2` route only | an early `/css2`: no alias, no notice, no empty-payload check |

Shared modules:
- `Strings`: JavaScript's string built-ins over `seq<char>`:
  - `split`, `join`, `includes`, `indexOf`, `replace` (first occurrence);
  - `trim` with JavaScript's whitespace set;
  - `toLowerCase().replace(/ /g, "-")`, over ASCII letters only;
  - `Number` and `parseInt` over ASCII digit strings.
- `OrderedSets`: a JavaScript `Set` as a duplicate-free sequence in insertion order. `Add` is `Set.add`.
- `FontFace`: the rest of the common model:
  - the inputs `Query`, `Env` and `Entry`;
  - the outcome `Response`;
  - a `Rule` record per block and its rendering;
  - the cross product of the `for style / for weight / for subset` loops;
  - the `SubsetWalk`/`WeightWalk` variants of those loops. They carry a mutable `style` and `weight`, which is how `css.mjs`, `css2-old.mjs` and `index.ts` work; only `step`, the per-block rewrite, differs between the three;
  - `Gather`, which combines the families' outcomes.
- `StableSort`: `Array.prototype.sort` with a comparator on integer keys, as a stable insertion sort on an `array`.

A request is modelled as `Query(family, display, text)`. `family` is `Absent`, `One(s)` or `Many(list)`, and the other two are optional strings. The registry, the CDN domain and the subset→unicode-range catalog form `Env`. The handler's outcome is one of these values:
- `Css(body)`: status 200, `text/css`;
- `HtmlNotice`: the fixed "This font is not available" page;
- `ServerError(WrongRequest)`: a 500 carrying the handler's own "Wrong request" message;
- `ServerError(RuntimeError)`: a 500 caused by a JavaScript exception;
- `StringError(CONTACT)`: a thrown string, sent as `text/html`.

In every module, each handler loop and each `parseFamily` loop is a `method` proved equal to a function:
- `Handle` equals `Reply`;
- `ParseFamily` equals `Parse`;
- `ReadGroups` equals `Groups`;
- `PushFamilies` equals `Payload`.

The lemmas then state the promised properties about those functions:
- rule counts;
- rule order;
- range contents;
- deduplication;
- each outcome of the handler, in both directions.

How the versions differ:
- **Ranges.** For `start..end`, `css2.mjs` adds only `Number(start)` and `Number(end)`. Only `deprecated/css2-next.mjs` expands a range, to the standard weights 100…900 between the two ends.
- **Order.** `css2.mjs` emits weights in set insertion order. `css2-next.mjs` sorts the weights by `parseInt` and keeps styles in insertion order.
- **Missing axes.** In `css2.mjs` and `css2-next.mjs`, an `axes@values` query without `ital` or without `wght` produces no rule for that family. No default variant is substituted.
- **`font-display`.** Only `css2-next.mjs` writes `display` verbatim. All other versions write `swap` whenever `display` is truthy.
- **Unknown families.** `css2.mjs` and `css2-next.mjs` answer with the HTML notice. The other versions differ:
  - `css.mjs` answers with a 500;
  - `index.ts` answers with a 500;
  - `css2-old.mjs` gives the notice only when the family's weight list is non-empty.

## Model

| member | source | states |
|---|---|---|
| Strings.IndexFrom | css.mjs:48 | `indexOf` from position k: a result is an occurrence at or after k with none between k and it; no result means no occurrence at or after k |
| Strings.Split | css2.mjs:61-64 | `split` yields at least one piece, at least two exactly when the separator occurs, and joining the pieces with the separator gives back the input |
| Strings.SplitFirst | css2.mjs:61 | when the head has no separator character, splitting `head + sep + rest` gives the head followed by the pieces of the rest |
| Strings.SplitNone | css2.mjs:63 | a string without the separator splits into itself alone |
| Strings.SplitJoin | css2.mjs:72-73 | split undoes join when no piece contains the one-character separator |
| Strings.ReplaceFirst | css.mjs:48 | `replace` with a string pattern leaves a string without the pattern unchanged, and otherwise changes the length by exactly `|rep| - |pat|` |
| Strings.ReplaceFirstAt | css.mjs:48 | `replace` rewrites exactly the first occurrence: `a + pat + b` becomes `a + rep + b` when `a` cannot hold the pattern |
| Strings.NonEmpty | css2-old.mjs:19 | `filter((n) => n)` keeps exactly the non-empty pieces |
| Strings.DashIdNormal | css2.mjs:60 | the family id has no space and no upper-case ASCII letter, has the token's length, and is a fixed point of the id function |
| Strings.DashIdConcat | css2-old.mjs:20 | lower-casing and hyphenating distributes over concatenation, so the id's part before `:` is the id of the name |
| Strings.DashIdKeeps | css2-old.mjs:13 | characters other than letters, space and hyphen, such as `:`, survive into the id unchanged |
| Strings.TrimStartSpaces | css2.mjs:46 | `trim` drops a leading whitespace run and keeps a text that begins and ends with non-whitespace |
| Strings.TrimPrefix | css2.mjs:46 | a prefix that begins and ends with non-whitespace stays a prefix after `trim` |
| Strings.JsNumber | css2.mjs:90 | `Number` gives 0 for blank text, the decimal value for a digit string, and NaN exactly when the trimmed text is not all digits |
| Strings.NatStrValue | css2.mjs:92 | `toString` of a natural number is a digit string that denotes it |
| Strings.NumberRoundTrip | css2.mjs:90-92 | `Number(n.toString())` is n, and `toString` of that gives the same text back |
| Strings.LeadingDigits | deprecated/css2-next.mjs:25 | the digit prefix `parseInt` reads is the longest prefix of ASCII digits |
| Strings.ParseIntKey | deprecated/css2-next.mjs:25 | the sort key is at least -1, the key for NaN, and a digit string's key is its value |
| OrderedSets.Add | css2.mjs:84 | `Set.add` makes x a member, appends it only if new, and keeps the set duplicate-free |
| OrderedSets.AddAll | deprecated/css2-next.mjs:82-86 | adding a list keeps every old member, adds every listed value, adds nothing else, and keeps the set duplicate-free |
| OrderedSets.AddAllAppend | deprecated/css2-next.mjs:78-90 | adding `a + b` equals adding `a` and then `b`: the loop adds group by group |
| OrderedSets.Collect | css2.mjs:79-85 | the set built from a list is duplicate-free and has the same members as the list |
| OrderedSets.CollectAll | css2.mjs:79-97 | the set built from a list of lists is duplicate-free and its members are the values of the lists |
| OrderedSets.CollectAllIn | css2.mjs:108 | `Array.from` of the built set: duplicate-free, with membership exactly the union of the lists |
| OrderedSets.CollectAllSnoc | css2.mjs:79-98 | one more loop round that adds a list equals `AddAll` of that list to the set so far |
| OrderedSets.FlattenIn | deprecated/css2-next.mjs:104-124 | the values met along the axis loop are exactly the values of its per-axis lists |
| FontFace.Find | css2.mjs:111-113 | `data.find` by id gives nothing exactly when no entry has the id, and otherwise the first entry with it |
| FontFace.Alias | css2.mjs:104-106 | the id is `source-sans-3` exactly for `source-sans-pro` and `source-sans-3`, and every other id is kept |
| FontFace.NotShorthand | css2.mjs:67-71 | `axes@values` takes the `wght@` shorthand branch only when the axes are exactly `wght` |
| FontFace.RenderOpens | css2.mjs:116-117 | a block starts with a newline and the subset comment |
| FontFace.PieceShown | css2.mjs:115-134 | every line of a block's template occurs in the rendered block |
| FontFace.RenderShows | css2.mjs:115-134 | the block contains its `font-family`, `font-style`, `font-weight`, its `font-display` when given, its `src` URL and its `unicode-range` |
| FontFace.FaceOf | css2.mjs:24-33 | the i-th rule built from a list of triples is the face for the i-th triple |
| FontFace.FacesShare | css2.mjs:24-33 | every built rule carries the family's name, display and URL scheme, and the catalog's range for its subset |
| FontFace.Singles | css2.mjs:23 | the subset loop for one style and weight visits each subset once, in order |
| FontFace.PushSubsets | css2.mjs:23-35 | the subset loop appends to the payload exactly the rendered blocks of those triples |
| FontFace.PushWeights | css2.mjs:22-36 | the weight and subset loops append exactly the rendered blocks of the weight-major pairs |
| FontFace.PushFaces | css2.mjs:21-37 | the three nested loops append exactly the rendered blocks of the style × weight × subset product |
| FontFace.Cross | css2.mjs:21-23 | the product has `|styles| * |weights| * |subsets|` triples |
| FontFace.MulZero | css2.mjs:21-23 | a product of counts is zero exactly when a factor is zero, so a family yields no rule exactly when it has no style, no weight or no subset |
| FontFace.PairsAt | css2.mjs:22-23 | entry `j * |subsets| + k` for one style is weight j with subset k |
| FontFace.CrossRow | css2.mjs:21-23 | the triples for style i form the i-th row of the product |
| FontFace.CrossAt | css2.mjs:21-23 | entry `i * |weights| * |subsets| + j * |subsets| + k` is style i, weight j, subset k: the order is style-major, then weight, then subset |
| FontFace.SubsetWalk | css.mjs:45-66 | the subset loop with a mutable style and weight writes one block per subset |
| FontFace.SubsetWalkSnoc | css.mjs:45-66 | the block for one more subset uses the style and weight the previous iteration left, rewritten once more |
| FontFace.WeightWalk | css.mjs:44-69 | the weight loop writes `|weights| * |subsets|` blocks |
| FontFace.WeightWalkAt | css.mjs:44-45 | block `j * |subsets| + k` is block k of weight j's subset loop, started from the style that the earlier weights left |
| FontFace.SubsetWalkSettled | css.mjs:45-52 | when the first rewrite of a weight is a fixed point, every subset of that weight gets the same style and weight |
| FontFace.SubsetWalkShare | css.mjs:53-65 | block k of a subset loop is for subset k and carries the family's name, display, URL scheme and range |
| FontFace.WeightWalkShare | css.mjs:53-65 | every block of a family's weight loop carries its name, display, URL scheme and range |
| FontFace.AssembleRendered | css2.mjs:44-46 | joining the rendered blocks with a space gives a newline, the layout's indent, and then the trimmed body that is sent |
| FontFace.AssembleNone | css2.mjs:40-46 | an empty payload assembles to the empty body |
| FontFace.AssembleTrimmed | css2.mjs:46 | `trim` of the joined blocks removes exactly the leading whitespace before the first comment |
| FontFace.BodyOpens | css2.mjs:44-46 | the sent body is the joined blocks without their leading newline and indent |
| FontFace.Each | css2.mjs:11-12 | the loop over families takes each family's outcome in order |
| FontFace.EachSnoc | css2.mjs:11-38 | one more family appends its outcome |
| FontFace.Gather | css2.mjs:11-19 | the request fails over to the notice exactly when some family fails, and the payload is empty exactly when every family yields none |
| FontFace.GatherNone | css2.mjs:40-42 | the payload is empty with no family failing exactly when every family yields an empty list |
| FontFace.GatherMembers | css2.mjs:11-38 | the payload's rules are exactly the rules of the families |
| FontFace.GatherAppend | css2.mjs:34 | a family that yields rules appends them after the earlier families' rules |
| StableSort.InsertPerm | deprecated/css2-next.mjs:25 | inserting adds exactly the one element |
| StableSort.SortPerm | deprecated/css2-next.mjs:25 | sorting is a permutation of the weights |
| StableSort.InsertSorted | deprecated/css2-next.mjs:25 | inserting into a sorted list keeps it sorted by the key |
| StableSort.SortSorted | deprecated/css2-next.mjs:25 | the sorted weights are in ascending key order |
| StableSort.SortIdem | deprecated/css2-next.mjs:25 | sorting a list already in key order leaves it unchanged |
| StableSort.InsertWithKey | deprecated/css2-next.mjs:25 | inserting an element leaves the other elements of each key in their order and puts it last among the elements of its own key |
| StableSort.SortStable | deprecated/css2-next.mjs:25 | the sort is stable: for every key, the elements with that key come out in the same order as in the input |
| StableSort.InsertPast | deprecated/css2-next.mjs:25 | an element moves past a last element of larger key |
| StableSort.InsertStop | deprecated/css2-next.mjs:25 | an element stops after a last element of equal or smaller key, so equal keys keep their order |
| StableSort.SinkLeft | deprecated/css2-next.mjs:25 | sinking element i leaves the prefix as the sorted insertion of that element, and the rest of the array unchanged |
| StableSort.SortInPlace | deprecated/css2-next.mjs:25 | `weights.sort(...)` in place leaves the array equal to the stable key sort of its old contents |
| Css2.GroupStyle | css2.mjs:80-84 | a group gives italic exactly when its first comma part is `1` |
| Css2.ParseFamily | css2.mjs:57-109 | the imperative `parseFamily`, with its `styles.clear()` and `Set.add` steps, returns `Parse` |
| Css2.ReadGroups | css2.mjs:79-98 | the group loop builds exactly the style and weight sets of `Groups` |
| Css2.ReadGroup | css2.mjs:79-98 | one group adds its style when the axes name `ital` and its weights when they name `wght` |
| Css2.GroupsSnoc | css2.mjs:79-98 | the sets after one more group are those before it with that group's style and weights added |
| Css2.ParseBare | css2.mjs:58-61 | a token without `:` is its own name and gives styles `[normal]` and weights `["400"]`, with the aliased id |
| Css2.ParseWght | css2.mjs:67-69 | `name:wght@w` gives style `[normal]` and the one weight w, verbatim, neither split on `;` nor expanded |
| Css2.ParseAxes | css2.mjs:71-98 | `name:axes@values` gives the sets read from the `;`-groups of the values |
| Css2.ParseGroups | css2.mjs:63-98 | the `axes@values` branch starts from cleared sets and reads every group |
| Css2.GroupsShape | css2.mjs:76-98 | the sets are duplicate-free; the styles are the groups' styles if the axes name `ital`, else none; the weights are the groups' weights if they name `wght`, else none |
| Css2.StylesShape | css2.mjs:79-85 | the style set holds exactly the styles of the groups |
| Css2.WeightsShape | css2.mjs:88-97 | the weight set holds exactly the weights of the groups |
| Css2.GroupRange | css2.mjs:89-93 | a range group adds only `Number(start)` and `Number(end)`, as strings |
| Css2.GroupParts | css2.mjs:80 | a group `lead,w` splits into its two parts |
| Css2.RangeParts | css2.mjs:90 | a range `lo..hi` of digits splits into its two ends |
| Css2.GroupPlain | css2.mjs:94-96 | a plain group `s,w` gives the weight w verbatim and italic exactly when s is `1` |
| Css2.ParseNames | css2.mjs:60-61 | the displayed name is the text before the first `:`, and the id is that name lower-cased, hyphenated and aliased |
| Css2.FamilyCount | css2.mjs:21-37 | a family writes `|styles| * |weights| * |subsets|` blocks, and none exactly when one of the three is empty |
| Css2.FamilyRuleAt | css2.mjs:21-37 | block `i * |weights| * |subsets| + j * |subsets| + k` is style i, weight j and subset k, with the family's name, id, display and range |
| Css2.Handle | css2.mjs:1-55 | the imperative handler returns `Reply` |
| Css2.ReplyMissing | css2.mjs:4-6 | the answer is a 500 "Wrong request" exactly when `family` is missing or empty, and never another 500 |
| Css2.ReplyNotice | css2.mjs:13-19 | the answer is the HTML notice exactly when some family has no registry entry with subsets, whatever the other families build |
| Css2.RulesNone | css2.mjs:11-19 | the family loop fails exactly when some family's id is not listed |
| Css2.ReplyEmpty | css2.mjs:40-42 | the answer is the contact string error exactly when every family is listed and has no style, no weight or no subset |
| Css2.RulesEmpty | css2.mjs:11-42 | the payload is empty exactly when every family is listed and has an empty factor |
| Css2.ReplyCss | css2.mjs:44-46 | the answer is CSS exactly when every family is listed and some block is written; the body is the joined blocks, trimmed |
| Css2.RulesShare | css2.mjs:115-134 | every block has display `swap` when `display` is truthy and otherwise none, its subset's range, and the name and URL of one requested family |
| Css2Next.LadderIn | deprecated/css2-next.mjs:82-86 | a weight is in the ladder exactly when it is a listed weight between start and end |
| Css2Next.LadderNaN | deprecated/css2-next.mjs:83 | a NaN end admits no weight |
| Css2Next.RangeWeights | deprecated/css2-next.mjs:79-86 | a range gives exactly the standard weights w with `start <= w <= end`, as decimal strings, and none when an end is NaN |
| Css2Next.FullRange | deprecated/css2-next.mjs:79-86 | `100..900` gives all nine standard weights in order |
| Css2Next.PartialRange | deprecated/css2-next.mjs:79-86 | `300..700` gives exactly 300, 400, 500, 600 and 700 |
| Css2Next.ExpandRange | deprecated/css2-next.mjs:79-89 | a digit range `lo..hi` expands to the standard weights between the two numbers |
| Css2Next.AddLadder | deprecated/css2-next.mjs:81-86 | the `forEach` over the standard weights adds exactly the ladder of the range |
| Css2Next.AddWithin | deprecated/css2-next.mjs:82-86 | adding the listed weights that fall in the range gives the set plus that part of the ladder |
| Css2Next.AddSpec | deprecated/css2-next.mjs:79-89 | one spec adds its range expansion, or itself verbatim |
| Css2Next.ReadSpecs | deprecated/css2-next.mjs:76-90 | the spec loop builds exactly the set of the specs' expansions |
| Css2Next.SpecsShape | deprecated/css2-next.mjs:76-91 | the weight set is duplicate-free and holds exactly the expansions of the specs |
| Css2Next.ReadAxes | deprecated/css2-next.mjs:104-124 | the positional loop over the axis names adds exactly that group's styles and weights |
| Css2Next.AtSnoc | deprecated/css2-next.mjs:104-124 | one more axis position adds that axis's style or weights |
| Css2Next.AxisStylesIn | deprecated/css2-next.mjs:107-109 | a group's styles come from the positions named `ital`: italic exactly when that value is `1` |
| Css2Next.AxisWeightsIn | deprecated/css2-next.mjs:111-123 | a group's weights come from non-empty values at positions named `wght`, range-expanded; other axes add nothing |
| Css2Next.ReadValues | deprecated/css2-next.mjs:101-125 | the group loop builds exactly the style and weight sets of all groups |
| Css2Next.AxesShape | deprecated/css2-next.mjs:98-125 | both sets are duplicate-free and hold exactly what the groups give |
| Css2Next.ParseFamily | deprecated/css2-next.mjs:64-136 | the imperative `parseFamily` returns `Parse` |
| Css2Next.ParseBare | deprecated/css2-next.mjs:65-68 | a token without `:` gives `[normal]` and `["400"]` with the aliased id |
| Css2Next.ParseWght | deprecated/css2-next.mjs:73-92 | `name:wght@specs` gives `[normal]` and the set of the `;`-specs' expansions; a plain value such as `175` stays verbatim |
| Css2Next.ParseShorthand | deprecated/css2-next.mjs:70-92 | the `wght@` branch reads the specs after the first `@` |
| Css2Next.ParseAxes | deprecated/css2-next.mjs:93-126 | `name:axes@values` gives the sets read by position from the `,`-named axes and the `;`-groups |
| Css2Next.ParseGroups | deprecated/css2-next.mjs:93-126 | the axes branch starts from cleared sets and reads every group |
| Css2Next.ParseNames | deprecated/css2-next.mjs:67-68 | the displayed name is the text before the first `:`, and the id is that name lower-cased, hyphenated and aliased |
| Css2Next.Display | deprecated/css2-next.mjs:150-153 | a `font-display` line is written exactly when `display` is truthy, and carries that value verbatim |
| Css2Next.SortedFamily | deprecated/css2-next.mjs:16-25 | the handler parses the token and sorts its weights by the `parseInt` key |
| Css2Next.FamilyWeightsKept | deprecated/css2-next.mjs:25 | the sorted weights are a permutation of the parsed weights, in ascending `parseInt` order |
| Css2Next.FamilyCount | deprecated/css2-next.mjs:27-44 | a family writes `|styles| * |weights| * |subsets|` blocks, and none exactly when one is empty: every style is paired with every weight |
| Css2Next.FamilyRuleAt | deprecated/css2-next.mjs:27-44 | block `i * |weights| * |subsets| + j * |subsets| + k` is style i, the j-th sorted weight and subset k |
| Css2Next.PushFamily | deprecated/css2-next.mjs:15-45 | one family fails with the notice or appends exactly its rendered blocks |
| Css2Next.PushFamilies | deprecated/css2-next.mjs:15-45 | the family loop builds `Payload` |
| Css2Next.Handle | deprecated/css2-next.mjs:1-62 | the imperative handler returns `Reply` |
| Css2Next.ReplyMissing | deprecated/css2-next.mjs:4-6 | the answer is a 500 "Wrong request" exactly when `family` is missing or empty |
| Css2Next.ReplyDecodeFails | deprecated/css2-next.mjs:11-13 | the answer is a runtime 500 exactly when `text` is given and cannot be decoded |
| Css2Next.ReplyNotice | deprecated/css2-next.mjs:19-23 | the answer is the HTML notice exactly when `family` is given, the text hint (if any) decodes, and some family is not listed |
| Css2Next.ReplyEmpty | deprecated/css2-next.mjs:47-49 | the answer is the contact string error exactly when there is no text hint and every family is listed with an empty factor |
| Css2Next.ReplyEmptyPayload | deprecated/css2-next.mjs:47-49 | the contact error is returned exactly when the payload, including the text comment, is empty |
| Css2Next.RulesEmpty | deprecated/css2-next.mjs:15-49 | no rule is built exactly when every family is listed with an empty factor |
| Css2Next.OutcomeEmpty | deprecated/css2-next.mjs:16-44 | one family yields no rule exactly when it is listed and has no style, no weight or no subset |
| Css2Next.RendersEmpty | deprecated/css2-next.mjs:47 | no block is rendered exactly when there is no rule |
| Css2Next.ReplyText | deprecated/css2-next.mjs:11-13 | with a decodable text hint, the answer is CSS even with zero rules, and the body starts with `/* Optimized for text: <decoded> */` |
| Css2Next.ReplyCss | deprecated/css2-next.mjs:51-53 | without a text hint, the answer is CSS exactly when every family is listed and some block is written; the body is the joined blocks, trimmed |
| Css2Next.ReplyCssKind | deprecated/css2-next.mjs:47-53 | without a text hint, CSS is returned exactly when the rules are non-empty |
| Css2Next.ReplyCssBody | deprecated/css2-next.mjs:51-53 | without a text hint, a CSS answer's body is the trimmed join of the rendered blocks |
| Css2Next.ReplyPlain | deprecated/css2-next.mjs:1-62 | without a text hint, the answer is, in order: wrong request, notice, contact error or CSS |
| Css2Next.PayloadPlain | deprecated/css2-next.mjs:9-45 | without a head, the payload is the rendered rules, or fails exactly when the rules do |
| Css2Next.RulesShare | deprecated/css2-next.mjs:142-166 | every block has the verbatim display, its subset's range, and the name of one requested family with a URL carrying the `?text=` query |
| Css1.Tokens | css.mjs:15-17 | one weight token per `,`-piece, and at least one |
| Css1.MapTokenShape | css.mjs:18-37 | `i`/`italic` become `400i`, other purely alphabetic non-shorthands become `400`, shorthands and digit strings pass unchanged, and the map is idempotent |
| Css1.StepStyle | css.mjs:46-49 | a weight's style becomes italic exactly when it was italic or the weight contains `i`; otherwise it is unchanged |
| Css1.StepSettles | css.mjs:46-52 | after one rewrite no `b` is left, and a rewrite without a remaining `i` is a fixed point |
| Css1.StepBold | css.mjs:50-52 | `b` and `bold` become weight 700 and keep the style |
| Css1.StepBoldItalic | css.mjs:46-52 | `bi`, `ib`, `bolditalic` and `italicbold` all become italic/700 |
| Css1.StepShort | css.mjs:46-52 | `bi` and `ib` become italic/700 |
| Css1.StepBoldThenItalic | css.mjs:46-52 | `bolditalic` becomes italic/700 |
| Css1.StepItalicThenBold | css.mjs:46-52 | `italicbold` becomes italic/700 |
| Css1.StepDigits | css.mjs:46-52 | a digit weight keeps its style; with an `i` or `italic` suffix it becomes italic with the digits |
| Css1.SubsetWalkItalic | css.mjs:45-52 | once the style is italic, every later block of the subset loop is italic |
| Css1.WeightWalkItalic | css.mjs:44-69 | once a weight makes the style italic, every later block of the family is italic |
| Css1.TokenSettled | css.mjs:45-52 | a weight whose rewrite leaves no `i` gets the same style and weight for every subset |
| Css1.StickyExample | css.mjs:12 | `Roboto:i,700`, with one subset, writes italic/400 and then italic/700, because the style is never reset |
| Css1.TokensExample | css.mjs:15-37 | `i,700` maps to the tokens `400i` and `700` |
| Css1.FirstWalk | css.mjs:45-52 | token `400i` writes italic/400 and leaves the style italic |
| Css1.SecondWalk | css.mjs:45-52 | token `700` after italic writes italic/700 |
| Css1.ParseBare | css.mjs:15-17 | a family without `:` fails: the `split(":")[1].split` call throws |
| Css1.ParseEntry | css.mjs:14-41 | `name:rest` gives the name, its id without alias, and the tokens of rest's text before any further `:` |
| Css1.TokensJoin | css.mjs:15-37 | the tokens of comma-joined items are the mapped items |
| Css1.FamiliesJoin | css.mjs:10 | the `|`-split of `|`-joined entries gives back the entries |
| Css1.PushSubsets | css.mjs:45-67 | the subset loop appends exactly the rendered blocks of the subset walk and leaves its style and weight |
| Css1.PushFamily | css.mjs:43-69 | the weight loop appends exactly the rendered blocks of the weight walk from style normal |
| Css1.Handle | css.mjs:1-83 | the imperative handler returns `Reply` |
| Css1.FamilyBlockAt | css.mjs:43-66 | a listed family writes `|weights| * |subsets|` blocks, and block `j * |subsets| + k` is for subset k and is block k of weight j's subset loop, started from the style the earlier weights left |
| Css1.ReplyFails | css.mjs:10-45 | the answer is a 500 exactly when `family` is not a single string, or some family has no `:` or is not listed |
| Css1.ReplyEmpty | css.mjs:71-73 | the answer is the contact string error exactly when every family parses, is listed and writes no block |
| Css1.RulesEmpty | css.mjs:11-73 | the payload is empty exactly when every family parses and is listed with no token or no subset |
| Css1.ReplyCss | css.mjs:74-75 | the answer is CSS exactly when every family succeeds and some block is written; the body is the joined blocks, trimmed |
| Css1.RulesShare | css.mjs:53-65 | every block has the swap display, its subset's range, and the name and URL of one requested family |
| Css2Old.ParsePlain | css2-old.mjs:10-25 | a token without `wght` or `ital` gives weights `["400"]`, and its id is the whole token lower-cased, hyphenated and aliased, keeping any `:` |
| Css2Old.ParseAxes | css2-old.mjs:14-22 | a triggered `name:axes@list` gives the id of the name and the non-empty `;`-pieces of the list |
| Css2Old.AxesWeights | css2-old.mjs:15-19 | the weight list is the non-empty `;`-pieces after the first `@` |
| Css2Old.ParseMissing | css2-old.mjs:15-19 | a triggered token without `:` has no weight list |
| Css2Old.StepPair | css2-old.mjs:31-33 | `s,w` gives normal exactly when s is `0`, otherwise italic, and the weight w's first comma piece |
| Css2Old.StepBare | css2-old.mjs:34-43 | bare `0` gives normal/400, bare `1` gives italic/400, and any other bare value keeps the style |
| Css2Old.PairSettled | css2-old.mjs:28-34 | a weight whose first rewrite is settled writes the same style and weight for every subset |
| Css2Old.RewriteExample | css2-old.mjs:28-34 | weight `0,1` over two subsets writes normal/1 and then italic/400: the first subset's rewrite is seen by the second |
| Css2Old.FirstRewrite | css2-old.mjs:31-33 | the first subset of `0,1` writes normal/1 |
| Css2Old.PushSubsets | css2-old.mjs:30-58 | the subset loop appends exactly the rendered blocks of the subset walk |
| Css2Old.PushFamily | css2-old.mjs:28-62 | the weight loop appends exactly the rendered blocks of the weight walk from style normal |
| Css2Old.Handle | css2-old.mjs:1-80 | the imperative handler returns `Reply` |
| Css2Old.FamilyBlockAt | css2-old.mjs:28-57 | a listed family with a weight list writes `|weights| * |subsets|` blocks, and block `j * |subsets| + k` is for subset k and is block k of weight j's subset loop, started from the style the earlier weights left |
| Css2Old.ReplyWrong | css2-old.mjs:70-72 | the answer is a 500 exactly when `family` is missing or empty, and that 500 is "Wrong request" |
| Css2Old.ReplyNotice | css2-old.mjs:27-61 | the answer is the notice exactly when some family has a non-empty weight list and is not listed |
| Css2Old.ReplyEmpty | css2-old.mjs:65-67 | the answer is the contact error exactly when every family is skipped or listed with no subset |
| Css2Old.ReplyCss | css2-old.mjs:68-69 | the answer is CSS exactly when no family fails and some block is written; the body is the joined blocks, trimmed |
| Css2Old.RulesShare | css2-old.mjs:44-56 | every block has the swap display, its subset's range, and the name and URL of one requested family |
| Css2Ts.ParseThrows | index.ts:64-71 | a triggered token without `:` throws |
| Css2Ts.ParsePlain | index.ts:60-73 | an untriggered token gives `["400"]` and the unaliased id of the whole token |
| Css2Ts.StepPair | index.ts:77-80 | `s,w` gives normal exactly when s is `0`, otherwise italic, and the weight w's first comma piece |
| Css2Ts.StepBare | index.ts:77-80 | a bare value keeps both the style and itself: there is no `0`/`1` shorthand |
| Css2Ts.PairSettled | index.ts:76-80 | a weight whose first rewrite has no comma writes the same style and weight for every subset |
| Css2Ts.CarryExample | index.ts:60 | weights `1,400` and `700` write italic/400 and then italic/700: the style carries over |
| Css2Ts.CarryFirst | index.ts:77-80 | `1,400` writes italic/400 and leaves the style italic |
| Css2Ts.CarrySecond | index.ts:77-80 | `700` after italic writes italic/700 |
| Css2Ts.PushSubsets | index.ts:76-95 | the subset loop appends exactly the rendered blocks of the subset walk |
| Css2Ts.PushFamily | index.ts:75-96 | the weight loop appends exactly the rendered blocks of the weight walk from style normal |
| Css2Ts.Handle | index.ts:51-106 | the imperative route body returns `Reply` |
| Css2Ts.FamilyBlockAt | index.ts:75-94 | a listed family writes `|weights| * |subsets|` blocks, and block `j * |subsets| + k` is for subset k and is block k of weight j's subset loop, started from the style the earlier weights left |
| Css2Ts.ReplyKinds | index.ts:98-104 | the answer is always CSS or a 500, and the 500 is "Wrong request" exactly when `family` is missing or empty |
| Css2Ts.ReplyFails | index.ts:64-104 | the answer is a runtime 500 exactly when some family is triggered without `:`/`@`, or has weights and is not listed |
| Css2Ts.ReplyCss | index.ts:98-99 | the answer is CSS exactly when no family fails; zero rules give an empty body, and otherwise the body is the joined blocks, trimmed |
| Css2Ts.RulesShare | index.ts:81-93 | every block has the swap display, its subset's range, and the name and URL of one requested family |

## Left out

- The HTTP layer is not modelled: the Fastify routing, `reply.header`/`type`/`send`, content-type headers, the server start-up and the static plugin. The handler's outcome is the `Response` datatype instead.
- The `/icon` route is left out: it returns a constant CSS string.
- `index.mjs` and the font-gathering jobs (`gather-fonts.mjs`, `gather-fonts.ts`) are not part of this model. The jobs do network fetches, uploads, concurrency and retries.
- `index.mjs` passes `null` as the registry. The registry is instead always an explicit parameter.
- `css2.test.mjs` is not modelled as code. It compares live HTTP responses, and some of its expectations describe a server version not among these files: subset-suffixed URLs and `font-stretch`.
- `toLowerCase` is modelled on ASCII letters only. Unicode case mapping is out of scope.
- `Number` is modelled on ASCII digit strings; every other text is NaN, which matches no weight. The `parseInt` sort key is the value of the leading ASCII digits after leading white space, or NaN when there are none. Signs (`-5`, `+5`) and the `0x` hexadecimal prefix are not modelled: `-5` gets the NaN key and `0x10` gets 0.
  - In `css2.mjs`, a `Number` that returns NaN prints the weight `"NaN"`.
  - In `deprecated/css2-next.mjs`, a NaN key compares as -1.
- StableSort.SortBy: the comparator `parseInt(a) - parseInt(b)` returns NaN for non-numeric weights, and the engine's sort then behaves in an implementation-defined way. The model gives every NaN key the value -1 and sorts stably (`StableSort.SortStable`), so such weights come first in their original order.
- `encodeURIComponent` and `decodeURIComponent` are parameters (`UriCodec`) rather than definitions. A decode failure is the thrown `URIError` of `Css2Next.ReplyDecodeFails`.
- A `display` or `text` query parameter given more than once (an array value) is not modelled. Both are optional strings.
- The text of a runtime 500's message is not modelled. The model keeps only that a JavaScript exception occurred (`RuntimeError`).
- The `subset` and `ver` parameters of `css.mjs` are read and never used, so they are not modelled.
- The subset catalog is a `map`. A subset missing from it prints `undefined`, as the template literal does. Prototype keys of a JavaScript object seen through that lookup are not modelled.
- A `family` array with non-string elements is not modelled. Its elements are strings.
- Css2Old.ParseAxes: it states the weight list and the id through the pieces that `Parse` reads, rather than as one equation for the whole `Parse` result.
- Concurrency, the clock and I/O are not modelled. The handler is one synchronous call.
