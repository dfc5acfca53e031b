/** The optional value used throughout the model (JavaScript `undefined` is `None`). */
module Wrappers {
  datatype Option<+T> = None | Some(value: T)
}

/**
 * The JavaScript string built-ins the font handlers rely on, over `seq<char>`:
 * `indexOf`/`includes`, `split` and `join` with a string separator, `replace` with a
 * string pattern (first occurrence only), ASCII `toLowerCase`, the `/ /g` space
 * replacement, `trim`, and the numeric conversions `Number`, `parseInt` and
 * `Number.prototype.toString` restricted to ASCII decimal digits.
 */
module Strings {
  import opened Wrappers

  /** `sub` occurs in `s` starting at index `i`. */
  predicate OccursAt(s: string, sub: string, i: nat) {
    i + |sub| <= |s| && s[i..i + |sub|] == sub
  }

  /** The first occurrence of `sub` in `s` at or after index `k` (`String.prototype.indexOf`). */
  function IndexFrom(s: string, sub: string, k: nat): (r: Option<nat>)
    ensures r.Some? ==> k <= r.value && OccursAt(s, sub, r.value)
    ensures r.Some? ==> forall j :: k <= j < r.value ==> !OccursAt(s, sub, j)
    ensures r.None? ==> forall j :: k <= j ==> !OccursAt(s, sub, j)
    decreases |s| - k
  {
    if k + |sub| > |s| then None
    else if s[k..k + |sub|] == sub then Some(k)
    else IndexFrom(s, sub, k + 1)
  }

  function IndexOf(s: string, sub: string): Option<nat> {
    IndexFrom(s, sub, 0)
  }

  /** `s.includes(sub)`. */
  predicate Contains(s: string, sub: string) {
    IndexOf(s, sub).Some?
  }

  lemma ContainsIff(s: string, sub: string)
    ensures Contains(s, sub) <==> exists i :: OccursAt(s, sub, i)
  {
  }

  /** Whatever is spliced into a string is found in it. */
  lemma ContainsMid(a: string, sub: string, b: string)
    ensures Contains(a + sub + b, sub)
  {
    assert (a + sub + b)[|a|..|a| + |sub|] == sub;
    assert OccursAt(a + sub + b, sub, |a|);
  }

  /** What occurs in `t` occurs in any string `t` is spliced into. */
  lemma ContainsIn(a: string, t: string, b: string, sub: string)
    requires Contains(t, sub)
    ensures Contains(a + t + b, sub)
  {
    var i := IndexOf(t, sub).value;
    assert (a + t + b)[|a| + i..|a| + i + |sub|] == t[i..i + |sub|];
    assert OccursAt(a + t + b, sub, |a| + i);
  }

  /** The pieces laid end to end. */
  function Concat(ps: seq<string>): string
    decreases |ps|
  {
    if ps == [] then "" else ps[0] + Concat(ps[1..])
  }

  lemma {:induction false} ConcatContains(ps: seq<string>, i: nat)
    requires i < |ps|
    ensures Contains(Concat(ps), ps[i])
    decreases i
  {
    if i == 0 {
      ContainsMid("", ps[0], Concat(ps[1..]));
      assert "" + ps[0] + Concat(ps[1..]) == Concat(ps);
    } else {
      ConcatContains(ps[1..], i - 1);
      ContainsIn(ps[0], Concat(ps[1..]), "", ps[i]);
      assert ps[0] + Concat(ps[1..]) + "" == Concat(ps);
    }
  }

  /** `parts.join(sep)`. */
  function Join(parts: seq<string>, sep: string): string
    decreases |parts|
  {
    if parts == [] then ""
    else if |parts| == 1 then parts[0]
    else parts[0] + sep + Join(parts[1..], sep)
  }

  /**
   * `s.split(sep)` for a non-empty separator: the pieces between the leftmost
   * non-overlapping occurrences of `sep`. Joining them again gives back `s`, and
   * there is more than one piece exactly when `s` contains `sep`.
   */
  function Split(s: string, sep: string): (parts: seq<string>)
    requires |sep| > 0
    ensures |parts| >= 1
    ensures (|parts| >= 2) == Contains(s, sep)
    ensures Join(parts, sep) == s
    decreases |s|
  {
    match IndexOf(s, sep)
    case None => [s]
    case Some(i) =>
      var rest := Split(s[i + |sep|..], sep);
      assert s == s[..i] + sep + s[i + |sep|..] by {
        assert s[i..i + |sep|] == sep;
        assert s == s[..i] + s[i..i + |sep|] + s[i + |sep|..];
      }
      [s[..i]] + rest
  }

  /** When `sep` cannot start inside `a`, the first piece of `a + sep + b` is `a`. */
  lemma SplitFirst(a: string, sep: string, b: string)
    requires |sep| > 0 && sep[0] !in a
    ensures Split(a + sep + b, sep) == [a] + Split(b, sep)
  {
    var s := a + sep + b;
    assert OccursAt(s, sep, |a|) by {
      assert s[|a|..|a| + |sep|] == sep;
    }
    forall j | 0 <= j < |a|
      ensures !OccursAt(s, sep, j)
    {
      assert s[j] == a[j];
    }
    var r := IndexOf(s, sep);
    assert r == Some(|a|);
    assert s[..|a|] == a;
    assert s[|a| + |sep|..] == b;
  }

  /** A string in which `sep` cannot start is a single piece. */
  lemma SplitNone(a: string, sep: string)
    requires |sep| > 0 && sep[0] !in a
    ensures Split(a, sep) == [a]
    ensures !Contains(a, sep)
  {
    forall j: nat | j < |a|
      ensures !OccursAt(a, sep, j)
    {
      assert a[j] != sep[0];
    }
  }

  /** A single-character `includes` is membership. */
  lemma ContainsChar(s: string, c: char)
    ensures Contains(s, [c]) <==> c in s
  {
    if c in s {
      var i :| 0 <= i < |s| && s[i] == c;
      assert s[i..i + 1] == [c];
      assert OccursAt(s, [c], i);
    }
    if Contains(s, [c]) {
      var i := IndexOf(s, [c]).value;
      assert s[i..i + 1][0] == s[i];
    }
  }

  /** A string that starts with `p` contains every prefix-anchored piece of `p`. */
  lemma PrefixContains(s: string, p: string, c: char, k: nat)
    requires p <= s && k < |p| && p[k] == c
    ensures Contains(s, [c])
  {
    assert s[k] == c;
    ContainsChar(s, c);
  }

  /** Up to a first `c`, only `p` itself makes `a + [c] + b` start with `p + [c]`. */
  lemma PrefixBefore(a: string, c: char, b: string, p: string)
    requires c !in a && c !in p && a != p
    ensures !(p + [c] <= a + [c] + b)
  {
    var s, q := a + [c] + b, p + [c];
    if |a| < |p| {
      assert s[|a|] != q[|a|];
    } else if |a| == |p| {
      assert exists i :: 0 <= i < |p| && a[i] != p[i];
      var i :| 0 <= i < |p| && a[i] != p[i];
      assert s[i] != q[i];
    } else {
      assert s[|p|] != q[|p|];
    }
  }

  /**
   * `Split` is undone by `Join` (its own contract); for a one-character separator
   * the converse holds as well, provided no piece contains that character.
   */
  lemma {:induction false} SplitJoin(parts: seq<string>, c: char)
    requires |parts| >= 1
    requires forall i :: 0 <= i < |parts| ==> c !in parts[i]
    ensures Split(Join(parts, [c]), [c]) == parts
    decreases |parts|
  {
    if |parts| == 1 {
      SplitNone(parts[0], [c]);
    } else {
      SplitJoin(parts[1..], c);
      SplitFirst(parts[0], [c], Join(parts[1..], [c]));
      assert Join(parts, [c]) == parts[0] + [c] + Join(parts[1..], [c]);
      assert [parts[0]] + parts[1..] == parts;
    }
  }

  /** `s.replace(pat, rep)` with a string pattern: only the first occurrence is replaced. */
  function ReplaceFirst(s: string, pat: string, rep: string): (r: string)
    ensures !Contains(s, pat) ==> r == s
    ensures Contains(s, pat) ==> |r| == |s| - |pat| + |rep|
  {
    match IndexOf(s, pat)
    case None => s
    case Some(i) => s[..i] + rep + s[i + |pat|..]
  }

  /** Every character of a pattern that occurs in `s` is a character of `s`. */
  lemma ContainsHas(s: string, sub: string, c: char)
    requires Contains(s, sub) && c in sub
    ensures c in s
  {
    var i := IndexOf(s, sub).value;
    var k :| 0 <= k < |sub| && sub[k] == c;
    assert s[i..i + |sub|][k] == s[i + k];
  }

  /** The index search stops at the first occurrence. */
  lemma {:induction false} IndexFromFirst(s: string, sub: string, k: nat, i: nat)
    requires k <= i && OccursAt(s, sub, i)
    requires forall j :: k <= j < i ==> !OccursAt(s, sub, j)
    ensures IndexFrom(s, sub, k) == Some(i)
    decreases i - k
  {
    if k < i {
      assert !OccursAt(s, sub, k);
      IndexFromFirst(s, sub, k + 1, i);
    }
  }

  /** In `a + pat + b`, where `a` lacks the first character of `pat`, `replace` takes this `pat`. */
  lemma ReplaceFirstAt(a: string, pat: string, b: string, rep: string)
    requires pat != [] && pat[0] !in a
    ensures Contains(a + pat + b, pat)
    ensures ReplaceFirst(a + pat + b, pat, rep) == a + rep + b
  {
    var s := a + pat + b;
    forall j | 0 <= j < |a|
      ensures !OccursAt(s, pat, j)
    {
      assert s[j] == a[j];
    }
    assert s[|a|..|a| + |pat|] == pat;
    IndexFromFirst(s, pat, 0, |a|);
    assert s[..|a|] == a && s[|a| + |pat|..] == b;
  }

  /** `Array.prototype.filter((n) => n)` on strings: the empty strings are dropped. */
  function NonEmpty(parts: seq<string>): (r: seq<string>)
    ensures forall i :: 0 <= i < |r| ==> r[i] != ""
    ensures forall x :: x in r <==> x in parts && x != ""
    decreases |parts|
  {
    if parts == [] then []
    else if parts[0] == "" then NonEmpty(parts[1..])
    else [parts[0]] + NonEmpty(parts[1..])
  }

  /** `toLowerCase`, restricted to the ASCII letters. */
  function LowerChar(c: char): char {
    if 'A' <= c <= 'Z' then (c as int + 32) as char else c
  }

  function Lower(s: string): (r: string)
    ensures |r| == |s|
  {
    seq(|s|, i requires 0 <= i < |s| => LowerChar(s[i]))
  }

  /** `replace(/ /g, "-")`. */
  function Hyphenate(s: string): (r: string)
    ensures |r| == |s|
  {
    seq(|s|, i requires 0 <= i < |s| => if s[i] == ' ' then '-' else s[i])
  }

  /** `family.toLowerCase().replace(/ /g, "-")`: the family id used for lookups and URLs. */
  function DashId(s: string): string {
    Hyphenate(Lower(s))
  }

  /** A family id has no spaces and no ASCII capitals, and normalising it again changes nothing. */
  lemma DashIdNormal(s: string)
    ensures ' ' !in DashId(s)
    ensures forall i :: 0 <= i < |DashId(s)| ==> !('A' <= DashId(s)[i] <= 'Z')
    ensures DashId(DashId(s)) == DashId(s)
    ensures |DashId(s)| == |s|
  {
  }

  /** Normalising works character by character, so it distributes over concatenation. */
  lemma DashIdConcat(a: string, b: string)
    ensures DashId(a + b) == DashId(a) + DashId(b)
  {
    var l, r := DashId(a + b), DashId(a) + DashId(b);
    forall i | 0 <= i < |l|
      ensures l[i] == r[i]
    {
      if i < |a| {
        assert (a + b)[i] == a[i];
      } else {
        assert (a + b)[i] == b[i - |a|];
      }
    }
  }

  /** A character that is neither a capital nor a space is found in `DashId(s)` where it is in `s`. */
  lemma DashIdKeeps(s: string, c: char)
    requires !('A' <= c <= 'Z') && c != ' ' && c != '-' && !('a' <= c <= 'z')
    ensures c in DashId(s) <==> c in s
  {
    if c in DashId(s) {
      var i :| 0 <= i < |DashId(s)| && DashId(s)[i] == c;
      assert s[i] == c;
    }
    if c in s {
      var i :| 0 <= i < |s| && s[i] == c;
      assert DashId(s)[i] == c;
    }
  }

  /** The characters `String.prototype.trim` removes: WhiteSpace and LineTerminator of ECMAScript. */
  predicate IsJsSpace(c: char) {
    c == '\t' || c == '\n' || c == '\U{B}' || c == '\U{C}' || c == '\r' || c == ' '
    || c == '\U{A0}' || c == '\U{1680}' || ('\U{2000}' <= c <= '\U{200A}')
    || c == '\U{2028}' || c == '\U{2029}' || c == '\U{202F}' || c == '\U{205F}'
    || c == '\U{3000}' || c == '\U{FEFF}'
  }

  function TrimStart(s: string): (r: string)
    ensures |r| <= |s| && r == s[|s| - |r|..]
    ensures r != [] ==> !IsJsSpace(r[0])
    ensures forall i :: 0 <= i < |s| - |r| ==> IsJsSpace(s[i])
    decreases |s|
  {
    if s != [] && IsJsSpace(s[0]) then TrimStart(s[1..]) else s
  }

  function TrimEnd(s: string): (r: string)
    ensures |r| <= |s| && r == s[..|r|]
    ensures r != [] ==> !IsJsSpace(r[|r| - 1])
    ensures forall i :: |r| <= i < |s| ==> IsJsSpace(s[i])
    decreases |s|
  {
    if s != [] && IsJsSpace(s[|s| - 1]) then TrimEnd(s[..|s| - 1]) else s
  }

  /** `s.trim()`: the longest slice of `s` that neither starts nor ends with white space. */
  function Trim(s: string): string {
    TrimEnd(TrimStart(s))
  }

  /** Leading white space is dropped by `trim`, and a string with non-space ends is kept whole. */
  lemma {:induction false} TrimStartSpaces(w: string, s: string)
    requires forall i :: 0 <= i < |w| ==> IsJsSpace(w[i])
    requires s != [] && !IsJsSpace(s[0]) && !IsJsSpace(s[|s| - 1])
    ensures Trim(w + s) == s
    decreases |w|
  {
    if w == [] {
      assert w + s == s;
    } else {
      assert (w + s)[1..] == w[1..] + s;
      TrimStartSpaces(w[1..], s);
    }
  }

  /** Trailing white space is all `trimEnd` removes: a prefix ending in a non-space survives. */
  lemma {:induction false} TrimEndPrefix(p: string, s: string)
    requires p <= s && p != [] && !IsJsSpace(p[|p| - 1])
    ensures p <= TrimEnd(s)
    decreases |s|
  {
    if s != [] && IsJsSpace(s[|s| - 1]) {
      assert p <= s[..|s| - 1];
      TrimEndPrefix(p, s[..|s| - 1]);
    }
  }

  /** A prefix that neither starts nor ends with white space is kept by `trim`. */
  lemma TrimPrefix(p: string, s: string)
    requires p <= s && p != [] && !IsJsSpace(p[0]) && !IsJsSpace(p[|p| - 1])
    ensures p <= Trim(s)
  {
    assert s[0] == p[0];
    assert TrimStart(s) == s;
    TrimEndPrefix(p, s);
  }

  predicate IsDigit(c: char) {
    '0' <= c <= '9'
  }

  predicate AllDigits(s: string) {
    forall i :: 0 <= i < |s| ==> IsDigit(s[i])
  }

  /** The value of a string of decimal digits, most significant first. */
  function DigitsValue(s: string): nat
    requires AllDigits(s)
    decreases |s|
  {
    if s == [] then 0
    else DigitsValue(s[..|s| - 1]) * 10 + (s[|s| - 1] as int - '0' as int)
  }

  function DigitChar(d: nat): (c: char)
    requires d < 10
    ensures IsDigit(c)
  {
    ('0' as int + d) as char
  }

  /** `n.toString()` for a natural number: its decimal digits, no leading zero. */
  function NatStr(n: nat): (r: string)
    ensures |r| >= 1 && AllDigits(r)
    ensures |r| > 1 ==> r[0] != '0'
    decreases n
  {
    if n < 10 then [DigitChar(n)] else NatStr(n / 10) + [DigitChar(n % 10)]
  }

  /** The digits `toString` writes are read back by their value. */
  lemma {:induction false} NatStrValue(n: nat)
    ensures DigitsValue(NatStr(n)) == n
    decreases n
  {
    if n >= 10 {
      NatStrValue(n / 10);
      var s := NatStr(n);
      assert s[..|s| - 1] == NatStr(n / 10);
    }
  }

  /** A string of digits has nothing for `trim` to remove. */
  lemma TrimDigits(s: string)
    ensures AllDigits(s) ==> Trim(s) == s
  {
    if s != [] && AllDigits(s) {
      assert !IsJsSpace(s[0]) && !IsJsSpace(s[|s| - 1]);
      assert TrimStart(s) == s;
    }
  }

  /**
   * `Number(s)` restricted to decimal digits: surrounding white space is ignored,
   * a blank string is 0, a run of ASCII digits is its value, and anything else
   * (signs, points, exponents, hexadecimal) is NaN (`None`).
   */
  function JsNumber(s: string): (r: Option<nat>)
    ensures Trim(s) == "" ==> r == Some(0)
    ensures AllDigits(s) ==> r == Some(DigitsValue(s))
    ensures r.None? <==> !AllDigits(Trim(s))
  {
    TrimDigits(s);
    var t := Trim(s);
    if AllDigits(t) then Some(DigitsValue(t)) else None
  }

  /** `Number.prototype.toString`: NaN prints as "NaN". */
  function NumberString(x: Option<nat>): string {
    match x
    case None => "NaN"
    case Some(n) => NatStr(n)
  }

  /** `Number` reads back what `toString` writes. */
  lemma NumberRoundTrip(n: nat)
    ensures JsNumber(NatStr(n)) == Some(n)
    ensures NumberString(JsNumber(NatStr(n))) == NatStr(n)
  {
    NatStrValue(n);
  }

  /** The run of ASCII digits that `s` starts with. */
  function LeadingDigits(s: string): (r: string)
    ensures r <= s && AllDigits(r)
    ensures |r| < |s| ==> !IsDigit(s[|r|])
    ensures AllDigits(s) ==> r == s
    decreases |s|
  {
    if s != [] && IsDigit(s[0]) then [s[0]] + LeadingDigits(s[1..]) else ""
  }

  /**
   * The sort key `parseInt(s)` gives a weight, restricted to ASCII digits: leading
   * white space is skipped, then the value of the leading digits, or -1 where
   * `parseInt` is NaN.
   */
  function ParseIntKey(s: string): (k: int)
    ensures k >= -1
    ensures AllDigits(s) && s != "" ==> k == DigitsValue(s)
  {
    var d := LeadingDigits(TrimStart(s));
    assert s != [] && IsDigit(s[0]) ==> TrimStart(s) == s;
    if d == "" then -1 else DigitsValue(d)
  }
}
