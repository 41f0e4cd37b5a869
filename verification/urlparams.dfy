/** Route templating of the web client (Frontend/src/utils/url.ts): each
    parameter replaces the first `{key}` placeholder of the URL. */
module UrlParams {
  import opened Wrappers
  import opened Text

  /** The integers `String(n)` writes in plain decimal: from 10^21 in
      magnitude it switches to exponent notation. */
  type DecimalInt = n: int | -1_000_000_000_000_000_000_000 < n < 1_000_000_000_000_000_000_000

  /** A parameter value: a string, or an integer rendered by `String(n)`. */
  datatype ParamValue = Str(s: string) | Num(n: DecimalInt)

  function Render(v: ParamValue): string {
    match v
    case Str(s) => s
    case Num(n) => IntToString(n)
  }

  function Placeholder(key: string): string {
    "{" + key + "}"
  }

  /** The replacement text `String.prototype.replace` inserts for a string
      pattern: `$$` is `$`, `$&` the match, `` $` `` the text before it, `$'`
      the text after it; every other `$` is literal (a string pattern has no
      capture groups). */
  function Substitution(v: string, matched: string, before: string, after: string): (r: string)
    ensures '$' !in v ==> r == v
    decreases |v|
  {
    if v == [] then []
    else if v[0] == '$' && |v| >= 2 && v[1] == '$' then "$" + Substitution(v[2..], matched, before, after)
    else if v[0] == '$' && |v| >= 2 && v[1] == '&' then matched + Substitution(v[2..], matched, before, after)
    else if v[0] == '$' && |v| >= 2 && v[1] == '`' then before + Substitution(v[2..], matched, before, after)
    else if v[0] == '$' && |v| >= 2 && v[1] == '\'' then after + Substitution(v[2..], matched, before, after)
    else [v[0]] + Substitution(v[1..], matched, before, after)
  }

  /** `s.replace(pat, v)` for a string pattern: only the first occurrence. */
  function ReplaceOnce(s: string, pat: string, v: string): (r: string)
    ensures !Contains(s, pat) ==> r == s
    ensures Contains(s, pat) ==> s[..IndexOf(s, pat).value] <= r
  {
    match IndexOf(s, pat)
    case None => s
    case Some(i) =>
      assert OccursAt(s, pat, i);
      var before := s[..i];
      var after := s[i + |pat|..];
      before + Substitution(v, pat, before, after) + after
  }

  /** A value without `$` is inserted literally. */
  lemma ReplaceOnceLiteral(s: string, pat: string, v: string)
    requires '$' !in v
    ensures ReplaceOnce(s, pat, v) == ReplaceFirst(s, pat, v)
  {
    if Contains(s, pat) {
      var i := IndexOf(s, pat).value;
      assert Substitution(v, pat, s[..i], s[i + |pat|..]) == v;
    }
  }

  /** `replaceUrlParams(url, params)`: the entries are applied one after the
      other, in the order `Object.entries` lists them, each to the result of
      the previous one. */
  function ReplaceUrlParams(url: string, params: seq<(string, ParamValue)>): (r: string)
    ensures params == [] ==> r == url
    decreases |params|
  {
    if params == [] then url
    else
      var n := |params| - 1;
      var (key, value) := params[n];
      ReplaceOnce(ReplaceUrlParams(url, params[..n]), Placeholder(key), Render(value))
  }

  /** Each entry replaces the first occurrence of its placeholder, and only
      that one: the text around it is kept. */
  lemma ApplyOne(url: string, params: seq<(string, ParamValue)>, key: string, value: ParamValue)
    requires '$' !in Render(value)
    ensures var before := ReplaceUrlParams(url, params);
      !Contains(before, Placeholder(key)) ==> ReplaceUrlParams(url, params + [(key, value)]) == before
    ensures var before := ReplaceUrlParams(url, params);
      var p := Placeholder(key);
      Contains(before, p) ==>
        var i := IndexOf(before, p).value;
        ReplaceUrlParams(url, params + [(key, value)]) == before[..i] + Render(value) + before[i + |p|..]
  {
    var before := ReplaceUrlParams(url, params);
    var p := Placeholder(key);
    var v := Render(value);
    assert ReplaceUrlParams(url, params + [(key, value)]) == ReplaceOnce(before, p, v) by {
      ReplaceUrlParamsLast(url, params, key, value);
    }
    ReplaceOnceSplits(before, p, v);
  }

  /** A `$`-free value replaces the first occurrence, keeping the text on
      either side. */
  lemma ReplaceOnceSplits(s: string, pat: string, v: string)
    requires '$' !in v
    ensures !Contains(s, pat) ==> ReplaceOnce(s, pat, v) == s
    ensures Contains(s, pat) ==>
      var i := IndexOf(s, pat).value;
      ReplaceOnce(s, pat, v) == s[..i] + v + s[i + |pat|..]
  {
    ReplaceOnceLiteral(s, pat, v);
    if Contains(s, pat) {
      var i := IndexOf(s, pat).value;
      assert ReplaceFirst(s, pat, v) == s[..i] + v + s[i + |pat|..];
    }
  }

  lemma ReplaceUrlParamsLast(url: string, params: seq<(string, ParamValue)>, key: string, value: ParamValue)
    ensures ReplaceUrlParams(url, params + [(key, value)])
         == ReplaceOnce(ReplaceUrlParams(url, params), Placeholder(key), Render(value))
  {
    var ps := params + [(key, value)];
    assert ps[..|params|] == params && ps[|params|] == (key, value);
  }

  /** Entries whose placeholder does not occur leave the URL as it is, so
      placeholders without a matching entry stay in the result. */
  lemma {:induction false} UnmatchedLeaveUrl(url: string, params: seq<(string, ParamValue)>)
    requires forall k :: 0 <= k < |params| ==> !Contains(url, Placeholder(params[k].0))
    ensures ReplaceUrlParams(url, params) == url
    decreases |params|
  {
    if params != [] {
      var n := |params| - 1;
      UnmatchedLeaveUrl(url, params[..n]);
    }
  }

  /** A single entry whose placeholder sits after any text free of `{` is
      substituted in place. */
  lemma SubstituteInPlace(pre: string, key: string, post: string, value: ParamValue)
    requires '{' !in pre && '$' !in Render(value)
    ensures ReplaceUrlParams(pre + Placeholder(key) + post, [(key, value)]) == pre + Render(value) + post
  {
    var url := pre + Placeholder(key) + post;
    var p := Placeholder(key);
    assert [(key, value)][..0] == [];
    ReplaceOnceLiteral(url, Placeholder(key), Render(value));
    assert OccursAt(url, p, |pre|) by {
      assert url[|pre|..|pre| + |p|] == p;
    }
    forall j | 0 <= j < |pre| ensures !OccursAt(url, p, j) {
      assert url[j] == pre[j] && p[0] == '{';
    }
    assert IndexOf(url, p) == Some(|pre|);
    var r := ReplaceFirst(url, p, Render(value));
    assert r == r[..|pre|] + r[|pre|..|pre| + |Render(value)|] + r[|pre| + |Render(value)|..];
    assert url[..|pre|] == pre;
    assert url[|pre| + |p|..] == post;
  }

  /** Entries apply in order, so a value may introduce a placeholder that a
      later entry then fills: with `a` mapped to "{b}" and then `b` to `v`,
      "{a}" ends up as `v`. */
  lemma LaterEntrySeesEarlierValue(pre: string, a: string, b: string, v: ParamValue)
    requires '{' !in pre && '$' !in b && '$' !in Render(v)
    ensures ReplaceUrlParams(pre + Placeholder(a), [(a, Str(Placeholder(b))), (b, v)]) == pre + Render(v)
  {
    var params := [(a, Str(Placeholder(b))), (b, v)];
    assert '$' !in Render(Str(Placeholder(b))) by {
      assert forall k :: 1 <= k < |b| + 1 ==> Placeholder(b)[k] == b[k - 1];
    }
    assert ReplaceUrlParams(pre + Placeholder(a), params[..1]) == pre + Placeholder(b) by {
      assert pre + Placeholder(a) + "" == pre + Placeholder(a);
      SubstituteInPlace(pre, a, "", Str(Placeholder(b)));
      assert params[..1] == [(a, Str(Placeholder(b)))];
      assert pre + Placeholder(b) + "" == pre + Placeholder(b);
    }
    assert ReplaceUrlParams(pre + Placeholder(b), [(b, v)]) == pre + Render(v) by {
      assert pre + Placeholder(b) + "" == pre + Placeholder(b);
      SubstituteInPlace(pre, b, "", v);
      assert pre + Render(v) + "" == pre + Render(v);
    }
    assert [(b, v)][..0] == params[..1][..0];
  }
}
