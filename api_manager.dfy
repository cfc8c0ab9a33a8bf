/** The two pure helpers of the API client: the cache key of a request and the authorization header. */
module ApiKeys {
  import opened Opt
  import opened Strings
  import opened Sorting

  /** A query parameter: its name and its value already rendered as text. */
  type Param = (string, string)

  /** The parameters of a Kotlin map, in its iteration order: no name occurs twice. */
  predicate DistinctNames(params: seq<Param>)
  {
    forall i, j :: 0 <= i < j < |params| ==> params[i].0 != params[j].0
  }

  /** The order of `toSortedMap()`: by name; the value only separates entries of equal names,
      which a map never has. */
  predicate ParamLeq(a: Param, b: Param)
  {
    if a.0 == b.0 then StrLeq(a.1, b.1) else StrLeq(a.0, b.0)
  }

  lemma ParamLeqTransitive(a: Param, b: Param, c: Param)
    requires ParamLeq(a, b) && ParamLeq(b, c)
    ensures ParamLeq(a, c)
  {
    if a.0 == b.0 && b.0 == c.0 {
      StrLeqTransitive(a.1, b.1, c.1);
    } else if a.0 == b.0 || b.0 == c.0 {
    } else if a.0 == c.0 {
      StrLeqAntisymmetric(a.0, b.0);
    } else {
      StrLeqTransitive(a.0, b.0, c.0);
    }
  }

  /** The parameter order is a total order. */
  lemma ParamLeqTotalOrder()
    ensures TotalPreorder(ParamLeq)
    ensures forall a, b :: ParamLeq(a, b) && ParamLeq(b, a) ==> a == b
  {
    StrLeqTotalOrder();
    forall a, b, c | ParamLeq(a, b) && ParamLeq(b, c)
      ensures ParamLeq(a, c)
    {
      ParamLeqTransitive(a, b, c);
    }
  }

  /** The parameters of `toSortedMap()`: the same entries, names ascending. */
  function SortedParams(params: seq<Param>): (r: seq<Param>)
    ensures multiset(r) == multiset(params)
    ensures forall i, j :: 0 <= i < j < |r| ==> ParamLeq(r[i], r[j])
  {
    ParamLeqTotalOrder();
    SortBySorted(params, ParamLeq);
    SortBy(params, ParamLeq)
  }

  /** `"${key}=${value}"` for each entry. */
  function ParamTexts(params: seq<Param>): (ts: seq<string>)
    ensures |ts| == |params|
    ensures forall k :: 0 <= k < |params| ==> ts[k] == params[k].0 + "=" + params[k].1
  {
    if params == [] then [] else [params[0].0 + "=" + params[0].1] + ParamTexts(params[1..])
  }

  /** `"${method}_${endpoint}"`, `httpMethod` being the request method. */
  function BaseKey(endpoint: string, httpMethod: string): string
  {
    httpMethod + "_" + endpoint
  }

  /** The cache key of a request: the base key alone without parameters, otherwise the base key,
      `?` and the `name=value` pairs in name order joined by `&`. */
  function GenerateCacheKey(endpoint: string, httpMethod: string, params: Option<seq<Param>>): (key: string)
    ensures StartsWith(key, BaseKey(endpoint, httpMethod))
    ensures params.None? || params.value == [] <==> key == BaseKey(endpoint, httpMethod)
  {
    var base := BaseKey(endpoint, httpMethod);
    if params.None? || params.value == [] then base
    else
      var key := base + "?" + Join(ParamTexts(SortedParams(params.value)), "&");
      assert key[..|base|] == base;
      key
  }

  /** The key does not depend on the order the parameters were added in. */
  lemma CacheKeyIgnoresOrder(endpoint: string, httpMethod: string, p: seq<Param>, q: seq<Param>)
    requires multiset(p) == multiset(q)
    ensures GenerateCacheKey(endpoint, httpMethod, Some(p)) == GenerateCacheKey(endpoint, httpMethod, Some(q))
  {
    ParamLeqTotalOrder();
    SortByPermutationInvariant(p, q, ParamLeq);
    assert |p| == |multiset(p)| == |q|;
  }

  /** When no name or value holds `&`, the text after `?` splits back into the sorted
      `name=value` pairs, so the key determines the parameters. */
  lemma CacheKeyParams(endpoint: string, httpMethod: string, p: seq<Param>)
    requires p != []
    requires forall k :: 0 <= k < |p| ==> '&' !in p[k].0 && '&' !in p[k].1
    ensures var key := GenerateCacheKey(endpoint, httpMethod, Some(p));
      var base := BaseKey(endpoint, httpMethod);
      |key| > |base| && key[|base|] == '?' &&
      Split(key[|base| + 1..], '&') == ParamTexts(SortedParams(p))
  {
    var base := BaseKey(endpoint, httpMethod);
    var r := SortedParams(p);
    var texts := ParamTexts(r);
    assert |r| == |multiset(r)| == |p|;
    forall i | 0 <= i < |texts|
      ensures '&' !in texts[i]
    {
      assert r[i] in multiset(p);
      var k :| 0 <= k < |p| && p[k] == r[i];
      assert texts[i] == r[i].0 + "=" + r[i].1;
    }
    SplitJoin(texts, '&');
    var key := base + "?" + Join(texts, "&");
    assert key[|base| + 1..] == Join(texts, "&");
  }

  /** For a map's parameters, the pairs in the key have strictly ascending names. */
  lemma SortedParamsNamesAscend(params: seq<Param>)
    requires DistinctNames(params)
    ensures var r := SortedParams(params);
      forall i, j :: 0 <= i < j < |r| ==> StrLeq(r[i].0, r[j].0) && r[i].0 != r[j].0
  {
    var r := SortedParams(params);
    forall i, j | 0 <= i < j < |r|
      ensures StrLeq(r[i].0, r[j].0) && r[i].0 != r[j].0
    {
      assert ParamLeq(r[i], r[j]);
      if r[i].0 == r[j].0 {
        DistinctInMultiset(params, r, i, j);
      }
    }
  }

  /** Two entries of a reordering of a map's parameters never share a name. */
  lemma DistinctInMultiset(params: seq<Param>, r: seq<Param>, i: int, j: int)
    requires DistinctNames(params) && multiset(r) == multiset(params)
    requires 0 <= i < j < |r|
    ensures r[i].0 != r[j].0
  {
    assert r[i] in multiset(params) && r[j] in multiset(params);
    var a :| 0 <= a < |params| && params[a] == r[i];
    var b :| 0 <= b < |params| && params[b] == r[j];
    MultiplicityOne(params, a);
    OnceAt(r, i, j);
  }

  /** An element that occurs once in a list differs from the elements after it. */
  lemma OnceAt<T>(r: seq<T>, i: int, j: int)
    requires 0 <= i < j < |r| && multiset(r)[r[i]] == 1
    ensures r[i] != r[j]
  {
    assert r == r[..j] + r[j..];
    assert r[i] in r[..j];
    assert multiset(r[j..])[r[i]] == 0;
    assert r[j] == r[j..][0];
  }

  /** In a list with distinct names every entry occurs once. */
  lemma {:induction false} MultiplicityOne(params: seq<Param>, a: int)
    requires DistinctNames(params) && 0 <= a < |params|
    ensures multiset(params)[params[a]] == 1
  {
    if a > 0 {
      assert DistinctNames(params[1..]) by {
        forall i, j | 0 <= i < j < |params[1..]|
          ensures params[1..][i].0 != params[1..][j].0
        {
          assert params[1..][i] == params[i + 1] && params[1..][j] == params[j + 1];
        }
      }
      MultiplicityOne(params[1..], a - 1);
      assert params == [params[0]] + params[1..];
      assert params[0] != params[a];
    } else {
      assert params == [params[0]] + params[1..];
      assert params[0] !in multiset(params[1..]) by {
        forall k | 0 <= k < |params[1..]|
          ensures params[1..][k] != params[0]
        {
          assert params[1..][k] == params[k + 1];
        }
      }
    }
  }

  /** The `Authorization` header: none for a missing or blank key, `Bearer <key>` otherwise. */
  function AuthHeader(apiKey: Option<string>): (h: Option<string>)
    ensures h.None? <==> IsNullOrBlank(apiKey)
    ensures h.Some? ==> StartsWith(h.value, "Bearer ") && h.value[|"Bearer "|..] == apiKey.value
  {
    if IsNullOrBlank(apiKey) then None
    else
      var h := "Bearer " + apiKey.value;
      assert h[..7] == "Bearer " && h[7..] == apiKey.value;
      Some(h)
  }
}
