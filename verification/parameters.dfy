/** Request parameters: an ordered multimap from a name to its ordered values, as
    Spring's `LinkedMultiValueMap` (which `Parameters` extends) keeps them. A key
    occurs at most once; its values live together under that one entry. */
module Parameters {

  import opened Wrappers
  import opened Seqs

  type Params = seq<(string, seq<string>)>

  /** The keys in entry order. */
  function Keys(p: Params): seq<string> {
    if |p| == 0 then [] else [p[0].0] + Keys(p[1..])
  }

  /** The map invariant: no key is stored twice. */
  predicate DistinctKeys(p: Params) {
    forall i, j :: 0 <= i < j < |p| ==> p[i].0 != p[j].0
  }

  /** The position of the first entry under `k`, or -1 when there is none. */
  function IndexOf(p: Params, k: string): (i: int)
    ensures -1 <= i < |p|
    ensures i >= 0 ==> p[i].0 == k
    ensures forall j :: 0 <= j < |p| && (i < 0 || j < i) ==> p[j].0 != k
  {
    if |p| == 0 then -1
    else if p[0].0 == k then 0
    else
      var i := IndexOf(p[1..], k);
      assert forall j :: 1 <= j < |p| ==> p[j] == p[1..][j - 1];
      if i < 0 then -1 else i + 1
  }

  /** `get(key)`: the values of the first entry under `k`, `None` for Java's `null`. */
  function Get(p: Params, k: string): (r: Option<seq<string>>)
    ensures r.None? <==> forall i :: 0 <= i < |p| ==> p[i].0 != k
    ensures r.Some? ==> 0 <= IndexOf(p, k) && r.value == p[IndexOf(p, k)].1
  {
    if |p| == 0 then None
    else if p[0].0 == k then Some(p[0].1)
    else
      var r := Get(p[1..], k);
      assert forall i :: 1 <= i < |p| ==> p[i] == p[1..][i - 1];
      r
  }

  /** Looking up in a list that starts with `e` looks at `e` first. */
  lemma GetCons(e: (string, seq<string>), p: Params, k: string)
    ensures Get([e] + p, k) == if e.0 == k then Some(e.1) else Get(p, k)
  {
    assert ([e] + p)[1..] == p;
  }

  predicate ContainsKey(p: Params, k: string) {
    Get(p, k).Some?
  }

  /** Replacing the entry at the head changes the lookup of its key only. */
  lemma ReplaceHead(e: (string, seq<string>), e': (string, seq<string>), p: Params)
    requires e'.0 == e.0
    ensures Get([e'] + p, e.0) == Some(e'.1)
    ensures forall k' :: k' != e.0 ==> Get([e'] + p, k') == Get([e] + p, k')
  {
    GetCons(e', p, e.0);
    forall k' | k' != e.0
      ensures Get([e'] + p, k') == Get([e] + p, k')
    {
      GetCons(e', p, k');
      GetCons(e, p, k');
    }
  }

  /** An entry under another key in front of two lists keeps them in agreement. */
  lemma ConsAgrees(e: (string, seq<string>), a: Params, b: Params, k: string)
    requires e.0 != k
    requires forall k' :: k' != k ==> Get(a, k') == Get(b, k')
    ensures Get([e] + a, k) == Get(a, k) && Get([e] + b, k) == Get(b, k)
    ensures forall k' :: k' != k ==> Get([e] + a, k') == Get([e] + b, k')
  {
    GetCons(e, a, k);
    GetCons(e, b, k);
    forall k' | k' != k
      ensures Get([e] + a, k') == Get([e] + b, k')
    {
      GetCons(e, a, k');
      GetCons(e, b, k');
    }
  }

  /** `put(key, values)`: replaces the values of an existing key in place, or
      appends a new entry at the end. */
  function Put(p: Params, k: string, vs: seq<string>): (r: Params)
    ensures Get(r, k) == Some(vs)
    ensures forall k' :: k' != k ==> Get(r, k') == Get(p, k')
    ensures !ContainsKey(p, k) ==> r == p + [(k, vs)]
    ensures ContainsKey(p, k) ==> Keys(r) == Keys(p)
  {
    if |p| == 0 then [(k, vs)]
    else if p[0].0 == k then
      assert p == [p[0]] + p[1..];
      ReplaceHead(p[0], (k, vs), p[1..]);
      [(k, vs)] + p[1..]
    else
      var rest := Put(p[1..], k, vs);
      assert p == [p[0]] + p[1..];
      ConsAgrees(p[0], rest, p[1..], k);
      ConcatAssoc([p[0]], p[1..], [(k, vs)]);
      [p[0]] + rest
  }

  /** `add(key, value)`: appends one value under `k`, creating the entry at the end
      when the key is new. */
  function Add(p: Params, k: string, v: string): (r: Params)
    ensures Get(r, k) == Some(Get(p, k).GetOr([]) + [v])
    ensures forall k' :: k' != k ==> Get(r, k') == Get(p, k')
    ensures !ContainsKey(p, k) ==> r == p + [(k, [v])]
    ensures ContainsKey(p, k) ==> Keys(r) == Keys(p)
  {
    if |p| == 0 then
      assert [] + [v] == [v];
      [(k, [v])]
    else if p[0].0 == k then
      assert p == [p[0]] + p[1..];
      ReplaceHead(p[0], (k, p[0].1 + [v]), p[1..]);
      [(k, p[0].1 + [v])] + p[1..]
    else
      var rest := Add(p[1..], k, v);
      assert p == [p[0]] + p[1..];
      ConsAgrees(p[0], rest, p[1..], k);
      ConcatAssoc([p[0]], p[1..], [(k, [v])]);
      [p[0]] + rest
  }

  /** `a` is obtained from `b` by deleting elements: `b`'s order is kept. */
  predicate IsSubsequence<T(==)>(a: seq<T>, b: seq<T>)
    decreases |b|
  {
    |a| == 0 || (|b| > 0 && ((a[0] == b[0] && IsSubsequence(a[1..], b[1..])) || IsSubsequence(a, b[1..])))
  }
}
