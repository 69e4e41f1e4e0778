/** The parameter reconciler of the curl snippet (`getUniqueParameters` and
    `addIfUnique`): form parameters already carried by the URI's query string are
    not sent again as form data. */
module Reconciler {

  import opened Wrappers
  import opened Parameters
  import opened Seqs

  /** The candidates not among `existing`, in their original order. */
  function Novel(candidates: seq<string>, existing: seq<string>): (r: seq<string>)
    ensures forall v :: v in r <==> v in candidates && v !in existing
    ensures |r| <= |candidates|
    ensures IsSubsequence(r, candidates)
    ensures forall v :: multiset(r)[v] == if v in existing then 0 else multiset(candidates)[v]
  {
    if |candidates| == 0 then []
    else
      var c, more := candidates[0], candidates[1..];
      var rest := Novel(more, existing);
      assert candidates == [c] + more;
      assert multiset(candidates) == multiset([c]) + multiset(more);
      if c in existing then
        assert IsSubsequence(rest, candidates) by { if |rest| > 0 { assert IsSubsequence(rest, more); } }
        rest
      else
        assert ([c] + rest)[1..] == rest;
        [c] + rest
  }

  // ----- As written: `addIfUnique` over a growing `Parameters` -----

  /** The inner loop of `addIfUnique`: `add` each candidate not in `existing`. */
  function AddEachUnique(unique: Params, key: string, candidates: seq<string>, existing: seq<string>): Params
    decreases |candidates|
  {
    if |candidates| == 0 then unique
    else
      var next := if candidates[0] in existing then unique else Add(unique, key, candidates[0]);
      AddEachUnique(next, key, candidates[1..], existing)
  }

  /** `addIfUnique`: a key the query string lacks is `put` with all its values;
      otherwise only its values missing from the query string are `add`ed. */
  function AddIfUnique(entry: (string, seq<string>), query: Params, unique: Params): Params {
    match Get(query, entry.0)
    case None => Put(unique, entry.0, entry.1)
    case Some(existing) => AddEachUnique(unique, entry.0, entry.1, existing)
  }

  /** The loop of `getUniqueParameters` over the request's parameters. */
  function AddAllIfUnique(entries: Params, query: Params, unique: Params): Params
    decreases |entries|
  {
    if |entries| == 0 then unique
    else AddAllIfUnique(entries[1..], query, AddIfUnique(entries[0], query, unique))
  }

  /** `getUniqueParameters`, with the parsed query-string parameters as input. */
  function GetUniqueParameters(parameters: Params, query: Params): Params {
    AddAllIfUnique(parameters, query, [])
  }

  // ----- Reference: what survives of each key -----

  /** The values kept for a key with `values`, given what the query string holds
      for it; `None` means the key is left out. */
  function Kept(values: seq<string>, existing: Option<seq<string>>): Option<seq<string>> {
    match existing
    case None => Some(values)
    case Some(ex) => if Novel(values, ex) == [] then None else Some(Novel(values, ex))
  }

  /** What remains of one parameter entry: nothing, or the entry with its kept values. */
  function Survivor(entry: (string, seq<string>), query: Params): Params {
    match Kept(entry.1, Get(query, entry.0))
    case None => []
    case Some(vs) => [(entry.0, vs)]
  }

  /** Key-by-key reference definition, in the parameters' order. */
  function Reference(parameters: Params, query: Params): Params {
    if |parameters| == 0 then []
    else Survivor(parameters[0], query) + Reference(parameters[1..], query)
  }

  /** The entry list `unique` once `acc` has been gathered for the fresh key `k`. */
  function Extend(unique: Params, k: string, acc: seq<string>): Params {
    if acc == [] then unique else unique + [(k, acc)]
  }

  lemma {:induction false} AddAtEnd(unique: Params, k: string, acc: seq<string>, v: string)
    requires !ContainsKey(unique, k)
    ensures Add(unique + [(k, acc)], k, v) == unique + [(k, acc + [v])]
    decreases |unique|
  {
    if |unique| == 0 {
      assert [] + [(k, acc)] == [(k, acc)];
    } else {
      var u := unique + [(k, acc)];
      var tail := unique[1..];
      assert unique[0].0 != k;
      assert u[0] == unique[0];
      assert u[1..] == tail + [(k, acc)];
      assert !ContainsKey(tail, k) by {
        GetCons(unique[0], tail, k);
        assert unique == [unique[0]] + tail;
      }
      AddAtEnd(tail, k, acc, v);
      calc {
        Add(u, k, v);
        [u[0]] + Add(u[1..], k, v);
        [unique[0]] + (tail + [(k, acc + [v])]);
        { assert unique == [unique[0]] + tail; ConcatAssoc([unique[0]], tail, [(k, acc + [v])]); }
        unique + [(k, acc + [v])];
      }
    }
  }

  lemma AddExtend(unique: Params, k: string, acc: seq<string>, v: string)
    requires !ContainsKey(unique, k)
    ensures Add(Extend(unique, k, acc), k, v) == Extend(unique, k, acc + [v])
  {
    if acc == [] {
      assert [] + [v] == [v];
    } else {
      AddAtEnd(unique, k, acc, v);
    }
  }

  /** Unfolding `Novel` once. */
  lemma NovelCons(candidates: seq<string>, existing: seq<string>)
    requires |candidates| > 0
    ensures Novel(candidates, existing)
         == (if candidates[0] in existing then [] else [candidates[0]]) + Novel(candidates[1..], existing)
  {
  }

  /** The inner loop appends exactly the novel candidates under a fresh key. */
  lemma {:induction false} AddEachFresh(unique: Params, k: string, acc: seq<string>, candidates: seq<string>, existing: seq<string>)
    requires !ContainsKey(unique, k)
    ensures AddEachUnique(Extend(unique, k, acc), k, candidates, existing)
         == Extend(unique, k, acc + Novel(candidates, existing))
    decreases |candidates|
  {
    var start := Extend(unique, k, acc);
    if |candidates| == 0 {
      assert acc + [] == acc;
    } else {
      var c := candidates[0];
      var more := candidates[1..];
      NovelCons(candidates, existing);
      if c in existing {
        assert AddEachUnique(start, k, candidates, existing) == AddEachUnique(start, k, more, existing);
        AddEachFresh(unique, k, acc, more, existing);
        assert Novel(candidates, existing) == Novel(more, existing) by {
          assert Novel(candidates, existing) == [] + Novel(more, existing);
        }
      } else {
        assert AddEachUnique(start, k, candidates, existing) == AddEachUnique(Add(start, k, c), k, more, existing);
        AddExtend(unique, k, acc, c);
        AddEachFresh(unique, k, acc + [c], more, existing);
        assert Novel(candidates, existing) == [c] + Novel(more, existing);
        ConcatAssoc(acc, [c], Novel(more, existing));
      }
    }
  }

  /** One step of the outer loop appends the survivor of a fresh key. */
  lemma AddIfUniqueFresh(entry: (string, seq<string>), query: Params, unique: Params)
    requires !ContainsKey(unique, entry.0)
    ensures AddIfUnique(entry, query, unique) == unique + Survivor(entry, query)
  {
    match Get(query, entry.0)
    case None =>
    case Some(existing) =>
      AddEachFresh(unique, entry.0, [], entry.1, existing);
      assert [] + Novel(entry.1, existing) == Novel(entry.1, existing);
  }

  /** Appending entries under other keys keeps a key absent. */
  lemma AbsentAfterAppend(unique: Params, more: Params, k: string)
    requires !ContainsKey(unique, k)
    requires forall j :: 0 <= j < |more| ==> more[j].0 != k
    ensures !ContainsKey(unique + more, k)
  {
    var u := unique + more;
    forall j | 0 <= j < |u|
      ensures u[j].0 != k
    {
      if j >= |unique| {
        assert u[j] == more[j - |unique|];
      }
    }
  }

  /** The keys still to come stay fresh once the first entry's survivor is added. */
  lemma FreshAfterSurvivor(entries: Params, query: Params, unique: Params)
    requires |entries| > 0
    requires DistinctKeys(entries)
    requires forall i :: 0 <= i < |entries| ==> !ContainsKey(unique, entries[i].0)
    ensures forall i :: 0 <= i < |entries[1..]| ==>
              !ContainsKey(unique + Survivor(entries[0], query), entries[1..][i].0)
  {
    var rest := entries[1..];
    var head := Survivor(entries[0], query);
    forall i | 0 <= i < |rest|
      ensures !ContainsKey(unique + head, rest[i].0)
    {
      assert rest[i] == entries[i + 1];
      AbsentAfterAppend(unique, head, rest[i].0);
    }
  }

  /** One step of the outer loop, unfolded. */
  lemma AddAllStep(entries: Params, query: Params, unique: Params)
    requires |entries| > 0
    requires !ContainsKey(unique, entries[0].0)
    ensures AddAllIfUnique(entries, query, unique)
         == AddAllIfUnique(entries[1..], query, unique + Survivor(entries[0], query))
  {
    AddIfUniqueFresh(entries[0], query, unique);
  }

  lemma {:induction false} AddAllIsReference(entries: Params, query: Params, unique: Params)
    requires DistinctKeys(entries)
    requires forall i :: 0 <= i < |entries| ==> !ContainsKey(unique, entries[i].0)
    ensures AddAllIfUnique(entries, query, unique) == unique + Reference(entries, query)
    decreases |entries|
  {
    if |entries| == 0 {
      assert unique + [] == unique;
    } else {
      var head := Survivor(entries[0], query);
      var rest := entries[1..];
      AddAllStep(entries, query, unique);
      assert DistinctKeys(rest);
      FreshAfterSurvivor(entries, query, unique);
      AddAllIsReference(rest, query, unique + head);
      assert Reference(entries, query) == head + Reference(rest, query);
      ConcatAssoc(unique, head, Reference(rest, query));
    }
  }

  /** The reconciler as written agrees with the reference definition. */
  lemma UniqueParametersIsReference(parameters: Params, query: Params)
    requires DistinctKeys(parameters)
    ensures GetUniqueParameters(parameters, query) == Reference(parameters, query)
  {
    AddAllIsReference(parameters, query, []);
    assert [] + Reference(parameters, query) == Reference(parameters, query);
  }

  /** Looking up past the survivor of one entry. */
  lemma GetAfterSurvivor(e: (string, seq<string>), query: Params, tail: Params, k: string)
    requires e.0 == k ==> Get(tail, k).None?
    ensures Get(Survivor(e, query) + tail, k)
         == if e.0 == k then Kept(e.1, Get(query, k)) else Get(tail, k)
  {
    var head := Survivor(e, query);
    if head == [] {
      assert head + tail == tail;
    } else {
      assert head == [head[0]];
      GetCons(head[0], tail, k);
    }
  }

  lemma {:induction false} ReferenceLookup(parameters: Params, query: Params, k: string)
    requires DistinctKeys(parameters)
    ensures Get(Reference(parameters, query), k)
         == match Get(parameters, k)
            case None => None
            case Some(vs) => Kept(vs, Get(query, k))
    decreases |parameters|
  {
    if |parameters| > 0 {
      var rest := parameters[1..];
      assert DistinctKeys(rest);
      ReferenceLookup(rest, query, k);
      assert parameters == [parameters[0]] + rest;
      GetCons(parameters[0], rest, k);
      if parameters[0].0 == k {
        assert Get(rest, k).None? by {
          assert forall i :: 0 <= i < |rest| ==> rest[i] == parameters[i + 1];
        }
      }
      GetAfterSurvivor(parameters[0], query, Reference(rest, query), k);
    }
  }

  lemma {:induction false} ReferenceKeys(parameters: Params, query: Params)
    requires DistinctKeys(parameters)
    ensures IsSubsequence(Keys(Reference(parameters, query)), Keys(parameters))
    ensures DistinctKeys(Reference(parameters, query))
    decreases |parameters|
  {
    if |parameters| > 0 {
      var k0 := parameters[0].0;
      var rest := parameters[1..];
      var head := Survivor(parameters[0], query);
      assert DistinctKeys(rest);
      ReferenceKeys(rest, query);
      var tail := Reference(rest, query);
      assert Keys(parameters)[1..] == Keys(rest);
      if head == [] {
        assert head + tail == tail;
      } else {
        assert Keys(head + tail) == [k0] + Keys(tail) by {
          assert (head + tail)[0].0 == k0;
          assert (head + tail)[1..] == tail;
        }
        ReferenceLookup(rest, query, k0);
        assert Get(rest, k0).None? by {
          assert forall i :: 0 <= i < |rest| ==> rest[i] == parameters[i + 1];
        }
        assert Get(tail, k0).None?;
        assert DistinctKeys(head + tail) by {
          forall i, j | 0 <= i < j < |head + tail|
            ensures (head + tail)[i].0 != (head + tail)[j].0
          {
            if i == 0 {
              assert (head + tail)[j] == tail[j - 1];
            } else {
              assert (head + tail)[i] == tail[i - 1];
              assert (head + tail)[j] == tail[j - 1];
            }
          }
        }
      }
    }
  }

  /** What reconciliation promises: every key keeps its position relative to the
      others and appears once; a key absent from the query string keeps all its
      values; a key present in it keeps exactly its values the query string lacks,
      in order, and is left out when none remain; no other key appears. */
  lemma UniqueParametersSpec(parameters: Params, query: Params)
    requires DistinctKeys(parameters)
    ensures var r := GetUniqueParameters(parameters, query);
      && IsSubsequence(Keys(r), Keys(parameters))
      && DistinctKeys(r)
      && forall k :: Get(r, k) == match Get(parameters, k)
                                  case None => None
                                  case Some(vs) => Kept(vs, Get(query, k))
  {
    UniqueParametersIsReference(parameters, query);
    ReferenceKeys(parameters, query);
    forall k
      ensures Get(Reference(parameters, query), k)
           == match Get(parameters, k)
              case None => None
              case Some(vs) => Kept(vs, Get(query, k))
    {
      ReferenceLookup(parameters, query, k);
    }
  }

  /** Query string `a=1&b=2` and form parameters `a: [1, 3], c: [4]` leave
      `a: [3], c: [4]`. */
  lemma ReconcileExample()
    ensures GetUniqueParameters([("a", ["1", "3"]), ("c", ["4"])], [("a", ["1"]), ("b", ["2"])])
         == [("a", ["3"]), ("c", ["4"])]
  {
    var query: Params := [("a", ["1"]), ("b", ["2"])];
    var parameters: Params := [("a", ["1", "3"]), ("c", ["4"])];
    assert Reference(parameters, query) == [("a", ["3"]), ("c", ["4"])] by {
      assert Survivor(parameters[0], query) == [("a", ["3"])] by {
        assert Get(query, "a") == Some(["1"]);
        assert Novel(["1", "3"], ["1"]) == ["3"];
      }
      assert Survivor(parameters[1], query) == [("c", ["4"])] by {
        assert Get(query, "c") == None;
      }
      assert parameters[1..][1..] == [];
    }
    UniqueParametersIsReference(parameters, query);
  }
}
