/**
 Item.__add__ of adapters/persistence/models.py, and the fold of provider results into one
 empty item (adapters/api/__init__.py).
 */
module ItemMerge {
  import opened Wrappers

  /** A field value: None, a comparable scalar or a value with a length. `kind` is its exact
      type; values of two kinds are not instances of each other's type. */
  datatype Value = Null | Scalar(kind: nat, n: int) | Sized(kind: nat, content: string)

  type Data = map<string, Value>

  /** What the merge maximises. */
  function Measure(v: Value): int {
    match v
    case Null => 0
    case Scalar(_, n) => n
    case Sized(_, content) => |content|
  }

  predicate SameType(a: Value, b: Value) {
    match (a, b)
    case (Scalar(k, _), Scalar(l, _)) => k == l
    case (Sized(k, _), Sized(l, _)) => k == l
    case _ => false
  }

  /** One (key, value) pair: fill, keep, replace by a greater one, or TypeError. */
  function AddPair(data: Data, k: string, v: Value): Option<Data> {
    if k !in data || data[k].Null? then Some(data[k := v])
    else if v.Null? then Some(data)
    else if !SameType(v, data[k]) then None
    else if Measure(v) > Measure(data[k]) then Some(data[k := v])
    else Some(data)
  }

  /** The pairs in order; None once a pair raised. */
  function AddPairs(data: Data, pairs: seq<(string, Value)>): Option<Data> {
    if pairs == [] then Some(data)
    else
      var front := AddPairs(data, pairs[..|pairs| - 1]);
      if front.None? then None else AddPair(front.value, pairs[|pairs| - 1].0, pairs[|pairs| - 1].1)
  }

  // ---------- the summary a fold computes ----------

  /** No two non-None values of one key have different types. */
  ghost predicate Consistent(pairs: seq<(string, Value)>) {
    forall p, q :: p in pairs && q in pairs && p.0 == q.0 && !p.1.Null? && !q.1.Null? ==> SameType(p.1, q.1)
  }

  /** `data` has exactly the keys of the pairs, and for each the greatest of its values. */
  ghost predicate Summarises(data: Data, pairs: seq<(string, Value)>) {
    && (forall p :: p in pairs ==> p.0 in data)
    && (forall k :: k in data ==> (k, data[k]) in pairs)
    && (forall p :: p in pairs && !p.1.Null? ==> SameType(p.1, data[p.0]) && Measure(p.1) <= Measure(data[p.0]))
  }

  lemma SummariseOneMore(data: Data, pairs: seq<(string, Value)>, k: string, v: Value)
    requires Summarises(data, pairs)
    ensures AddPair(data, k, v).Some? ==> Summarises(AddPair(data, k, v).value, pairs + [(k, v)])
    ensures AddPair(data, k, v).None? ==> !Consistent(pairs + [(k, v)])
  {
    var more := pairs + [(k, v)];
    assert more[|pairs|] == (k, v);
    assert forall p :: p in more <==> p in pairs || p == (k, v);
    if k in data {
      assert (k, data[k]) in pairs;
      assert (k, data[k]) in more;
    }
    var r := AddPair(data, k, v);
    if r.None? {
      assert !SameType((k, v).1, (k, data[k]).1);
    } else {
      forall p | p in more && !p.1.Null?
        ensures SameType(p.1, r.value[p.0]) && Measure(p.1) <= Measure(r.value[p.0])
      {
        if p in pairs {
          assert SameType(p.1, data[p.0]) && Measure(p.1) <= Measure(data[p.0]);
        }
      }
    }
  }

  lemma SummaryIsConsistent(data: Data, pairs: seq<(string, Value)>)
    requires Summarises(data, pairs)
    ensures Consistent(pairs)
  {
  }

  /** The merge raises exactly when two values of one key clash in type, in whatever order they
      come; otherwise it ends with the union of the keys and the greatest value of each. */
  lemma {:induction false} AddSummarises(pairs: seq<(string, Value)>)
    ensures AddPairs(map[], pairs).Some? <==> Consistent(pairs)
    ensures AddPairs(map[], pairs).Some? ==> Summarises(AddPairs(map[], pairs).value, pairs)
  {
    if pairs != [] {
      var front, last := pairs[..|pairs| - 1], pairs[|pairs| - 1];
      AddSummarises(front);
      assert pairs == front + [last] && last == (last.0, last.1);
      var before := AddPairs(map[], front);
      if before.Some? {
        SummariseOneMore(before.value, front, last.0, last.1);
        if AddPair(before.value, last.0, last.1).Some? {
          SummaryIsConsistent(AddPair(before.value, last.0, last.1).value, pairs);
        }
      } else {
        forall p | p in front ensures p in pairs {}
      }
    }
  }

  /** Two items agree up to the choice between equally long sized values. */
  ghost predicate Agree(a: Data, b: Data) {
    && a.Keys == b.Keys
    && forall k :: k in a ==>
         && (a[k].Null? <==> b[k].Null?)
         && (!a[k].Null? ==> SameType(a[k], b[k]) && Measure(a[k]) == Measure(b[k]))
         && (a[k].Scalar? ==> a[k] == b[k])
  }

  /** Arrival order does not matter: any order of the same pairs raises alike, and ends with the
      same keys, the same scalars and equally long sized values. */
  lemma OrderDoesNotMatter(a: seq<(string, Value)>, b: seq<(string, Value)>)
    requires forall p :: p in a <==> p in b
    ensures AddPairs(map[], a).Some? <==> AddPairs(map[], b).Some?
    ensures AddPairs(map[], a).Some? ==> Agree(AddPairs(map[], a).value, AddPairs(map[], b).value)
  {
    AddSummarises(a);
    AddSummarises(b);
    assert Consistent(a) <==> Consistent(b);
    if Consistent(a) {
      SummariesAgree(AddPairs(map[], a).value, AddPairs(map[], b).value, a, b);
    }
  }

  lemma SummariesAgree(x: Data, y: Data, a: seq<(string, Value)>, b: seq<(string, Value)>)
    requires forall p :: p in a <==> p in b
    requires Summarises(x, a) && Summarises(y, b)
    ensures Agree(x, y)
  {
    forall k | k in x ensures k in y {
      assert (k, x[k]) in b;
    }
    forall k | k in y ensures k in x {
      assert (k, y[k]) in a;
    }
    forall k | k in x
      ensures x[k].Null? <==> y[k].Null?
      ensures !x[k].Null? ==> SameType(x[k], y[k]) && Measure(x[k]) == Measure(y[k])
    {
      var p, q := (k, x[k]), (k, y[k]);
      assert p in a && p in b && q in b && q in a;
      assert !p.1.Null? ==> SameType(p.1, y[p.0]) && Measure(p.1) <= Measure(y[p.0]);
      assert !q.1.Null? ==> SameType(q.1, x[q.0]) && Measure(q.1) <= Measure(x[q.0]);
    }
  }

  /** Merging any of the values again changes nothing. */
  lemma MergingAgainChangesNothing(pairs: seq<(string, Value)>, p: (string, Value))
    requires Consistent(pairs) && p in pairs
    ensures AddPairs(map[], pairs).Some?
    ensures AddPair(AddPairs(map[], pairs).value, p.0, p.1) == AddPairs(map[], pairs)
  {
    AddSummarises(pairs);
    var data := AddPairs(map[], pairs).value;
    if !p.1.Null? {
      assert SameType(p.1, data[p.0]) && Measure(p.1) <= Measure(data[p.0]);
    } else if data[p.0].Null? {
      assert data[p.0 := p.1] == data;
    }
  }

  /** What the merge leaves under a key: the greatest of its scalars, or one of the longest of its
      sized values, of the one type they have; None only if it has no other value. */
  lemma MergedValue(pairs: seq<(string, Value)>, k: string)
    requires AddPairs(map[], pairs).Some?
    ensures var data := AddPairs(map[], pairs).value;
      && (k in data <==> exists v :: (k, v) in pairs)
      && (k in data ==> (k, data[k]) in pairs)
      && (k in data && data[k].Null? ==> forall v :: (k, v) in pairs ==> v == Null)
      && (k in data && data[k].Scalar? ==>
            forall v :: (k, v) in pairs && v != Null ==> v.Scalar? && v.kind == data[k].kind && v.n <= data[k].n)
      && (k in data && data[k].Sized? ==>
            forall v :: (k, v) in pairs && v != Null ==> v.Sized? && v.kind == data[k].kind && |v.content| <= |data[k].content|)
  {
    AddSummarises(pairs);
    var data := AddPairs(map[], pairs).value;
    forall v | (k, v) in pairs
      ensures k in data && (v != Null ==> SameType(v, data[k]) && Measure(v) <= Measure(data[k]))
    {
      var p := (k, v);
      assert p in pairs;
    }
  }

  /** It raises exactly if some key has two values, neither of them None, of different types. */
  lemma RaisesOnAClash(pairs: seq<(string, Value)>)
    ensures AddPairs(map[], pairs).None? <==>
      exists k, v, w :: (k, v) in pairs && (k, w) in pairs && Clash(v, w)
  {
    AddSummarises(pairs);
    if k, v, w :| (k, v) in pairs && (k, w) in pairs && Clash(v, w) {
      var p, q := (k, v), (k, w);
      assert p in pairs && q in pairs && !SameType(p.1, q.1);
    }
    if !Consistent(pairs) {
      var p, q :| p in pairs && q in pairs && p.0 == q.0 && !p.1.Null? && !q.1.Null? && !SameType(p.1, q.1);
      assert (p.0, p.1) == p && (p.0, q.1) == q && Clash(p.1, q.1);
    }
  }

  predicate Clash(v: Value, w: Value) {
    || (v.Scalar? && w.Scalar? && v.kind != w.kind)
    || (v.Sized? && w.Sized? && v.kind != w.kind)
    || (v.Scalar? && w.Sized?) || (v.Sized? && w.Scalar?)
  }

  // ---------- the object ----------

  class Item {
    var data: Data

    constructor ()
      ensures data == map[]
    {
      data := map[];
    }

    /** self + pairs: a TypeError leaves the pairs before it merged. */
    method Add(pairs: seq<(string, Value)>) returns (raised: bool)
      modifies this
      ensures raised <==> AddPairs(old(data), pairs).None?
      ensures !raised ==> Some(data) == AddPairs(old(data), pairs)
      ensures raised ==> exists n :: 0 <= n < |pairs| && AddPairs(old(data), pairs[..n]) == Some(data)
    {
      assert pairs[..0] == [];
      for i := 0 to |pairs|
        invariant AddPairs(old(data), pairs[..i]) == Some(data)
      {
        var (k, v) := pairs[i];
        assert pairs[..i + 1][..i] == pairs[..i];
        if k !in data || data[k].Null? {
          data := data[k := v];
        } else if !v.Null? {
          if !SameType(v, data[k]) {
            StaysRaised(old(data), pairs, i + 1);
            return true;
          }
          if Measure(v) > Measure(data[k]) {
            data := data[k := v];
          }
        }
      }
      assert pairs[..|pairs|] == pairs;
      raised := false;
    }
  }

  lemma {:induction false} StaysRaised(data: Data, pairs: seq<(string, Value)>, n: nat)
    requires n <= |pairs| && AddPairs(data, pairs[..n]).None?
    ensures AddPairs(data, pairs).None?
    decreases |pairs| - n
  {
    if n < |pairs| {
      assert pairs[..n + 1][..n] == pairs[..n];
      StaysRaised(data, pairs, n + 1);
    } else {
      assert pairs[..n] == pairs;
    }
  }

  function Joined(results: seq<seq<(string, Value)>>): seq<(string, Value)> {
    if results == [] then [] else Joined(results[..|results| - 1]) + results[|results| - 1]
  }

  lemma {:induction false} AddJoined(data: Data, a: seq<(string, Value)>, b: seq<(string, Value)>)
    ensures AddPairs(data, a + b) == if AddPairs(data, a).None? then None else AddPairs(AddPairs(data, a).value, b)
  {
    if b == [] {
      assert a + b == a;
    } else {
      AddJoined(data, a, b[..|b| - 1]);
      assert (a + b)[..|a + b| - 1] == a + b[..|b| - 1];
    }
  }

  /** The fold over the provider queue: `out += r` for every result, until one raises. */
  method FoldResults(results: seq<seq<(string, Value)>>) returns (out: Item, raised: bool)
    ensures fresh(out)
    ensures raised <==> !Consistent(Joined(results))
    ensures !raised ==> Summarises(out.data, Joined(results))
  {
    out := new Item();
    assert results[..0] == [];
    for i := 0 to |results|
      invariant fresh(out)
      invariant AddPairs(map[], Joined(results[..i])) == Some(out.data)
    {
      assert results[..i + 1][..i] == results[..i];
      AddJoined(map[], Joined(results[..i]), results[i]);
      raised := out.Add(results[i]);
      if raised {
        JoinedStaysRaised(results, i + 1);
        AddSummarises(Joined(results));
        return;
      }
    }
    assert results[..|results|] == results;
    AddSummarises(Joined(results));
    raised := false;
  }

  lemma {:induction false} JoinedStaysRaised(results: seq<seq<(string, Value)>>, n: nat)
    requires n <= |results| && AddPairs(map[], Joined(results[..n])).None?
    ensures AddPairs(map[], Joined(results)).None?
    decreases |results| - n
  {
    if n < |results| {
      assert results[..n + 1][..n] == results[..n];
      AddJoined(map[], Joined(results[..n]), results[n]);
      JoinedStaysRaised(results, n + 1);
    } else {
      assert results[..n] == results;
    }
  }
}
