/** The merge sort behind SortedDict.quick_sort in adapters/persistence/models.py. */
module SortedDict {
  import opened Wrappers
  import opened Ordering

  /** The merge of two sorted runs: the left item goes first only when it compares as
      `reversed`; on a tie the right item does. */
  function Merge<T>(keys: seq<SortKey<T>>, l: seq<T>, r: seq<T>, reversed: bool): seq<T>
    decreases |l| + |r|
  {
    if l == [] then r
    else if r == [] then l
    else if Compare(keys, l[0], r[0]) != Some(reversed) then [r[0]] + Merge(keys, l, r[1..], reversed)
    else [l[0]] + Merge(keys, l[1..], r, reversed)
  }

  function Sort<T>(keys: seq<SortKey<T>>, s: seq<T>, reversed: bool): seq<T>
    decreases |s|
  {
    if |s| <= 1 then s
    else Merge(keys, Sort(keys, s[..|s| / 2], reversed), Sort(keys, s[|s| / 2..], reversed), reversed)
  }

  /** Sorting in reverse is sorting by the flipped keys. */
  lemma {:induction false} MergeFlips<T>(keys: seq<SortKey<T>>, l: seq<T>, r: seq<T>)
    ensures Merge(keys, l, r, true) == Merge(Flip(keys), l, r, false)
    decreases |l| + |r|
  {
    if l != [] && r != [] {
      FlipOpposes(keys, l[0], r[0]);
      if Compare(keys, l[0], r[0]) != Some(true) {
        MergeFlips(keys, l, r[1..]);
      } else {
        MergeFlips(keys, l[1..], r);
      }
    }
  }

  lemma {:induction false} SortFlips<T>(keys: seq<SortKey<T>>, s: seq<T>)
    ensures Sort(keys, s, true) == Sort(Flip(keys), s, false)
    decreases |s|
  {
    if |s| > 1 {
      SortFlips(keys, s[..|s| / 2]);
      SortFlips(keys, s[|s| / 2..]);
      MergeFlips(keys, Sort(keys, s[..|s| / 2], true), Sort(keys, s[|s| / 2..], true));
    }
  }

  /** The keys whose order a sort in this direction follows. */
  function Directed<T>(keys: seq<SortKey<T>>, reversed: bool): seq<SortKey<T>> {
    if reversed then Flip(keys) else keys
  }

  // ---------- sorted, a permutation, ties reversed ----------

  lemma {:induction false} MergePermutes<T>(keys: seq<SortKey<T>>, l: seq<T>, r: seq<T>)
    ensures multiset(Merge(keys, l, r, false)) == multiset(l) + multiset(r)
    decreases |l| + |r|
  {
    if l != [] && r != [] {
      assert l == [l[0]] + l[1..] && r == [r[0]] + r[1..];
      if Compare(keys, l[0], r[0]) != Some(false) {
        MergePermutes(keys, l, r[1..]);
      } else {
        MergePermutes(keys, l[1..], r);
      }
    }
  }

  ghost predicate NoneBelow<T>(keys: seq<SortKey<T>>, x: T, s: seq<T>) {
    forall i :: 0 <= i < |s| ==> !Above(keys, x, s[i])
  }

  lemma {:induction false} MergeNoneBelow<T>(keys: seq<SortKey<T>>, l: seq<T>, r: seq<T>, x: T)
    requires NoneBelow(keys, x, l) && NoneBelow(keys, x, r)
    ensures NoneBelow(keys, x, Merge(keys, l, r, false))
    decreases |l| + |r|
  {
    if l != [] && r != [] {
      if Compare(keys, l[0], r[0]) != Some(false) {
        MergeNoneBelow(keys, l, r[1..], x);
      } else {
        MergeNoneBelow(keys, l[1..], r, x);
      }
    }
  }

  lemma SortedCons<T>(keys: seq<SortKey<T>>, x: T, s: seq<T>)
    requires Sorted(keys, s) && NoneBelow(keys, x, s)
    ensures Sorted(keys, [x] + s)
  {
  }

  /** x below the head of a sorted list is below the whole list. */
  lemma BelowHead<T>(keys: seq<SortKey<T>>, x: T, s: seq<T>)
    requires Sorted(keys, s) && s != [] && !Above(keys, x, s[0])
    ensures NoneBelow(keys, x, s)
  {
    forall i | 0 <= i < |s| ensures !Above(keys, x, s[i]) {
      StrictWeakOrder(keys, x, s[0], s[i]);
    }
  }

  lemma {:induction false} MergeSorts<T>(keys: seq<SortKey<T>>, l: seq<T>, r: seq<T>)
    requires Sorted(keys, l) && Sorted(keys, r)
    ensures Sorted(keys, Merge(keys, l, r, false))
    decreases |l| + |r|
  {
    if l != [] && r != [] {
      StrictWeakOrder(keys, l[0], r[0], r[0]);
      StrictWeakOrder(keys, r[0], r[0], r[0]);
      StrictWeakOrder(keys, l[0], l[0], l[0]);
      if Compare(keys, l[0], r[0]) != Some(false) {
        MergeSorts(keys, l, r[1..]);
        BelowHead(keys, r[0], l);
        BelowHead(keys, r[0], r);
        MergeNoneBelow(keys, l, r[1..], r[0]);
        SortedCons(keys, r[0], Merge(keys, l, r[1..], false));
      } else {
        MergeSorts(keys, l[1..], r);
        BelowHead(keys, l[0], l);
        BelowHead(keys, l[0], r);
        MergeNoneBelow(keys, l[1..], r, l[0]);
        SortedCons(keys, l[0], Merge(keys, l[1..], r, false));
      }
    }
  }

  lemma {:induction false} MergeTies<T>(keys: seq<SortKey<T>>, l: seq<T>, r: seq<T>, x: T)
    requires Sorted(keys, l) && Sorted(keys, r)
    ensures Ties(keys, x, Merge(keys, l, r, false)) == Ties(keys, x, r) + Ties(keys, x, l)
    decreases |l| + |r|
  {
    if l != [] && r != [] {
      if Compare(keys, l[0], r[0]) != Some(false) {
        MergeTies(keys, l, r[1..], x);
        TiesCons(keys, x, r[0], Merge(keys, l, r[1..], false));
      } else {
        MergeTies(keys, l[1..], r, x);
        TiesCons(keys, x, l[0], Merge(keys, l[1..], r, false));
        if Tie(keys, x, l[0]) {
          NothingTies(keys, x, l[0], r);
        }
      }
    }
  }

  lemma TiesCons<T>(keys: seq<SortKey<T>>, x: T, y: T, s: seq<T>)
    ensures Ties(keys, x, [y] + s) == if Tie(keys, x, y) then [y] + Ties(keys, x, s) else Ties(keys, x, s)
  {
    assert ([y] + s)[1..] == s;
  }

  /** What ties with an element strictly below a sorted list ties with nothing in the list. */
  lemma NothingTies<T>(keys: seq<SortKey<T>>, x: T, low: T, s: seq<T>)
    requires Sorted(keys, s) && s != [] && Tie(keys, x, low) && Compare(keys, low, s[0]) == Some(false)
    ensures Ties(keys, x, s) == []
  {
    forall i | 0 <= i < |s| ensures !Tie(keys, x, s[i]) {
      StrictWeakOrder(keys, x, low, s[i]);
      StrictWeakOrder(keys, low, s[i], s[0]);
      StrictWeakOrder(keys, s[0], s[i], low);
      StrictWeakOrder(keys, low, s[0], s[0]);
    }
    NoTies(keys, x, s);
  }

  lemma {:induction false} SortsForward<T>(keys: seq<SortKey<T>>, s: seq<T>, x: T)
    ensures Sorted(keys, Sort(keys, s, false))
    ensures multiset(Sort(keys, s, false)) == multiset(s)
    ensures Ties(keys, x, Sort(keys, s, false)) == Reverse(Ties(keys, x, s))
    decreases |s|
  {
    if |s| > 1 {
      var a, b := s[..|s| / 2], s[|s| / 2..];
      assert s == a + b;
      SortsForward(keys, a, x);
      SortsForward(keys, b, x);
      MergeSorts(keys, Sort(keys, a, false), Sort(keys, b, false));
      MergePermutes(keys, Sort(keys, a, false), Sort(keys, b, false));
      MergeTies(keys, Sort(keys, a, false), Sort(keys, b, false), x);
      TiesAppend(keys, x, a, b);
      ReverseAppend(Ties(keys, x, a), Ties(keys, x, b));
    }
  }

  /** In either direction the sort returns a sorted permutation, with every tie class in the
      reverse of its old order. */
  lemma SortIsSortedPermutation<T>(keys: seq<SortKey<T>>, s: seq<T>, reversed: bool, x: T)
    ensures Sorted(Directed(keys, reversed), Sort(keys, s, reversed))
    ensures multiset(Sort(keys, s, reversed)) == multiset(s)
    ensures Ties(Directed(keys, reversed), x, Sort(keys, s, reversed)) == Reverse(Ties(Directed(keys, reversed), x, s))
  {
    if reversed {
      SortFlips(keys, s);
    }
    SortsForward(Directed(keys, reversed), s, x);
  }

  /** keys() and values() each sort again. They list the same order exactly when every tie
      class reads the same backwards; otherwise they do not pair up. */
  lemma SortingAgain<T(!new)>(keys: seq<SortKey<T>>, s: seq<T>)
    ensures var once := Sort(keys, s, false);
      Sort(keys, once, false) == once <==> forall x :: Ties(keys, x, s) == Reverse(Ties(keys, x, s))
  {
    var once := Sort(keys, s, false);
    var twice := Sort(keys, once, false);
    forall x ensures Ties(keys, x, once) == Reverse(Ties(keys, x, s)) && Ties(keys, x, twice) == Ties(keys, x, s)
                  && Sorted(keys, once) && Sorted(keys, twice)
    {
      SortsForward(keys, s, x);
      SortsForward(keys, once, x);
      ReverseTwice(Ties(keys, x, s));
    }
    if forall x :: Ties(keys, x, s) == Reverse(Ties(keys, x, s)) {
      SortedBoth(keys, s, once, twice);
      SortedUnique(keys, twice, once);
    } else {
      var x :| Ties(keys, x, s) != Reverse(Ties(keys, x, s));
      SortsForward(keys, s, x);
      SortsForward(keys, once, x);
      ReverseTwice(Ties(keys, x, s));
      assert Ties(keys, x, once) != Ties(keys, x, twice);
      if twice == once {
        assert false;
      }
    }
  }

  lemma SortedBoth<T>(keys: seq<SortKey<T>>, s: seq<T>, once: seq<T>, twice: seq<T>)
    requires once == Sort(keys, s, false) && twice == Sort(keys, once, false)
    ensures Sorted(keys, once) && Sorted(keys, twice)
  {
    if s != [] {
      SortsForward(keys, s, s[0]);
      SortsForward(keys, once, s[0]);
    }
  }

  /** A dictionary made without keys ties everything: reading it turns it around. */
  lemma {:induction false} WithoutKeysEveryReadReverses<T>(s: seq<T>)
    ensures Sort([], s, false) == Reverse(s)
    decreases |s|
  {
    if |s| == 1 {
      assert s[1..] == [];
    } else if |s| > 1 {
      var a, b := s[..|s| / 2], s[|s| / 2..];
      WithoutKeysEveryReadReverses(a);
      WithoutKeysEveryReadReverses(b);
      AllTied(Reverse(a), Reverse(b));
      ReverseAppend(a, b);
      assert s == a + b;
    }
  }

  lemma {:induction false} AllTied<T>(l: seq<T>, r: seq<T>)
    ensures Merge([], l, r, false) == r + l
    decreases |r|
  {
    if l != [] && r != [] {
      AllTied(l, r[1..]);
      assert r == [r[0]] + r[1..];
    }
  }

  lemma AppendOne<T>(out: seq<T>, s: seq<T>)
    requires s != []
    ensures out + s == out + [s[0]] + s[1..]
  {
  }

  // ---------- the object ----------

  lemma Halves<T>(data: seq<T>, start: nat, stop: nat)
    requires start <= stop <= |data|
    ensures var s := data[start..stop]; var middle := (start + stop) / 2;
      s[..|s| / 2] == data[start..middle] && s[|s| / 2..] == data[middle..stop]
  {
    assert (start + stop) / 2 == start + (stop - start) / 2;
  }

  class SortedDict<T> {
    const keys: seq<SortKey<T>>
    var dataList: seq<T>

    constructor (keys: seq<SortKey<T>>)
      ensures this.keys == keys && dataList == []
    {
      this.keys, dataList := keys, [];
    }

    /** The generator's while loop over its two halves. */
    method MergeRuns(left: seq<T>, right: seq<T>, reversed: bool) returns (out: seq<T>)
      ensures out == Merge(keys, left, right, reversed)
    {
      out := [];
      var i, j := 0, 0;
      while i < |left| || j < |right|
        invariant 0 <= i <= |left| && 0 <= j <= |right|
        invariant out + Merge(keys, left[i..], right[j..], reversed) == Merge(keys, left, right, reversed)
        decreases |left| - i + |right| - j
      {
        ghost var l, r := left[i..], right[j..];
        assert i < |left| ==> l[1..] == left[i + 1..];
        assert j < |right| ==> r[1..] == right[j + 1..];
        if i == |left| {
          AppendOne(out, r);
          out, j := out + [right[j]], j + 1;
        } else if j == |right| {
          AppendOne(out, l);
          out, i := out + [left[i]], i + 1;
        } else {
          var comp := Compare(keys, left[i], right[j]);
          if comp != Some(reversed) {
            AppendOne(out, Merge(keys, l, r, reversed));
            out, j := out + [right[j]], j + 1;
          } else {
            AppendOne(out, Merge(keys, l, r, reversed));
            out, i := out + [left[i]], i + 1;
          }
        }
      }
    }

    /** The generator over [start, stop), drained: both halves are non-empty at every split. */
    method Iterate(start: nat, stop: nat, reversed: bool) returns (out: seq<T>)
      requires start <= stop <= |dataList|
      ensures out == Sort(keys, dataList[start..stop], reversed)
      decreases stop - start
    {
      if start == stop {
        return [];
      }
      if stop - start == 1 {
        return [dataList[start]];
      }
      var middle := (start + stop) / 2;
      var left := Iterate(start, middle, reversed);
      var right := Iterate(middle, stop, reversed);
      Halves(dataList, start, stop);
      out := MergeRuns(left, right, reversed);
    }

    method QuickSort(reversed: bool)
      modifies this`dataList
      ensures dataList == Sort(keys, old(dataList), reversed)
    {
      var sorted := Iterate(0, |dataList|, reversed);
      assert dataList[0..|dataList|] == dataList;
      dataList := sorted;
    }
  }
}
