/** SortedList of adapters/persistence/models.py: a list kept sorted by binary insertion. */
module SortedList {
  import opened Wrappers
  import opened Ordering
  import SortedDict

  /** `after` is `before` with e at position p: everything in front is strictly below e and
      nothing behind is. */
  ghost predicate Inserted<T>(keys: seq<SortKey<T>>, before: seq<T>, e: T, p: nat, after: seq<T>) {
    && p <= |before| && after == before[..p] + [e] + before[p..]
    && (forall i :: 0 <= i < p ==> Above(keys, e, before[i]))
    && (forall i :: p <= i < |before| ==> !Above(keys, e, before[i]))
  }

  lemma InsertedKeepsSorted<T>(keys: seq<SortKey<T>>, before: seq<T>, e: T, p: nat, after: seq<T>)
    requires Sorted(keys, before) && Inserted(keys, before, e, p, after)
    ensures Sorted(keys, after)
    ensures multiset(after) == multiset(before) + multiset{e}
  {
    assert before == before[..p] + before[p..];
    forall i, j | 0 <= i < j < |after| ensures !Above(keys, after[i], after[j]) {
      StrictWeakOrder(keys, after[i], after[j], e);
    }
  }

  /** Nothing strictly below an element ties with what ties with the element. */
  lemma NoTiesBelow<T>(keys: seq<SortKey<T>>, front: seq<T>, e: T, x: T)
    requires Tie(keys, x, e) && forall i :: 0 <= i < |front| ==> Above(keys, e, front[i])
    ensures Ties(keys, x, front) == []
  {
    forall i | 0 <= i < |front| ensures !Tie(keys, x, front[i]) {
      StrictWeakOrder(keys, x, e, front[i]);
    }
    NoTies(keys, x, front);
  }

  /** A later equal element goes in front of the earlier ones. */
  lemma InsertedTies<T>(keys: seq<SortKey<T>>, before: seq<T>, e: T, p: nat, after: seq<T>, x: T)
    requires Inserted(keys, before, e, p, after)
    ensures Ties(keys, x, after) == if Tie(keys, x, e) then [e] + Ties(keys, x, before) else Ties(keys, x, before)
  {
    var front, back := before[..p], before[p..];
    if Tie(keys, x, e) {
      NoTiesBelow(keys, front, e, x);
    }
    assert after == front + ([e] + back) && before == front + back;
    TiesBetween(keys, x, front, e, back);
  }

  lemma TiesBetween<T>(keys: seq<SortKey<T>>, x: T, front: seq<T>, e: T, back: seq<T>)
    requires Tie(keys, x, e) ==> Ties(keys, x, front) == []
    ensures Ties(keys, x, front + ([e] + back))
         == if Tie(keys, x, e) then [e] + Ties(keys, x, front + back) else Ties(keys, x, front + back)
  {
    TiesAppend(keys, x, front, [e] + back);
    TiesAppend(keys, x, front, back);
    SortedDict.TiesCons(keys, x, e, back);
    NothingInFront(Ties(keys, x, front), e, Ties(keys, x, back));
  }

  lemma NothingInFront<T>(front: seq<T>, e: T, back: seq<T>)
    ensures front == [] ==> front + ([e] + back) == [e] + (front + back)
  {
  }

  /** The plain insertion that the binary one stands for: before the first element that e is
      not above. */
  function InsertOne<T>(keys: seq<SortKey<T>>, s: seq<T>, e: T): seq<T> {
    if s == [] || !Above(keys, e, s[0]) then [e] + s else [s[0]] + InsertOne(keys, s[1..], e)
  }

  function InsertAll<T>(keys: seq<SortKey<T>>, s: seq<T>, es: seq<T>): seq<T> {
    if es == [] then s else InsertOne(keys, InsertAll(keys, s, es[..|es| - 1]), es[|es| - 1])
  }

  lemma {:induction false} InsertedIsInsertOne<T>(keys: seq<SortKey<T>>, before: seq<T>, e: T, p: nat, after: seq<T>)
    requires Inserted(keys, before, e, p, after)
    ensures after == InsertOne(keys, before, e)
  {
    if p == 0 {
      assert before[..0] == [] && before[0..] == before;
    } else {
      assert before[1..][..p - 1] == before[1..p] && before[1..][p - 1..] == before[p..];
      assert before[..p] == [before[0]] + before[1..p];
      InsertedIsInsertOne(keys, before[1..], e, p - 1, before[1..p] + [e] + before[p..]);
    }
  }

  lemma {:induction false} InsertOnePosition<T>(keys: seq<SortKey<T>>, s: seq<T>, e: T) returns (p: nat)
    requires Sorted(keys, s)
    ensures Inserted(keys, s, e, p, InsertOne(keys, s, e))
  {
    if s == [] || !Above(keys, e, s[0]) {
      p := 0;
      forall i | 0 <= i < |s| ensures !Above(keys, e, s[i]) {
        StrictWeakOrder(keys, e, s[0], s[i]);
      }
    } else {
      var q := InsertOnePosition(keys, s[1..], e);
      p := q + 1;
      assert s[..p] == [s[0]] + s[1..][..q] && s[p..] == s[1..][q..];
      forall i | 0 <= i < p ensures Above(keys, e, s[i]) {
        assert i > 0 ==> s[i] == s[1..][i - 1];
      }
      forall i | p <= i < |s| ensures !Above(keys, e, s[i]) {
        assert s[i] == s[1..][i - 1];
      }
    }
  }

  /** `list` holds the elements of `es`, sorted, with the ties with x turned around. */
  ghost predicate Arranges<T>(keys: seq<SortKey<T>>, es: seq<T>, list: seq<T>, x: T) {
    && Sorted(keys, list) && multiset(list) == multiset(es)
    && Ties(keys, x, list) == Reverse(Ties(keys, x, es))
  }

  lemma ArrangesOneMore<T>(keys: seq<SortKey<T>>, es: seq<T>, list: seq<T>, e: T, x: T)
    requires Arranges(keys, es, list, x)
    ensures Arranges(keys, es + [e], InsertOne(keys, list, e), x)
  {
    var p := InsertOnePosition(keys, list, e);
    InsertedKeepsSorted(keys, list, e, p, InsertOne(keys, list, e));
    InsertedTies(keys, list, e, p, InsertOne(keys, list, e), x);
    TiesAppend(keys, x, es, [e]);
    ReverseAppend(Ties(keys, x, es), Ties(keys, x, [e]));
    if Tie(keys, x, e) {
      assert Ties(keys, x, [e]) == [e] && Reverse([e]) == [e];
    } else {
      assert Ties(keys, x, [e]) == [];
    }
  }

  lemma InsertOneKeeps<T>(keys: seq<SortKey<T>>, s: seq<T>, e: T)
    requires Sorted(keys, s)
    ensures Sorted(keys, InsertOne(keys, s, e)) && multiset(InsertOne(keys, s, e)) == multiset(s) + multiset{e}
  {
    var p := InsertOnePosition(keys, s, e);
    InsertedKeepsSorted(keys, s, e, p, InsertOne(keys, s, e));
  }

  lemma CountedOneMore<T>(s: seq<T>, front: seq<T>, mid: seq<T>, last: T, es: seq<T>, after: seq<T>)
    requires multiset(mid) == multiset(s) + multiset(front) && multiset(after) == multiset(mid) + multiset{last}
    requires |es| == |front| + 1 && es[..|front|] == front && es[|front|] == last
    ensures multiset(after) == multiset(s) + multiset(es)
  {
    assert es == front + [last];
  }

  lemma {:induction false} InsertAllKeeps<T>(keys: seq<SortKey<T>>, s: seq<T>, es: seq<T>)
    requires Sorted(keys, s)
    ensures Sorted(keys, InsertAll(keys, s, es)) && multiset(InsertAll(keys, s, es)) == multiset(s) + multiset(es)
  {
    if es != [] {
      var front, last := es[..|es| - 1], es[|es| - 1];
      InsertAllKeeps(keys, s, front);
      var mid, after := InsertAll(keys, s, front), InsertAll(keys, s, es);
      InsertOneKeeps(keys, mid, last);
      CountedOneMore(s, front, mid, last, es, after);
    }
  }

  lemma {:induction false} InsertAllArranges<T>(keys: seq<SortKey<T>>, es: seq<T>, x: T)
    ensures Arranges(keys, es, InsertAll(keys, [], es), x)
  {
    if es != [] {
      InsertAllArranges(keys, es[..|es| - 1], x);
      ArrangesOneMore(keys, es[..|es| - 1], InsertAll(keys, [], es[..|es| - 1]), es[|es| - 1], x);
      assert es == es[..|es| - 1] + [es[|es| - 1]];
    }
  }

  /** Appending elements one by one to an empty list gives the very list the merge sort gives. */
  lemma InsertAllEqualsSort<T(!new)>(keys: seq<SortKey<T>>, es: seq<T>)
    ensures InsertAll(keys, [], es) == SortedDict.Sort(keys, es, false)
  {
    if es != [] {
      InsertAllArranges(keys, es, es[0]);
      SortedDict.SortsForward(keys, es, es[0]);
      forall x ensures Ties(keys, x, InsertAll(keys, [], es)) == Ties(keys, x, SortedDict.Sort(keys, es, false)) {
        InsertAllArranges(keys, es, x);
        SortedDict.SortsForward(keys, es, x);
      }
      SortedUnique(keys, InsertAll(keys, [], es), SortedDict.Sort(keys, es, false));
    }
  }

  /** binary_search on [start, stop); None stands for False. */
  function BinarySearch<T>(keys: seq<SortKey<T>>, s: seq<T>, e: T, start: nat, stop: nat): Option<nat>
    requires start <= stop <= |s| && start < |s|
    decreases stop - start
  {
    var middle := (start + stop) / 2;
    var comp := Compare(keys, e, s[middle]);
    if comp == None then Some(middle)
    else if comp == Some(true) then
      if middle == start then None else BinarySearch(keys, s, e, middle, stop)
    else
      if middle == stop then None else BinarySearch(keys, s, e, start, middle)
  }

  /** The search finds an equal element exactly when the sorted list has one. */
  lemma {:induction false} SearchIsExact<T>(keys: seq<SortKey<T>>, s: seq<T>, e: T, start: nat, stop: nat)
    requires start <= stop <= |s| && start < |s| && Sorted(keys, s)
    requires forall i :: 0 <= i < start ==> Above(keys, e, s[i])
    requires forall i :: stop <= i < |s| ==> Compare(keys, e, s[i]) == Some(false)
    ensures var r := BinarySearch(keys, s, e, start, stop);
      && (r.Some? <==> exists i :: 0 <= i < |s| && Tie(keys, e, s[i]))
      && (r.Some? ==> r.value < |s| && Tie(keys, e, s[r.value]))
    decreases stop - start
  {
    var middle := (start + stop) / 2;
    match Compare(keys, e, s[middle]) {
      case None =>
      case Some(above) =>
        if above {
          AllBelow(keys, s, e, middle);
          if middle != start {
            SearchIsExact(keys, s, e, middle, stop);
          }
        } else {
          AllAbove(keys, s, e, middle);
          if middle != stop {
            SearchIsExact(keys, s, e, start, middle);
          }
        }
    }
  }

  lemma AllBelow<T>(keys: seq<SortKey<T>>, s: seq<T>, e: T, middle: nat)
    requires Sorted(keys, s) && middle < |s| && Above(keys, e, s[middle])
    ensures forall i :: 0 <= i <= middle ==> Above(keys, e, s[i])
  {
    forall i | 0 <= i <= middle ensures Above(keys, e, s[i]) {
      StrictWeakOrder(keys, e, s[i], s[middle]);
    }
  }

  lemma AllAbove<T>(keys: seq<SortKey<T>>, s: seq<T>, e: T, middle: nat)
    requires Sorted(keys, s) && middle < |s| && Compare(keys, e, s[middle]) == Some(false)
    ensures forall i :: middle <= i < |s| ==> Compare(keys, e, s[i]) == Some(false)
  {
    forall i | middle <= i < |s| ensures Compare(keys, e, s[i]) == Some(false) {
      StrictWeakOrder(keys, e, s[middle], e);
      StrictWeakOrder(keys, e, s[i], s[middle]);
      StrictWeakOrder(keys, s[middle], s[i], e);
    }
  }

  class SortedList<T> {
    const keys: seq<SortKey<T>>
    var elems: seq<T>

    constructor (keys: seq<SortKey<T>>)
      ensures this.keys == keys && elems == []
    {
      this.keys, elems := keys, [];
    }

    method Insert(p: nat, e: T)
      requires p <= |elems|
      modifies this`elems
      ensures elems == old(elems)[..p] + [e] + old(elems)[p..]
    {
      elems := elems[..p] + [e] + elems[p..];
    }

    /** Insert e somewhere in [start, stop], below everything from stop on. */
    method BinaryInsert(e: T, start: nat, stop: nat) returns (p: nat)
      requires Sorted(keys, elems)
      requires start <= stop <= |elems| && start < |elems|
      requires forall i :: 0 <= i < start ==> Above(keys, e, elems[i])
      requires forall i :: stop <= i < |elems| ==> !Above(keys, e, elems[i])
      modifies this`elems
      ensures Inserted(keys, old(elems), e, p, elems)
      decreases stop - start
    {
      var middle := (stop + start) / 2;
      if Above(keys, e, elems[middle]) {
        AllBelow(keys, elems, e, middle);
        if middle == start {
          Insert(start + 1, e);
          p := start + 1;
        } else {
          p := BinaryInsert(e, middle, stop);
        }
      } else {
        forall i | middle <= i < |elems| ensures !Above(keys, e, elems[i]) {
          StrictWeakOrder(keys, e, elems[middle], elems[i]);
        }
        if middle == stop {
          Insert(stop, e);
          p := stop;
        } else {
          p := BinaryInsert(e, start, middle);
        }
      }
    }

    method Append(e: T)
      requires Sorted(keys, elems)
      modifies this`elems
      ensures elems == InsertOne(keys, old(elems), e)
      ensures Sorted(keys, elems) && multiset(elems) == multiset(old(elems)) + multiset{e}
    {
      var p := 0;
      if |elems| == 0 {
        elems := elems + [e];
      } else {
        p := BinaryInsert(e, 0, |elems|);
      }
      InsertedKeepsSorted(keys, old(elems), e, p, elems);
      InsertedIsInsertOne(keys, old(elems), e, p, elems);
    }

    method Extend(es: seq<T>)
      requires Sorted(keys, elems)
      modifies this`elems
      ensures Sorted(keys, elems) && multiset(elems) == multiset(old(elems)) + multiset(es)
      ensures elems == InsertAll(keys, old(elems), es)
    {
      assert es[..0] == [];
      for i := 0 to |es|
        invariant Sorted(keys, elems)
        invariant elems == InsertAll(keys, old(elems), es[..i])
      {
        assert es[..i + 1] == es[..i] + [es[i]];
        Append(es[i]);
      }
      assert es[..|es|] == es;
      InsertAllKeeps(keys, old(elems), es);
    }

    method Contains(e: T) returns (found: bool)
      requires Sorted(keys, elems)
      ensures found <==> exists i :: 0 <= i < |elems| && Tie(keys, e, elems[i])
    {
      if |elems| == 0 {
        return false;
      }
      SearchIsExact(keys, elems, e, 0, |elems|);
      found := BinarySearch(keys, elems, e, 0, |elems|).Some?;
    }
  }
}
