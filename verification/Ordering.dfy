/**
 The lexicographic comparator of SortedList and SortedDict in adapters/persistence/models.py:
 a list of key functions, each with a reverse flag. Keys are total functions into a total order.
 */
module Ordering {
  import opened Wrappers

  datatype SortKey<!T> = SortKey(key: T -> int, reverse: bool)

  /** Some(true) for a > b, Some(false) for a < b, None when all keys agree. */
  function Compare<T>(keys: seq<SortKey<T>>, a: T, b: T): Option<bool> {
    if keys == [] then None
    else
      var k := keys[0];
      if k.key(a) > k.key(b) then Some(!k.reverse)
      else if k.key(a) < k.key(b) then Some(k.reverse)
      else Compare(keys[1..], a, b)
  }

  predicate Above<T>(keys: seq<SortKey<T>>, a: T, b: T) {
    Compare(keys, a, b) == Some(true)
  }

  predicate Tie<T>(keys: seq<SortKey<T>>, a: T, b: T) {
    Compare(keys, a, b) == None
  }

  function Opposite(c: Option<bool>): Option<bool> {
    match c
    case None => None
    case Some(b) => Some(!b)
  }

  /** The comparator is a strict weak order: it is antisymmetric, not being above is transitive,
      and tied elements compare alike with everything. */
  lemma {:induction false} StrictWeakOrder<T>(keys: seq<SortKey<T>>, a: T, b: T, c: T)
    ensures Compare(keys, b, a) == Opposite(Compare(keys, a, b))
    ensures !Above(keys, a, b) && !Above(keys, b, c) ==> !Above(keys, a, c)
    ensures Tie(keys, a, b) ==> Compare(keys, a, c) == Compare(keys, b, c)
    ensures Tie(keys, a, a)
  {
    if keys != [] {
      StrictWeakOrder(keys[1..], a, b, c);
    }
  }

  /** Flipping every reverse flag turns the order around. */
  function Flip<T>(keys: seq<SortKey<T>>): seq<SortKey<T>> {
    if keys == [] then [] else [SortKey(keys[0].key, !keys[0].reverse)] + Flip(keys[1..])
  }

  lemma {:induction false} FlipOpposes<T>(keys: seq<SortKey<T>>, a: T, b: T)
    ensures Compare(Flip(keys), a, b) == Opposite(Compare(keys, a, b))
  {
    if keys != [] {
      FlipOpposes(keys[1..], a, b);
    }
  }

  ghost predicate Sorted<T>(keys: seq<SortKey<T>>, s: seq<T>) {
    forall i, j :: 0 <= i < j < |s| ==> !Above(keys, s[i], s[j])
  }

  // ---------- what the order means ----------

  /** Under a single key a sorted list has the key values ascending, or descending if reversed. */
  lemma SortedByOneKey<T>(key: T -> int, reverse: bool, s: seq<T>)
    ensures Sorted([SortKey(key, reverse)], s) <==>
      forall i, j :: 0 <= i < j < |s| ==> if reverse then key(s[i]) >= key(s[j]) else key(s[i]) <= key(s[j])
  {
    forall i, j | 0 <= i < j < |s|
      ensures Above([SortKey(key, reverse)], s[i], s[j]) <==> if reverse then key(s[i]) < key(s[j]) else key(s[i]) > key(s[j])
    {
      OneKey(key, reverse, s[i], s[j]);
    }
  }

  lemma OneKey<T>(key: T -> int, reverse: bool, a: T, b: T)
    ensures Above([SortKey(key, reverse)], a, b) <==> if reverse then key(a) < key(b) else key(a) > key(b)
  {
    var keys := [SortKey(key, reverse)];
    assert keys[1..] == [] && Compare(keys[1..], a, b) == None;
  }

  /** The first key on which two elements differ decides; with none they tie. */
  lemma {:induction false} FirstDifferenceDecides<T>(keys: seq<SortKey<T>>, a: T, b: T)
    ensures Above(keys, a, b) <==> exists n :: DecidesAt(keys, a, b, n)
    ensures Tie(keys, a, b) <==> forall i :: 0 <= i < |keys| ==> keys[i].key(a) == keys[i].key(b)
  {
    if keys != [] {
      var rest := keys[1..];
      FirstDifferenceDecides(rest, a, b);
      if n :| DecidesAt(rest, a, b, n) && keys[0].key(a) == keys[0].key(b) {
        forall i | 0 <= i < n + 1 ensures keys[i].key(a) == keys[i].key(b) {
          assert i > 0 ==> keys[i] == rest[i - 1];
        }
        assert DecidesAt(keys, a, b, n + 1);
      }
      if n :| DecidesAt(keys, a, b, n) {
        if n > 0 {
          forall i | 0 <= i < n - 1 ensures rest[i].key(a) == rest[i].key(b) {
            assert rest[i] == keys[i + 1];
          }
          assert DecidesAt(rest, a, b, n - 1);
        }
      }
      if Above(keys, a, b) && keys[0].key(a) != keys[0].key(b) {
        assert DecidesAt(keys, a, b, 0);
      }
      forall i | 0 <= i < |rest| ensures rest[i] == keys[i + 1] {}
    }
  }

  /** a and b agree on the keys before the n-th and a is the greater there, or the lesser if the key
      is reversed. */
  ghost predicate DecidesAt<T>(keys: seq<SortKey<T>>, a: T, b: T, n: int) {
    && 0 <= n < |keys| && (forall i :: 0 <= i < n ==> keys[i].key(a) == keys[i].key(b))
    && if keys[n].reverse then keys[n].key(a) < keys[n].key(b) else keys[n].key(a) > keys[n].key(b)
  }

  // ---------- tie classes ----------

  /** The elements of s that tie with x, in order. */
  function Ties<T>(keys: seq<SortKey<T>>, x: T, s: seq<T>): seq<T> {
    if s == [] then []
    else if Tie(keys, x, s[0]) then [s[0]] + Ties(keys, x, s[1..])
    else Ties(keys, x, s[1..])
  }

  function Reverse<T>(s: seq<T>): seq<T> {
    if s == [] then [] else Reverse(s[1..]) + [s[0]]
  }

  lemma Regroup<T>(x: T, a: seq<T>, b: seq<T>)
    ensures [x] + (a + b) == ([x] + a) + b
  {
  }

  lemma {:induction false} TiesAppend<T>(keys: seq<SortKey<T>>, x: T, a: seq<T>, b: seq<T>)
    ensures Ties(keys, x, a + b) == Ties(keys, x, a) + Ties(keys, x, b)
  {
    if a == [] {
      assert a + b == b;
    } else {
      TiesAppend(keys, x, a[1..], b);
      assert (a + b)[0] == a[0] && (a + b)[1..] == a[1..] + b;
      Regroup(a[0], Ties(keys, x, a[1..]), Ties(keys, x, b));
    }
  }

  lemma {:induction false} NoTies<T>(keys: seq<SortKey<T>>, x: T, s: seq<T>)
    ensures Ties(keys, x, s) == [] <==> forall i :: 0 <= i < |s| ==> !Tie(keys, x, s[i])
  {
    if s != [] {
      NoTies(keys, x, s[1..]);
      if forall i :: 0 <= i < |s[1..]| ==> !Tie(keys, x, s[1..][i]) {
        assert forall i :: 1 <= i < |s| ==> s[i] == s[1..][i - 1];
      } else {
        var i :| 0 <= i < |s[1..]| && Tie(keys, x, s[1..][i]);
        assert s[i + 1] == s[1..][i];
      }
    }
  }

  lemma {:induction false} ReverseAppend<T>(a: seq<T>, b: seq<T>)
    ensures Reverse(a + b) == Reverse(b) + Reverse(a)
  {
    if a == [] {
      assert a + b == b;
    } else {
      ReverseAppend(a[1..], b);
      assert (a + b)[1..] == a[1..] + b;
    }
  }

  lemma {:induction false} ReverseTwice<T>(s: seq<T>)
    ensures Reverse(Reverse(s)) == s
  {
    if s != [] {
      ReverseAppend(Reverse(s[1..]), [s[0]]);
      ReverseTwice(s[1..]);
    }
  }

  /** The heads of two sorted lists with the same tie classes are the same element. */
  lemma SameHead<T(!new)>(keys: seq<SortKey<T>>, a: seq<T>, b: seq<T>)
    requires Sorted(keys, a) && Sorted(keys, b) && a != []
    requires forall x :: Ties(keys, x, a) == Ties(keys, x, b)
    ensures b != [] && a[0] == b[0]
  {
    var x := a[0];
    StrictWeakOrder(keys, x, x, x);
    assert Ties(keys, x, a)[0] == x;
    NoTies(keys, x, b);
    var i :| 0 <= i < |b| && Tie(keys, x, b[i]);
    var y := b[0];
    StrictWeakOrder(keys, y, y, y);
    assert Ties(keys, y, b)[0] == y;
    assert Ties(keys, y, a) != [];
    NoTies(keys, y, a);
    var j :| 0 <= j < |a| && Tie(keys, y, a[j]);
    StrictWeakOrder(keys, x, b[i], y);
    StrictWeakOrder(keys, y, a[j], x);
    StrictWeakOrder(keys, x, y, y);
    assert !Above(keys, y, x) by { StrictWeakOrder(keys, y, b[i], x); StrictWeakOrder(keys, x, b[i], x); }
    assert !Above(keys, x, y) by { StrictWeakOrder(keys, x, a[j], y); StrictWeakOrder(keys, y, a[j], y); }
    assert Tie(keys, x, y);
  }

  /** A sorted list is determined by its tie classes. */
  lemma {:induction false} SortedUnique<T(!new)>(keys: seq<SortKey<T>>, a: seq<T>, b: seq<T>)
    requires Sorted(keys, a) && Sorted(keys, b)
    requires forall x :: Ties(keys, x, a) == Ties(keys, x, b)
    ensures a == b
  {
    if a == [] {
      if b != [] {
        SameHead(keys, b, a);
      }
    } else {
      SameHead(keys, a, b);
      forall x ensures Ties(keys, x, a[1..]) == Ties(keys, x, b[1..]) {
        assert Ties(keys, x, a) == Ties(keys, x, b);
        if Tie(keys, x, a[0]) {
          assert Ties(keys, x, a)[1..] == Ties(keys, x, a[1..]);
          assert Ties(keys, x, b)[1..] == Ties(keys, x, b[1..]);
        }
      }
      SortedUnique(keys, a[1..], b[1..]);
      assert a == [a[0]] + a[1..] && b == [b[0]] + b[1..];
    }
  }
}
