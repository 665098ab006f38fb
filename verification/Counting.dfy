/** How often a value occurs in a list; the records and table rows of the other modules are counted with it. */
module Counting {

  function Count<T(==)>(s: seq<T>, x: T): nat {
    if s == [] then 0 else Count(s[..|s| - 1], x) + if s[|s| - 1] == x then 1 else 0
  }

  lemma {:induction false} CountAppend<T>(a: seq<T>, b: seq<T>, x: T)
    ensures Count(a + b, x) == Count(a, x) + Count(b, x)
  {
    if b == [] {
      assert a + b == a;
    } else {
      CountAppend(a, b[..|b| - 1], x);
      assert (a + b)[..|a + b| - 1] == a + b[..|b| - 1];
    }
  }

  lemma CountOne<T>(y: T, x: T)
    ensures Count([y], x) == if y == x then 1 else 0
  {
    assert [y][..0] == [];
  }

  lemma {:induction false} CountMember<T>(s: seq<T>, x: T)
    ensures x in s <==> Count(s, x) > 0
  {
    if s != [] {
      CountMember(s[..|s| - 1], x);
      assert s == s[..|s| - 1] + [s[|s| - 1]];
    }
  }
}
