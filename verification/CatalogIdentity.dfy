/** Which of several catalogue ids survives a merge (domain/catalog.py). */
module CatalogIdentity {
  import opened Wrappers

  function Positives(ids: seq<int>): (r: seq<int>)
    ensures forall i :: i in r <==> i in ids && i > 0
  {
    if ids == [] then []
    else
      assert forall i :: i in ids <==> i == ids[0] || i in ids[1..];
      (if ids[0] > 0 then [ids[0]] else []) + Positives(ids[1..])
  }

  function Min(ids: seq<int>): (m: int)
    requires ids != []
    ensures m in ids && forall i :: i in ids ==> m <= i
  {
    if |ids| == 1 then ids[0]
    else
      assert forall i :: i in ids <==> i == ids[0] || i in ids[1..];
      var rest := Min(ids[1..]);
      if ids[0] <= rest then ids[0] else rest
  }

  /** Smallest positive id, else smallest id; no id at all is a ValueError. */
  function PreferredCatalogId(ids: seq<int>): Result<int, string> {
    if ids == [] then Failure("preferred_catalog_id requires at least one id")
    else
      var positives := Positives(ids);
      if positives != [] then Success(Min(positives)) else Success(Min(ids))
  }

  /** The order behind the choice: positive ids ascending, then all others ascending. */
  predicate Prefers(a: int, b: int) {
    if (a > 0) == (b > 0) then a < b else a > 0
  }

  /** The choice is exactly the least element of that order, and is refused exactly on no ids. */
  lemma PreferredIsLeast(ids: seq<int>, m: int)
    ensures PreferredCatalogId(ids).Failure? <==> ids == []
    ensures PreferredCatalogId(ids) == Success(m)
       <==> m in ids && forall i :: i in ids ==> i == m || Prefers(m, i)
  {
    if ids != [] {
      var p := PreferredCatalogId(ids).value;
      var positives := Positives(ids);
      if positives == [] {
        forall i | i in ids ensures i <= 0 {
          assert i > 0 ==> i in positives;
        }
      } else {
        assert positives[0] in positives && p in positives;
      }
      assert p in ids && forall i :: i in ids ==> i == p || Prefers(p, i);
    }
  }
}
