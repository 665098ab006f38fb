/** Lookup, backfill and allocation of `indexList` rows: the dictionaries and the laws. */
module CatalogIndex {
  import opened Wrappers
  import opened CatalogModel

  /** A provider key as callers write it: one of the four column names, or any other string. */
  datatype ProviderKey = Known(column: Column) | Unknown(name: string)

  function ColumnOf(key: ProviderKey): Option<Column> {
    match key
    case Known(c) => Some(c)
    case Unknown(_) => None
  }

  /** A dictionary of external ids in its iteration order; values may be None. */
  type Dict = seq<(ProviderKey, Option<int>)>

  predicate DistinctNames(ids: Dict) {
    forall i, j :: 0 <= i < j < |ids| ==> ids[i].0 != ids[j].0
  }

  /** An entry under a column's name, with a value. */
  predicate Usable(d: (ProviderKey, Option<int>)) {
    d.0.Known? && d.1.Some?
  }

  /** Usable entries among the first k. */
  function UsableUpTo(ids: Dict, k: nat): nat
    requires k <= |ids|
  {
    if k == 0 then 0 else UsableUpTo(ids, k - 1) + if Usable(ids[k - 1]) then 1 else 0
  }

  /** Drop unknown keys and None values, keep the order. */
  function Normalize(ids: Dict): seq<(Column, int)> {
    if ids == [] then []
    else
      var last := ids[|ids| - 1];
      Normalize(ids[..|ids| - 1]) +
      if ColumnOf(last.0).Some? && last.1.Some? then [(ColumnOf(last.0).value, last.1.value)] else []
  }

  function AsMap(pairs: seq<(Column, int)>): ExternalIds {
    if pairs == [] then map[]
    else AsMap(pairs[..|pairs| - 1])[pairs[|pairs| - 1].0 := pairs[|pairs| - 1].1]
  }

  function Normalized(ids: Dict): ExternalIds {
    AsMap(Normalize(ids))
  }

  lemma {:induction false} AsMapPairs(pairs: seq<(Column, int)>)
    ensures forall p :: p in pairs ==> p.0 in AsMap(pairs)
    ensures forall c :: c in AsMap(pairs) ==> (c, AsMap(pairs)[c]) in pairs
  {
    if pairs != [] {
      var front, last := pairs[..|pairs| - 1], pairs[|pairs| - 1];
      AsMapPairs(front);
      assert pairs == front + [last];
    }
  }

  lemma {:induction false} NormalizeNames(ids: Dict)
    ensures forall p :: p in Normalize(ids) ==>
              exists k :: 0 <= k < |ids| && ColumnOf(ids[k].0) == Some(p.0) && ids[k].1 == Some(p.1)
  {
    if ids != [] {
      var front, last := ids[..|ids| - 1], ids[|ids| - 1];
      NormalizeNames(front);
      forall p | p in Normalize(ids)
        ensures exists k :: 0 <= k < |ids| && ColumnOf(ids[k].0) == Some(p.0) && ids[k].1 == Some(p.1)
      {
        if p in Normalize(front) {
          var k :| 0 <= k < |front| && ColumnOf(front[k].0) == Some(p.0) && front[k].1 == Some(p.1);
          assert ids[k] == front[k];
        } else {
          assert ids[|ids| - 1] == last;
        }
      }
    }
  }

  lemma {:induction false} UsableOfFront(ids: Dict, k: nat)
    requires k < |ids|
    ensures UsableUpTo(ids[..|ids| - 1], k) == UsableUpTo(ids, k)
  {
    if k > 0 {
      UsableOfFront(ids, k - 1);
    }
  }

  /** The usable entries keep their order: the k-th entry, if usable, comes after just the usable
      ones before it, and nothing else is there. */
  lemma {:induction false} NormalizeKeepsOrder(ids: Dict, k: nat)
    requires k < |ids|
    ensures |Normalize(ids)| == UsableUpTo(ids, |ids|)
    ensures Usable(ids[k]) ==>
      UsableUpTo(ids, k) < |Normalize(ids)| && Normalize(ids)[UsableUpTo(ids, k)] == (ids[k].0.column, ids[k].1.value)
  {
    var front := ids[..|ids| - 1];
    UsableOfFront(ids, |ids| - 1);
    if front == [] {
      assert Normalize(front) == [];
    } else {
      NormalizeKeepsOrder(front, if k < |front| then k else 0);
    }
    if k < |front| {
      UsableOfFront(ids, k);
    }
  }

  /** Every normalised pair is the usable entry at its place. */
  lemma {:induction false} UsableAt(ids: Dict, m: nat) returns (k: nat)
    requires m < |Normalize(ids)|
    ensures k < |ids| && Usable(ids[k]) && UsableUpTo(ids, k) == m
    ensures Normalize(ids)[m] == (ids[k].0.column, ids[k].1.value)
  {
    var front := ids[..|ids| - 1];
    NormalizeKeepsOrder(ids, |ids| - 1);
    if m < |Normalize(front)| {
      k := UsableAt(front, m);
      UsableOfFront(ids, k);
      NormalizeKeepsOrder(ids, k);
    } else {
      k := |ids| - 1;
      UsableOfFront(ids, k);
      if front != [] {
        NormalizeKeepsOrder(front, 0);
      }
    }
  }

  lemma {:induction false} UsableMonotone(ids: Dict, j: nat, k: nat)
    requires j < k <= |ids| && Usable(ids[j])
    ensures UsableUpTo(ids, j) < UsableUpTo(ids, k)
  {
    if j + 1 < k {
      UsableMonotone(ids, j, k - 1);
    }
  }

  lemma {:induction false} NormalizeDistinct(ids: Dict)
    requires DistinctNames(ids)
    ensures forall i, j :: 0 <= i < j < |Normalize(ids)| ==> Normalize(ids)[i].0 != Normalize(ids)[j].0
  {
    if ids != [] {
      var front, last := ids[..|ids| - 1], ids[|ids| - 1];
      NormalizeDistinct(front);
      NormalizeNames(front);
      forall i | 0 <= i < |Normalize(front)| ensures Some(Normalize(front)[i].0) != ColumnOf(last.0) {
        assert Normalize(front)[i] in Normalize(front);
      }
    }
  }

  lemma FillOne(offered: ExternalIds, row: ExternalIds, c: Column, v: int)
    requires c !in offered
    ensures offered[c := v] + row == if c in row then offered + row else (offered + row)[c := v]
  {
  }

  lemma AsMapSnoc(pairs: seq<(Column, int)>, c: Column, v: int)
    ensures AsMap(pairs + [(c, v)]) == AsMap(pairs)[c := v]
  {
    assert (pairs + [(c, v)])[..|pairs + [(c, v)]| - 1] == pairs;
  }

  lemma NotOffered(ids: Dict, c: Column)
    requires forall k :: 0 <= k < |ids| ==> ColumnOf(ids[k].0) != Some(c)
    ensures c !in Normalized(ids)
  {
    NormalizeNames(ids);
    AsMapPairs(Normalize(ids));
  }

  lemma NormalizedSnoc(ids: Dict, d: (ProviderKey, Option<int>))
    requires DistinctNames(ids + [d])
    ensures if Usable(d)
      then d.0.column !in Normalized(ids) && Normalized(ids + [d]) == Normalized(ids)[d.0.column := d.1.value]
      else Normalized(ids + [d]) == Normalized(ids)
  {
    var more := ids + [d];
    assert more[..|more| - 1] == ids;
    if ColumnOf(d.0).Some? && d.1.Some? {
      var c := ColumnOf(d.0).value;
      assert Normalize(more) == Normalize(ids) + [(c, d.1.value)];
      AsMapSnoc(Normalize(ids), c, d.1.value);
      forall k | 0 <= k < |ids| ensures ColumnOf(ids[k].0) != Some(c) {
        assert more[k] == ids[k] && more[|ids|] == d;
      }
      NotOffered(ids, c);
    } else {
      assert Normalize(more) == Normalize(ids);
    }
  }

  // ---------- answers ----------

  /** What a lookup may answer: None when nobody holds the pair, else any holder. */
  ghost predicate IsAnswer(index: map<int, ExternalIds>, c: Column, ext: int, r: Option<int>) {
    match r
    case None => !Answerable(index, c, ext)
    case Some(id) => Holds(index, id, c, ext)
  }

  /** Single and batch lookups are bound to agree exactly on injective columns. */
  lemma AnswersAgree(index: map<int, ExternalIds>, c: Column)
    ensures Injective(index, c) <==>
      forall ext, r1, r2 :: IsAnswer(index, c, ext, r1) && IsAnswer(index, c, ext, r2) ==> r1 == r2
  {
    if Injective(index, c) {
      forall ext, r1, r2 | IsAnswer(index, c, ext, r1) && IsAnswer(index, c, ext, r2) ensures r1 == r2 {
        assert r1.Some? ==> Holds(index, r1.value, c, ext);
        assert r2.Some? ==> Holds(index, r2.value, c, ext);
      }
    } else {
      var i, j, e :| Holds(index, i, c, e) && Holds(index, j, c, e) && i != j;
      assert IsAnswer(index, c, e, Some(i)) && IsAnswer(index, c, e, Some(j));
    }
  }

  // ---------- backfill and allocate ----------

  /** Set columns win over the offered ones; a missing row stays missing. */
  function Backfilled(index: map<int, ExternalIds>, id: int, ids: ExternalIds): map<int, ExternalIds> {
    if id in index then index[id := ids + index[id]] else index
  }

  /** One column of a row is filled if it is NULL. */
  function Filled(index: map<int, ExternalIds>, id: int, c: Column, v: int): map<int, ExternalIds> {
    if id in index && c !in index[id] then index[id := index[id][c := v]] else index
  }

  /** Backfilling one more column. */
  lemma BackfillMore(before: map<int, ExternalIds>, id: int, offered: ExternalIds, c: Column, v: int)
    requires c !in offered
    ensures Backfilled(before, id, offered[c := v]) == Filled(Backfilled(before, id, offered), id, c, v)
  {
    if id in before {
      FillOne(offered, before[id], c, v);
    }
  }

  /** `pairs[k]` is the first offered pair that some row holds, and `id` holds it. */
  ghost predicate FirstMatch(index: map<int, ExternalIds>, pairs: seq<(Column, int)>, id: int, k: nat) {
    && k < |pairs| && Holds(index, id, pairs[k].0, pairs[k].1)
    && forall j :: 0 <= j < k ==> !Answerable(index, pairs[j].0, pairs[j].1)
  }

  ghost predicate NoMatch(index: map<int, ExternalIds>, pairs: seq<(Column, int)>) {
    forall j :: 0 <= j < |pairs| ==> !Answerable(index, pairs[j].0, pairs[j].1)
  }

  lemma NoMatchAt(index: map<int, ExternalIds>, pairs: seq<(Column, int)>, c: Column)
    requires NoMatch(index, pairs) && c in AsMap(pairs)
    ensures !Answerable(index, c, AsMap(pairs)[c])
  {
    AsMapPairs(pairs);
    var k :| 0 <= k < |pairs| && pairs[k] == (c, AsMap(pairs)[c]);
  }

  /** The row of the first entry that some row answers: no usable entry before it is answered. */
  ghost predicate FirstKnown(index: map<int, ExternalIds>, ids: Dict, id: int, k: nat) {
    && k < |ids| && Usable(ids[k]) && Holds(index, id, ids[k].0.column, ids[k].1.value)
    && forall j :: 0 <= j < k && Usable(ids[j]) ==> !Answerable(index, ids[j].0.column, ids[j].1.value)
  }

  ghost predicate NoneKnown(index: map<int, ExternalIds>, ids: Dict) {
    forall k :: 0 <= k < |ids| && Usable(ids[k]) ==> !Answerable(index, ids[k].0.column, ids[k].1.value)
  }

  /** The first match among the normalised pairs is the first among the entries. */
  lemma FirstMatchIsFirstKnown(index: map<int, ExternalIds>, ids: Dict, id: int, m: nat) returns (k: nat)
    requires FirstMatch(index, Normalize(ids), id, m)
    ensures FirstKnown(index, ids, id, k)
  {
    k := UsableAt(ids, m);
    forall j | 0 <= j < k && Usable(ids[j]) ensures !Answerable(index, ids[j].0.column, ids[j].1.value) {
      NormalizeKeepsOrder(ids, j);
      UsableMonotone(ids, j, k);
    }
  }

  lemma NoMatchIsNoneKnown(index: map<int, ExternalIds>, ids: Dict)
    requires NoMatch(index, Normalize(ids))
    ensures NoneKnown(index, ids)
  {
    forall k | 0 <= k < |ids| && Usable(ids[k]) ensures !Answerable(index, ids[k].0.column, ids[k].1.value) {
      NormalizeKeepsOrder(ids, k);
    }
  }

  lemma NothingUsable(ids: Dict)
    ensures Normalize(ids) == [] <==> forall k :: 0 <= k < |ids| ==> !Usable(ids[k])
  {
    if Normalize(ids) == [] {
      forall k | 0 <= k < |ids| ensures !Usable(ids[k]) {
        NormalizeKeepsOrder(ids, k);
      }
    } else {
      var k := UsableAt(ids, 0);
    }
  }

  /** Who holds what after a row was reused or made: exactly what the dictionary offers and what
      the row did not have. */
  ghost predicate CompletedBy(before: map<int, ExternalIds>, ids: Dict, id: int, after: map<int, ExternalIds>) {
    && after.Keys == before.Keys + {id}
    && forall other, c, e :: Holds(after, other, c, e) <==>
         || Holds(before, other, c, e)
         || (other == id && (id in before ==> c !in before[id])
             && exists k :: 0 <= k < |ids| && ids[k] == (Known(c), Some(e)))
  }

  lemma OfferedIsUsable(ids: Dict, c: Column, e: int)
    ensures (c, e) in Normalize(ids) <==> exists k :: 0 <= k < |ids| && ids[k] == (Known(c), Some(e))
  {
    if (c, e) in Normalize(ids) {
      var m :| 0 <= m < |Normalize(ids)| && Normalize(ids)[m] == (c, e);
      var k := UsableAt(ids, m);
      assert ids[k] == (Known(c), Some(e));
    }
    if k :| 0 <= k < |ids| && ids[k] == (Known(c), Some(e)) {
      NormalizeKeepsOrder(ids, k);
    }
  }

  lemma AllocatedCompletes(before: map<int, ExternalIds>, ids: Dict, id: int, after: map<int, ExternalIds>)
    requires DistinctNames(ids) && Allocated(before, Normalize(ids), id, after)
    ensures CompletedBy(before, ids, id, after)
  {
    NormalizeDistinct(ids);
    forall other, c, e ensures Holds(after, other, c, e) <==>
         || Holds(before, other, c, e)
         || (other == id && (id in before ==> c !in before[id])
             && exists k :: 0 <= k < |ids| && ids[k] == (Known(c), Some(e)))
    {
      AllocatedHolders(before, Normalize(ids), id, after, other, c, e);
      OfferedIsUsable(ids, c, e);
    }
  }

  /** What `allocate` does: reuse and complete the row of the first known pair, or create one. */
  ghost predicate Allocated(before: map<int, ExternalIds>, pairs: seq<(Column, int)>, id: int, after: map<int, ExternalIds>) {
    || ((exists k: nat :: FirstMatch(before, pairs, id, k)) && after == Backfilled(before, id, AsMap(pairs)))
    || (NoMatch(before, pairs) && id !in before && after == before[id := AsMap(pairs)])
  }

  ghost predicate DistinctColumns(pairs: seq<(Column, int)>) {
    forall i, j :: 0 <= i < j < |pairs| ==> pairs[i].0 != pairs[j].0
  }

  lemma {:induction false} AsMapAt(pairs: seq<(Column, int)>, k: nat)
    requires DistinctColumns(pairs) && k < |pairs|
    ensures pairs[k].0 in AsMap(pairs) && AsMap(pairs)[pairs[k].0] == pairs[k].1
  {
    AsMapPairs(pairs);
    assert pairs[k] in pairs;
    var c := pairs[k].0;
    assert (c, AsMap(pairs)[c]) in pairs;
  }

  /** Backfilling gives the row the offered pairs in its free columns. */
  lemma BackfilledHolders(before: map<int, ExternalIds>, pairs: seq<(Column, int)>, id: int, other: int, c: Column, e: int)
    requires id in before
    ensures Holds(Backfilled(before, id, AsMap(pairs)), other, c, e) <==>
      Holds(before, other, c, e) || (other == id && c in AsMap(pairs) && AsMap(pairs)[c] == e && c !in before[id])
  {
  }

  lemma OfferedPair(pairs: seq<(Column, int)>, c: Column, e: int)
    requires DistinctColumns(pairs)
    ensures (c, e) in pairs <==> c in AsMap(pairs) && AsMap(pairs)[c] == e
  {
    AsMapPairs(pairs);
    if (c, e) in pairs {
      var k :| 0 <= k < |pairs| && pairs[k] == (c, e);
      AsMapAt(pairs, k);
    }
  }

  lemma AllocatedHolders(before: map<int, ExternalIds>, pairs: seq<(Column, int)>, id: int, after: map<int, ExternalIds>, other: int, c: Column, e: int)
    requires DistinctColumns(pairs)
    requires Allocated(before, pairs, id, after)
    ensures Holds(after, other, c, e) <==>
      Holds(before, other, c, e) || (other == id && (c, e) in pairs && (id in before ==> c !in before[id]))
  {
    OfferedPair(pairs, c, e);
    if id in before {
      BackfilledHolders(before, pairs, id, other, c, e);
    }
  }

  lemma AllocatedIsFound(before: map<int, ExternalIds>, pairs: seq<(Column, int)>, id: int, mid: map<int, ExternalIds>)
    requires DistinctColumns(pairs) && pairs != []
    requires Allocated(before, pairs, id, mid)
    ensures !NoMatch(mid, pairs)
  {
    var k: nat := 0;
    if !NoMatch(before, pairs) {
      k :| FirstMatch(before, pairs, id, k);
    }
    assert pairs[k] in pairs && (pairs[k].0, pairs[k].1) == pairs[k];
    AllocatedHolders(before, pairs, id, mid, id, pairs[k].0, pairs[k].1);
    assert Holds(mid, id, pairs[k].0, pairs[k].1);
  }

  /** The row was found through a pair that no other row holds, or it takes an earlier pair. */
  ghost predicate FoundForSure(before: map<int, ExternalIds>, pairs: seq<(Column, int)>, id: int) {
    forall k: nat :: FirstMatch(before, pairs, id, k) ==>
      || (exists j :: 0 <= j < k && pairs[j].0 !in before[id])
      || (forall other :: Holds(before, other, pairs[k].0, pairs[k].1) ==> other == id)
  }

  /** A row that a later lookup may find instead held the same first pair before. */
  lemma FoundInstead(before: map<int, ExternalIds>, pairs: seq<(Column, int)>, id: int, mid: map<int, ExternalIds>, other: int, m: nat)
    requires DistinctColumns(pairs) && Allocated(before, pairs, id, mid)
    requires FirstMatch(mid, pairs, other, m) && other != id
    ensures FirstMatch(before, pairs, id, m) && Holds(before, other, pairs[m].0, pairs[m].1)
    ensures forall j :: 0 <= j < m ==> pairs[j].0 in before[id]
  {
    AllocatedHolders(before, pairs, id, mid, other, pairs[m].0, pairs[m].1);
    var k: nat :| FirstMatch(before, pairs, id, k);
    HeldAfterwards(before, pairs, id, mid, k);
    forall j | 0 <= j < m ensures pairs[j].0 in before[id] {
      HeldAfterwards(before, pairs, id, mid, j);
    }
  }

  /** The chosen row holds every offered pair that it held or had room for. */
  lemma HeldAfterwards(before: map<int, ExternalIds>, pairs: seq<(Column, int)>, id: int, mid: map<int, ExternalIds>, j: nat)
    requires DistinctColumns(pairs) && Allocated(before, pairs, id, mid) && j < |pairs|
    ensures Holds(before, id, pairs[j].0, pairs[j].1) || (id in before ==> pairs[j].0 !in before[id]) ==>
              Answerable(mid, pairs[j].0, pairs[j].1)
  {
    assert (pairs[j].0, pairs[j].1) == pairs[j] && pairs[j] in pairs;
    AllocatedHolders(before, pairs, id, mid, id, pairs[j].0, pairs[j].1);
  }

  lemma OtherRowFound(before: map<int, ExternalIds>, pairs: seq<(Column, int)>, id: int, mid: map<int, ExternalIds>, k: nat, other: int)
    requires DistinctColumns(pairs) && Allocated(before, pairs, id, mid)
    requires FirstMatch(before, pairs, id, k) && forall j :: 0 <= j < k ==> pairs[j].0 in before[id]
    requires Holds(before, other, pairs[k].0, pairs[k].1)
    ensures FirstMatch(mid, pairs, other, k)
  {
    AllocatedHolders(before, pairs, id, mid, other, pairs[k].0, pairs[k].1);
    forall j, o | 0 <= j < k ensures !Holds(mid, o, pairs[j].0, pairs[j].1) {
      AllocatedHolders(before, pairs, id, mid, o, pairs[j].0, pairs[j].1);
      assert !Answerable(before, pairs[j].0, pairs[j].1);
    }
  }

  /** A second `allocate` with the same ids is bound to find the same row and to write nothing
      exactly when the first one's row was found for sure. */
  lemma AllocateTwice(before: map<int, ExternalIds>, pairs: seq<(Column, int)>, id: int, mid: map<int, ExternalIds>)
    requires DistinctColumns(pairs) && pairs != [] && Allocated(before, pairs, id, mid)
    ensures FoundForSure(before, pairs, id) <==>
      forall id', after :: Allocated(mid, pairs, id', after) ==> id' == id && after == mid
  {
    if FoundForSure(before, pairs, id) {
      forall id', after | Allocated(mid, pairs, id', after) ensures id' == id && after == mid {
        AllocatedIsFound(before, pairs, id, mid);
        var m: nat :| FirstMatch(mid, pairs, id', m);
        if id' != id {
          FoundInstead(before, pairs, id, mid, id', m);
          assert false;
        }
        AllocatedIsFull(before, pairs, id, mid);
      }
    } else {
      var k: nat :| FirstMatch(before, pairs, id, k)
        && (forall j :: 0 <= j < k ==> pairs[j].0 in before[id])
        && exists other :: Holds(before, other, pairs[k].0, pairs[k].1) && other != id;
      var other :| Holds(before, other, pairs[k].0, pairs[k].1) && other != id;
      OtherRowFound(before, pairs, id, mid, k, other);
      assert Allocated(mid, pairs, other, Backfilled(mid, other, AsMap(pairs)));
    }
  }

  lemma AllocatedIsFull(before: map<int, ExternalIds>, pairs: seq<(Column, int)>, id: int, mid: map<int, ExternalIds>)
    requires Allocated(before, pairs, id, mid)
    ensures Backfilled(mid, id, AsMap(pairs)) == mid
  {
    assert AsMap(pairs) + mid[id] == mid[id];
  }

  /** On an injective index, in particular, `allocate` is idempotent. */
  lemma AllocateTwiceInjective(before: map<int, ExternalIds>, pairs: seq<(Column, int)>, id: int)
    requires AllInjective(before)
    ensures FoundForSure(before, pairs, id)
  {
    forall k: nat, other | FirstMatch(before, pairs, id, k) && Holds(before, other, pairs[k].0, pairs[k].1)
      ensures other == id
    {
      assert Injective(before, pairs[k].0);
    }
  }

  /** `allocate` keeps the index injective exactly when it completes the chosen row with no id
      that another row already holds: the clashes `repair_duplicates` exists for. */
  lemma AllocateKeepsInjective(before: map<int, ExternalIds>, pairs: seq<(Column, int)>, id: int, after: map<int, ExternalIds>)
    requires DistinctColumns(pairs) && AllInjective(before)
    requires Allocated(before, pairs, id, after)
    ensures AllInjective(after) <==>
      forall p, other :: p in pairs && Holds(before, other, p.0, p.1) ==>
        other == id || (id in before && p.0 in before[id])
  {
    if forall p, other :: p in pairs && Holds(before, other, p.0, p.1) ==>
        other == id || (id in before && p.0 in before[id]) {
      forall c: Column, i, j, e | Holds(after, i, c, e) && Holds(after, j, c, e) ensures i == j {
        AllocatedHolders(before, pairs, id, after, i, c, e);
        AllocatedHolders(before, pairs, id, after, j, c, e);
        assert Injective(before, c);
        if Holds(before, i, c, e) && !Holds(before, j, c, e) {
          assert (c, e) in pairs && Holds(before, i, (c, e).0, (c, e).1);
        } else if Holds(before, j, c, e) && !Holds(before, i, c, e) {
          assert (c, e) in pairs && Holds(before, j, (c, e).0, (c, e).1);
        }
      }
      forall c: Column ensures Injective(after, c) {}
    } else {
      var p, other :| p in pairs && Holds(before, other, p.0, p.1) && other != id && (id in before ==> p.0 !in before[id]);
      AllocatedHolders(before, pairs, id, after, id, p.0, p.1);
      AllocatedHolders(before, pairs, id, after, other, p.0, p.1);
      assert (p.0, p.1) == p;
      assert !Injective(after, p.0);
    }
  }

  ghost predicate IndexStep(before: map<int, ExternalIds>, after: map<int, ExternalIds>) {
    || (exists pairs, id :: Allocated(before, pairs, id, after))
    || (exists id, ids :: after == Backfilled(before, id, ids))
  }

  /** Along any run of allocations and backfills an external id, once set, never changes. */
  lemma {:induction false} SetIdsNeverChange(history: seq<map<int, ExternalIds>>, i: nat, j: nat, id: int, c: Column, e: int)
    requires forall k :: 0 <= k < |history| - 1 ==> IndexStep(history[k], history[k + 1])
    requires i <= j < |history| && Holds(history[i], id, c, e)
    ensures Holds(history[j], id, c, e)
    decreases j
  {
    if i < j {
      SetIdsNeverChange(history, i, j - 1, id, c, e);
      IndexStepKeeps(history[j - 1], history[j - 1 + 1], id, c, e);
    }
  }

  lemma IndexStepKeeps(before: map<int, ExternalIds>, after: map<int, ExternalIds>, id: int, c: Column, e: int)
    requires IndexStep(before, after) && Holds(before, id, c, e)
    ensures Holds(after, id, c, e)
  {
  }
}
