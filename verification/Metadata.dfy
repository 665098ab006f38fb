/**
 The two save_metadata algorithms, on one (id, value) metadata table: the set difference of
 adapters/persistence/embeddedMariaDB.py and the list removal of adapters/persistence/dbManager.py.
 Neither table nor argument needs to be free of duplicates.
 */
module Metadata {

  import opened Counting

  type Rows = seq<(int, string)>

  /** SELECT value WHERE id=? */
  function Select(rows: Rows, id: int): seq<string> {
    if rows == [] then []
    else
      var front := Select(rows[..|rows| - 1], id);
      if rows[|rows| - 1].0 == id then front + [rows[|rows| - 1].1] else front
  }

  /** DELETE WHERE id=? AND value=? */
  function Delete(rows: Rows, id: int, v: string): Rows {
    if rows == [] then []
    else
      var front := Delete(rows[..|rows| - 1], id, v);
      if rows[|rows| - 1] == (id, v) then front else front + [rows[|rows| - 1]]
  }

  lemma {:induction false} CountSelect(rows: Rows, id: int, v: string)
    ensures Count(Select(rows, id), v) == Count(rows, (id, v))
  {
    if rows != [] {
      CountSelect(rows[..|rows| - 1], id, v);
      CountAppend(Select(rows[..|rows| - 1], id), [rows[|rows| - 1].1], v);
      CountOne(rows[|rows| - 1].1, v);
    }
  }

  lemma {:induction false} CountDelete(rows: Rows, id: int, v: string, r: (int, string))
    ensures Count(Delete(rows, id, v), r) == if r == (id, v) then 0 else Count(rows, r)
  {
    if rows != [] {
      CountDelete(rows[..|rows| - 1], id, v, r);
      CountAppend(Delete(rows[..|rows| - 1], id, v), [rows[|rows| - 1]], r);
      CountOne(rows[|rows| - 1], r);
    }
  }

  function NonEmpty(values: seq<string>): seq<string> {
    if values == [] then []
    else
      var front := NonEmpty(values[..|values| - 1]);
      if values[|values| - 1] != "" then front + [values[|values| - 1]] else front
  }

  // ---------- what the two algorithms leave ----------

  /** Set difference: a wanted value keeps its rows, or gets one; the others go. */
  function SetSaved(rows: Rows, id: int, values: seq<string>, r: (int, string)): nat {
    if r.0 != id then Count(rows, r)
    else if r.1 !in values then 0
    else if Count(rows, r) > 0 then Count(rows, r) else 1
  }

  /** List removal: as many rows as the value is wanted, but none at all when more were stored:
      the surplus is deleted by value. */
  function ListSaved(rows: Rows, id: int, values: seq<string>, r: (int, string)): nat {
    if r.0 != id then Count(rows, r)
    else if Count(rows, r) <= Count(NonEmpty(values), r.1) then Count(NonEmpty(values), r.1)
    else 0
  }

  /** The list removal stores exactly the requested values if and only if no requested value was
      stored more often than it is requested. */
  lemma ListSaveIsExact(rows: Rows, id: int, values: seq<string>)
    ensures (forall v :: ListSaved(rows, id, values, (id, v)) == Count(NonEmpty(values), v))
       <==> (forall v :: v in NonEmpty(values) ==> Count(rows, (id, v)) <= Count(NonEmpty(values), v))
  {
    forall v ensures v in NonEmpty(values) <==> Count(NonEmpty(values), v) > 0 {
      CountMember(NonEmpty(values), v);
    }
    if v :| v in NonEmpty(values) && Count(rows, (id, v)) > Count(NonEmpty(values), v) {
      assert ListSaved(rows, id, values, (id, v)) == 0;
    }
  }

  lemma {:induction false} NonEmptyMembers(values: seq<string>, v: string)
    ensures v in NonEmpty(values) <==> v in values && v != ""
  {
    if values != [] {
      NonEmptyMembers(values[..|values| - 1], v);
      assert values == values[..|values| - 1] + [values[|values| - 1]];
    }
  }

  /** Where values and stored rows are free of duplicates and blanks, both leave exactly the
      requested values, once each. */
  lemma BothSaveTheRequest(rows: Rows, id: int, values: seq<string>, r: (int, string))
    requires Count(rows, r) <= 1 && Count(NonEmpty(values), r.1) <= 1 && "" !in values
    ensures SetSaved(rows, id, values, r) == ListSaved(rows, id, values, r)
         == if r.0 != id then Count(rows, r) else if r.1 in values then 1 else 0
  {
    NonEmptyMembers(values, r.1);
    CountMember(NonEmpty(values), r.1);
  }

  /** Saving the same values again: the set version finds nothing to edit. */
  lemma SetSaveTwice(rows: Rows, after: Rows, id: int, values: seq<string>)
    requires forall r :: Count(after, r) == SetSaved(rows, id, values, r)
    ensures forall v :: v in values <==> Count(after, (id, v)) > 0
    ensures forall r :: SetSaved(after, id, values, r) == Count(after, r)
  {
    forall v ensures v in values <==> Count(after, (id, v)) > 0 {
      assert Count(after, (id, v)) == SetSaved(rows, id, values, (id, v));
    }
  }

  /** The list version finds nothing to edit exactly if the first save was exact. Otherwise the
      second save repairs what the first one lost, so the third has nothing to do. */
  lemma ListSaveTwice(rows: Rows, after: Rows, id: int, values: seq<string>)
    requires forall r :: Count(after, r) == ListSaved(rows, id, values, r)
    ensures (forall v :: Count(after, (id, v)) == Count(NonEmpty(values), v))
       <==> (forall v :: v in NonEmpty(values) ==> Count(rows, (id, v)) <= Count(NonEmpty(values), v))
    ensures forall v :: ListSaved(after, id, values, (id, v)) == Count(NonEmpty(values), v)
  {
    ListSaveIsExact(rows, id, values);
    forall v ensures Count(after, (id, v)) == ListSaved(rows, id, values, (id, v)) {}
  }

  /** A value stored twice and requested once is gone after the save. */
  lemma ListSaveLosesAValue()
    ensures ListSaved([(1, "a"), (1, "a")], 1, ["a"], (1, "a")) == 0 && Count(NonEmpty(["a"]), "a") == 1
  {
    assert [(1, "a"), (1, "a")][..1] == [(1, "a")] && [(1, "a")][..0] == [];
    assert Count([(1, "a")], (1, "a")) == 1;
    assert ["a"][..0] == [] && NonEmpty(["a"]) == ["a"];
  }

  // ---------- the loops ----------

  method Elements(values: seq<string>) returns (elements: set<string>)
    ensures forall v :: v in elements <==> v in values
  {
    elements := set v | v in values;
  }

  method Listed(elements: set<string>) returns (values: seq<string>)
    ensures forall v :: v in values <==> v in elements
    ensures forall i, j :: 0 <= i < j < |values| ==> values[i] != values[j]
  {
    values := [];
    var todo := elements;
    while todo != {}
      invariant forall v :: v in elements <==> v in values || v in todo
      invariant forall v :: v in values ==> v !in todo
      invariant forall i, j :: 0 <= i < j < |values| ==> values[i] != values[j]
    {
      var v :| v in todo;
      todo := todo - {v};
      values := values + [v];
    }
  }

  class MetadataTable {
    var rows: Rows

    constructor (rows: Rows)
      ensures this.rows == rows
    {
      this.rows := rows;
    }

    method DeleteAll(id: int, values: seq<string>)
      modifies this
      ensures forall r :: Count(rows, r) == if r.0 == id && r.1 in values then 0 else Count(old(rows), r)
    {
      for i := 0 to |values|
        invariant forall r :: Count(rows, r) == if r.0 == id && r.1 in values[..i] then 0 else Count(old(rows), r)
      {
        ghost var before := rows;
        rows := Delete(rows, id, values[i]);
        forall r ensures Count(rows, r) == if r == (id, values[i]) then 0 else Count(before, r) {
          CountDelete(before, id, values[i], r);
        }
      }
      assert values[..|values|] == values;
    }

    method InsertAll(id: int, values: seq<string>)
      modifies this
      ensures forall r :: Count(rows, r) == Count(old(rows), r) + if r.0 == id then Count(values, r.1) else 0
    {
      assert values[..0] == [];
      for i := 0 to |values|
        invariant forall r :: Count(rows, r) == Count(old(rows), r) + if r.0 == id then Count(values[..i], r.1) else 0
      {
        ghost var before := rows;
        rows := rows + [(id, values[i])];
        assert values[..i + 1] == values[..i] + [values[i]];
        forall r ensures Count(rows, r) == Count(before, r) + if r == (id, values[i]) then 1 else 0 {
          CountAppend(before, [(id, values[i])], r);
          CountOne((id, values[i]), r);
        }
        forall v ensures Count(values[..i + 1], v) == Count(values[..i], v) + if v == values[i] then 1 else 0 {
          CountAppend(values[..i], [values[i]], v);
          CountOne(values[i], v);
        }
      }
      assert values[..|values|] == values;
    }

    /** embeddedMariaDB: delete what is stored and not requested, insert what is missing. */
    method SaveBySets(id: int, values: seq<string>) returns (edits: nat)
      modifies this
      ensures forall r :: Count(rows, r) == SetSaved(old(rows), id, values, r)
      ensures edits == 0 <==> forall v :: v in values <==> Count(old(rows), (id, v)) > 0
    {
      var existing := Select(rows, id);
      var wanted := Elements(values);
      var stored := Elements(existing);
      forall v ensures v in stored <==> Count(rows, (id, v)) > 0 {
        CountSelect(rows, id, v);
        CountMember(existing, v);
      }
      var removed := Listed(stored - wanted);
      var added := Listed(wanted - stored);
      edits := |removed| + |added|;
      forall v ensures Count(added, v) == if v in added then 1 else 0 {
        CountDistinct(added, v);
      }
      DeleteAll(id, removed);
      InsertAll(id, added);
      assert removed == [] <==> forall v :: v in stored ==> v in wanted by {
        if removed != [] { assert removed[0] in removed; }
      }
      assert added == [] <==> forall v :: v in wanted ==> v in stored by {
        if added != [] { assert added[0] in added; }
      }
    }

    /** dbManager: cross the requested values off a copy of the stored ones, insert those that
        were not there, delete those left over. */
    method SaveByLists(id: int, values: seq<string>) returns (edits: nat)
      modifies this
      ensures forall r :: Count(rows, r) == ListSaved(old(rows), id, values, r)
      ensures edits == 0 <==> forall v :: Count(old(rows), (id, v)) == Count(NonEmpty(values), v)
    {
      var dbValues := Select(rows, id);
      forall v ensures Count(dbValues, v) == Count(rows, (id, v)) {
        CountSelect(rows, id, v);
      }
      var toUpdate: seq<string>;
      toUpdate, dbValues := CrossOff(values, dbValues);
      ghost var stored := rows;
      InsertAll(id, toUpdate);
      DeleteAll(id, dbValues);
      edits := |toUpdate| + |dbValues|;
      forall v ensures v in dbValues <==> Count(dbValues, v) > 0 {
        CountMember(dbValues, v);
      }
      if toUpdate != [] {
        CountMember(toUpdate, toUpdate[0]);
      }
      if dbValues != [] {
        CountMember(dbValues, dbValues[0]);
      }
    }
  }

  lemma {:induction false} CountDistinct(s: seq<string>, v: string)
    requires forall i, j :: 0 <= i < j < |s| ==> s[i] != s[j]
    ensures Count(s, v) == if v in s then 1 else 0
  {
    if s != [] {
      var front, last := s[..|s| - 1], s[|s| - 1];
      CountDistinct(front, v);
      assert s == front + [last];
      assert last !in front;
    }
  }

  /** list.remove: drop the first occurrence. */
  method RemoveFirst(s: seq<string>, v: string) returns (r: seq<string>)
    requires v in s
    ensures forall x :: Count(r, x) == Count(s, x) - if x == v then 1 else 0
  {
    var i := 0;
    while s[i] != v
      invariant 0 <= i < |s| && v !in s[..i]
      decreases |s| - i
    {
      i := i + 1;
    }
    r := s[..i] + s[i + 1..];
    forall x ensures Count(r, x) == Count(s, x) - if x == v then 1 else 0 {
      assert s == s[..i] + ([v] + s[i + 1..]);
      CountAppend(s[..i], [v] + s[i + 1..], x);
      CountAppend([v], s[i + 1..], x);
      CountAppend(s[..i], s[i + 1..], x);
      CountOne(v, x);
    }
  }

  /** One round of the loop: an empty value is skipped, a stored one crossed off. */
  method CrossOne(v: string, missing: seq<string>, left: seq<string>) returns (missing': seq<string>, left': seq<string>)
    ensures forall x :: Count(missing', x) == Count(missing, x) + if v != "" && x == v && Count(left, v) == 0 then 1 else 0
    ensures forall x :: Count(left', x) == Count(left, x) - if v != "" && x == v && Count(left, v) > 0 then 1 else 0
  {
    missing', left' := missing, left;
    CountMember(left, v);
    if v != "" {
      if v !in left {
        missing' := missing + [v];
        forall x ensures Count(missing', x) == Count(missing, x) + if x == v then 1 else 0 {
          CountAppend(missing, [v], x);
          CountOne(v, x);
        }
      } else {
        left' := RemoveFirst(left, v);
      }
    }
  }

  lemma NonEmptyOneMore(values: seq<string>, i: nat, x: string)
    requires i < |values|
    ensures Count(NonEmpty(values[..i + 1]), x)
         == Count(NonEmpty(values[..i]), x) + if values[i] != "" && x == values[i] then 1 else 0
  {
    assert values[..i + 1][..i] == values[..i];
    CountAppend(NonEmpty(values[..i]), [values[i]], x);
    CountOne(values[i], x);
  }

  /** The loop over the requested values: per value, either side keeps its surplus. */
  method CrossOff(values: seq<string>, stored: seq<string>) returns (missing: seq<string>, left: seq<string>)
    ensures forall v :: Count(missing, v) == if Count(NonEmpty(values), v) > Count(stored, v)
      then Count(NonEmpty(values), v) - Count(stored, v) else 0
    ensures forall v :: Count(left, v) == if Count(stored, v) > Count(NonEmpty(values), v)
      then Count(stored, v) - Count(NonEmpty(values), v) else 0
  {
    missing, left := [], stored;
    assert NonEmpty(values[..0]) == [];
    for i := 0 to |values|
      invariant forall v :: Count(missing, v) == Surplus(Count(NonEmpty(values[..i]), v), Count(stored, v))
      invariant forall v :: Count(left, v) == Surplus(Count(stored, v), Count(NonEmpty(values[..i]), v))
    {
      missing, left := CrossOne(values[i], missing, left);
      forall v ensures Count(NonEmpty(values[..i + 1]), v)
                    == Count(NonEmpty(values[..i]), v) + if values[i] != "" && v == values[i] then 1 else 0 {
        NonEmptyOneMore(values, i, v);
      }
    }
    assert values[..|values|] == values;
  }

  function Surplus(a: nat, b: nat): nat {
    if a > b then a - b else 0
  }
}
