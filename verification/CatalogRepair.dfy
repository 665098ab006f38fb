/**
 The repair passes as logs of merges: one pass folds every group of rows that agree on a key
 into the group's preferred row, and a repair is a sequence of such passes, each over the keys
 the previous ones left behind.
 */
module CatalogRepair {
  import opened Wrappers
  import opened CatalogIdentity
  import opened CatalogModel

  // ---------- one pass over one grouping key ----------

  ghost predicate Leads<K>(keys: map<int, K>, id: int) {
    id in keys && forall l :: l in keys && keys[l] == keys[id] ==> l == id || Prefers(id, l)
  }

  ghost predicate FoldsToLeader<K>(keys: map<int, K>, st: Step) {
    && st.duplicate in keys && Leads(keys, st.canonical)
    && st.duplicate != st.canonical && keys[st.duplicate] == keys[st.canonical]
  }

  /** `log` folds every id of the grouping that is not the preferred one of its group, once,
      into the one that is, and does nothing else. */
  ghost predicate IsPass<K>(keys: map<int, K>, log: seq<Step>) {
    && (forall j :: 0 <= j < |log| ==> FoldsToLeader(keys, log[j]) && log[j].duplicate !in Duplicates(log[..j]))
    && (forall id :: id in keys && !Leads(keys, id) ==> id in Duplicates(log))
  }

  lemma PassDuplicates<K>(keys: map<int, K>, log: seq<Step>)
    requires IsPass(keys, log)
    ensures forall id :: id in Duplicates(log) <==> id in keys && !Leads(keys, id)
    ensures Proper(log) && Descending(log) && Fresh(log)
  {
    forall j | 0 <= j < |log| ensures !Leads(keys, log[j].duplicate) {
      assert FoldsToLeader(keys, log[j]);
    }
    forall st | st in log ensures FoldsToLeader(keys, st) {
      var j :| 0 <= j < |log| && log[j] == st;
    }
    forall j | 0 <= j < |log| ensures log[j].canonical !in Duplicates(log[..j]) {
      assert FoldsToLeader(keys, log[j]);
      forall k | 0 <= k < j ensures log[..j][k].duplicate != log[j].canonical {
        assert log[..j][k] == log[k];
      }
    }
  }

  /** After a pass every grouped id stands for its group's preferred id, whatever the order in
      which the rows and groups were visited; ungrouped ids are untouched. */
  lemma {:induction false} PassResolves<K>(keys: map<int, K>, log: seq<Step>, id: int)
    requires IsPass(keys, log)
    ensures id in keys ==> Leads(keys, Resolve(log, id)) && keys[Resolve(log, id)] == keys[id]
    ensures id !in keys ==> Resolve(log, id) == id
  {
    PassDuplicates(keys, log);
    ResolveSettles(log, id);
    ResolveInGroup(keys, log, id);
  }

  lemma {:induction false} ResolveInGroup<K>(keys: map<int, K>, log: seq<Step>, id: int)
    requires forall j :: 0 <= j < |log| ==> FoldsToLeader(keys, log[j])
    ensures id in keys ==> Resolve(log, id) in keys && keys[Resolve(log, id)] == keys[id]
    ensures id !in keys ==> Resolve(log, id) == id
  {
    if log != [] {
      var front := log[..|log| - 1];
      assert forall j :: 0 <= j < |front| ==> front[j] == log[j];
      ResolveInGroup(keys, front, id);
    }
  }

  /** Among the ids a pass leaves no two carry the same key. */
  lemma PassLeavesDistinct<K>(keys: map<int, K>, log: seq<Step>, i: int, j: int)
    requires IsPass(keys, log) && i !in Duplicates(log) && j !in Duplicates(log)
    requires i in keys && j in keys && keys[i] == keys[j]
    ensures i == j
  {
    assert Leads(keys, i) && Leads(keys, j);
  }

  /** A pass over ids of the catalogue writes an orderly log: its canonical ids lead. */
  lemma PassIsOrderly<K>(s: Catalog, keys: map<int, K>, log: seq<Step>)
    requires IsPass(keys, log) && keys.Keys <= s.index.Keys + s.titles.Keys
    ensures Orderly(s, log) && UsesOnly(keys.Keys, log)
    ensures forall st :: st in log ==> st.canonical !in Duplicates(log)
  {
    PassDuplicates(keys, log);
    forall st | st in log ensures FoldsToLeader(keys, st) && st.canonical !in Duplicates(log) {
      var j :| 0 <= j < |log| && log[j] == st;
    }
  }

  /** No two ids carry the same key. */
  ghost predicate Distinct<K>(keys: map<int, K>) {
    forall i, j :: i in keys && j in keys && keys[i] == keys[j] ==> i == j
  }

  /** A grouping without clashes gives a pass nothing to do. */
  lemma PassOverInjective<K>(keys: map<int, K>, log: seq<Step>)
    requires IsPass(keys, log)
    ensures Distinct(keys) <==> log == []
  {
    if log != [] {
      assert FoldsToLeader(keys, log[0]);
    } else {
      forall i, j | i in keys && j in keys && keys[i] == keys[j] ensures i == j {
        assert Leads(keys, i) && Leads(keys, j);
      }
    }
  }

  // ---------- passes over a provider column ----------

  function ColumnKeys(index: map<int, ExternalIds>, c: Column): map<int, int> {
    map id | id in index && c in index[id] :: index[id][c]
  }

  lemma InjectiveKeys(index: map<int, ExternalIds>, c: Column)
    ensures Injective(index, c) <==> Distinct(ColumnKeys(index, c))
  {
    var keys := ColumnKeys(index, c);
    assert forall i, e :: Holds(index, i, c, e) <==> i in keys && keys[i] == e;
    if Distinct(keys) {
      assert Injective(index, c);
    } else {
      var i, j :| i in keys && j in keys && keys[i] == keys[j] && i != j;
      assert Holds(index, i, c, keys[i]) && Holds(index, j, c, keys[i]);
    }
  }

  /** Merging rows that agree on the column leaves the column of every remaining row alone. */
  lemma {:induction false} RunKeepsColumn(s: Catalog, log: seq<Step>, c: Column, id: int)
    requires forall j :: 0 <= j < |log| ==> FoldsToLeader(ColumnKeys(s.index, c), log[j])
    requires id in Run(s, log).index
    ensures id in s.index && Cell(Run(s, log).index, id, c) == Cell(s.index, id, c)
  {
    if log != [] {
      var front, st := log[..|log| - 1], log[|log| - 1];
      assert forall j :: 0 <= j < |front| ==> front[j] == log[j];
      assert FoldsToLeader(ColumnKeys(s.index, c), st);
      FoldCell(Run(s, front).index, st, id, c);
      RunKeepsColumn(s, front, c, id);
    }
  }

  lemma ColumnPassIsLive(s: Catalog, c: Column, log: seq<Step>)
    requires IsPass(ColumnKeys(s.index, c), log)
    ensures Live(s, log) && Descending(log)
  {
    PassDuplicates(ColumnKeys(s.index, c), log);
    forall j | 0 <= j < |log| ensures log[j].duplicate in s.index && log[j].canonical in s.index {
      assert FoldsToLeader(ColumnKeys(s.index, c), log[j]);
    }
  }

  /** One column pass makes its column injective and does not disturb the others. */
  lemma ColumnPassRepairs(s: Catalog, c: Column, log: seq<Step>, other: Column)
    requires IsPass(ColumnKeys(s.index, c), log)
    ensures Injective(Run(s, log).index, c)
    ensures Injective(s.index, other) ==> Injective(Run(s, log).index, other)
  {
    var keys := ColumnKeys(s.index, c);
    PassDuplicates(keys, log);
    RunKeys(s, log);
    if Injective(s.index, other) {
      RunKeepsInjective(s, log, other);
    }
    var after := Run(s, log).index;
    forall i, j, e | Holds(after, i, c, e) && Holds(after, j, c, e) ensures i == j {
      RunKeepsColumn(s, log, c, i);
      RunKeepsColumn(s, log, c, j);
      PassLeavesDistinct(keys, log, i, j);
    }
  }

  // ---------- the provider-id repair ----------

  /** `log` is what the repair may do when it visits the columns in the order `columns`. */
  ghost predicate ProviderRun(s: Catalog, columns: seq<Column>, log: seq<Step>) {
    if columns == [] then log == []
    else exists n ::
      && 0 <= n <= |log|
      && ProviderRun(s, columns[..|columns| - 1], log[..n])
      && IsPass(ColumnKeys(Run(s, log[..n]).index, columns[|columns| - 1]), log[n..])
  }

  /** One more column. */
  lemma PassAppend(s: Catalog, columns: seq<Column>, c: Column, done: seq<Step>, pass: seq<Step>)
    requires ProviderRun(s, columns, done)
    requires IsPass(ColumnKeys(Run(s, done).index, c), pass)
    ensures ProviderRun(s, columns + [c], done + pass)
  {
    var log := done + pass;
    assert (columns + [c])[..|columns + [c]| - 1] == columns;
    assert log[..|done|] == done && log[|done|..] == pass;
  }

  lemma LiveAppend(s: Catalog, a: seq<Step>, b: seq<Step>)
    requires Live(s, a) && Live(Run(s, a), b)
    ensures Live(s, a + b)
  {
    LiveIsOrderly(s, a);
    RunKeys(s, a);
    forall j | 0 <= j < |a + b|
      ensures (a + b)[j].duplicate in s.index.Keys - Duplicates((a + b)[..j])
      ensures (a + b)[j].canonical in s.index.Keys - Duplicates((a + b)[..j])
    {
      if j < |a| {
        assert (a + b)[..j] == a[..j];
      } else {
        assert (a + b)[..j] == a + b[..j - |a|];
        DuplicatesAppend(a, b[..j - |a|]);
        assert (a + b)[j] == b[j - |a|];
      }
    }
  }

  lemma LastPass(s: Catalog, columns: seq<Column>, log: seq<Step>) returns (a: seq<Step>, b: seq<Step>)
    requires ProviderRun(s, columns, log) && columns != []
    ensures log == a + b
    ensures ProviderRun(s, columns[..|columns| - 1], a)
    ensures IsPass(ColumnKeys(Run(s, a).index, columns[|columns| - 1]), b)
    ensures Run(s, log) == Run(Run(s, a), b)
  {
    var front, c := columns[..|columns| - 1], columns[|columns| - 1];
    var n :| 0 <= n <= |log| && ProviderRun(s, front, log[..n])
             && IsPass(ColumnKeys(Run(s, log[..n]).index, c), log[n..]);
    a, b := log[..n], log[n..];
    RunSplit(s, log, n);
  }

  lemma RunSplit(s: Catalog, log: seq<Step>, n: nat)
    requires n <= |log|
    ensures log == log[..n] + log[n..] && Run(s, log) == Run(Run(s, log[..n]), log[n..])
  {
    assert log == log[..n] + log[n..];
    RunAppend(s, log[..n], log[n..]);
  }

  /** Every merge of a provider-id repair folds a live row into a strictly preferred live row,
      and the number of merges is the number of rows that disappeared. */
  lemma {:induction false} ProviderRunIsLive(s: Catalog, columns: seq<Column>, log: seq<Step>)
    requires ProviderRun(s, columns, log)
    ensures Live(s, log) && Descending(log) && Orderly(s, log)
    ensures |Run(s, log).index| == |s.index| - |log|
  {
    if columns != [] {
      var a, b := LastPass(s, columns, log);
      ProviderRunIsLive(s, columns[..|columns| - 1], a);
      ColumnPassIsLive(Run(s, a), columns[|columns| - 1], b);
      LiveAppend(s, a, b);
    }
    LiveCount(s, log);
    LiveIsOrderly(s, log);
  }

  /** Whatever the order of the columns, every visited column is injective at the end: no later
      pass undoes an earlier one, although it rewrites the other columns. */
  lemma {:induction false} ProviderRunRepairs(s: Catalog, columns: seq<Column>, log: seq<Step>, c: Column)
    requires ProviderRun(s, columns, log)
    requires c in columns || Injective(s.index, c)
    ensures Injective(Run(s, log).index, c)
  {
    if columns != [] {
      var front, last := columns[..|columns| - 1], columns[|columns| - 1];
      assert columns == front + [last];
      var a, b := LastPass(s, columns, log);
      if c != last {
        ProviderRunRepairs(s, front, a, c);
      }
      ColumnPassRepairs(Run(s, a), last, b, c);
    }
  }

  /** Repair merges nothing exactly when every column is injective already; so it is idempotent. */
  lemma {:induction false} ProviderRunOverRepaired(s: Catalog, columns: seq<Column>, log: seq<Step>)
    requires ProviderRun(s, columns, log)
    ensures (forall c :: c in columns ==> Injective(s.index, c)) <==> log == []
  {
    if columns != [] {
      var front, c := columns[..|columns| - 1], columns[|columns| - 1];
      assert columns == front + [c];
      var a, b := LastPass(s, columns, log);
      ProviderRunOverRepaired(s, front, a);
      if a == [] {
        PassOverInjective(ColumnKeys(s.index, c), b);
        InjectiveKeys(s.index, c);
      }
    }
  }

  /** A repair over all columns, in any order: every column is injective, one row disappears
      per merge, and repairing again changes nothing. */
  lemma ProviderRepair(s: Catalog, columns: seq<Column>, log: seq<Step>)
    requires ProviderRun(s, columns, log) && forall c: Column :: c in columns
    ensures AllInjective(Run(s, log).index)
    ensures |Run(s, log).index| == |s.index| - |log|
    ensures AllInjective(s.index) <==> log == []
  {
    forall c: Column ensures Injective(Run(s, log).index, c) {
      ProviderRunRepairs(s, columns, log, c);
    }
    ProviderRunIsLive(s, columns, log);
    ProviderRunOverRepaired(s, columns, log);
  }

  lemma NothingToFold<K>(keys: map<int, K>)
    requires Distinct(keys)
    ensures IsPass(keys, [])
  {
    forall id | id in keys ensures Leads(keys, id) {}
  }

  /** A grouping whose only clash is one pair. */
  lemma PairPass<K>(keys: map<int, K>, st: Step)
    requires st.duplicate in keys && st.canonical in keys && keys[st.duplicate] == keys[st.canonical]
    requires Prefers(st.canonical, st.duplicate)
    requires Distinct(keys - {st.duplicate})
    ensures IsPass(keys, [st])
  {
    forall i, j | i in keys && j in keys && keys[i] == keys[j] && i != j
      ensures {i, j} == {st.duplicate, st.canonical}
    {
      var others := keys - {st.duplicate};
      assert i in others && j in others ==> i == j;
      if i == st.duplicate {
        assert j in others && st.canonical in others;
      } else if j == st.duplicate {
        assert i in others && st.canonical in others;
      }
    }
    var log := [st];
    assert log[..0] == [];
    assert FoldsToLeader(keys, st);
    assert log[0].duplicate in Duplicates(log);
  }

  // ---------- the title repair ----------

  /** The rows with a non-blank title, keyed by LOWER(TRIM(title)). */
  function TitleKeys(titles: map<int, Option<string>>, trim: string -> string, lower: string -> string): map<int, string> {
    map id | id in titles && titles[id].Some? && trim(titles[id].value) != "" :: lower(trim(titles[id].value))
  }

  predicate SameTitle(a: Option<string>, b: Option<string>, trim: string -> string, lower: string -> string) {
    && a.Some? && b.Some? && trim(a.value) != "" && trim(b.value) != ""
    && lower(trim(a.value)) == lower(trim(b.value))
  }

  /** No two anime rows have the same normalised title, blank ones aside. */
  ghost predicate TitlesDistinct(titles: map<int, Option<string>>, trim: string -> string, lower: string -> string) {
    forall i, j | i in titles && j in titles && SameTitle(titles[i], titles[j], trim, lower) :: i == j
  }

  lemma SameTitleSameKey(titles: map<int, Option<string>>, trim: string -> string, lower: string -> string, i: int, j: int)
    requires i in titles && j in titles && SameTitle(titles[i], titles[j], trim, lower)
    ensures var keys := TitleKeys(titles, trim, lower); i in keys && j in keys && keys[i] == keys[j]
  {
  }

  lemma TitlePassSeparates(s: Catalog, trim: string -> string, lower: string -> string, log: seq<Step>)
    requires IsPass(TitleKeys(s.titles, trim, lower), log)
    ensures TitlesDistinct(Run(s, log).titles, trim, lower)
  {
    var keys, after := TitleKeys(s.titles, trim, lower), Run(s, log).titles;
    PassDuplicates(keys, log);
    RunTitles(s, log);
    forall i, j | i in after && j in after && SameTitle(after[i], after[j], trim, lower) ensures i == j {
      SameTitleSameKey(s.titles, trim, lower, i, j);
      PassLeavesDistinct(keys, log, i, j);
    }
  }

  /** A title pass leaves no two rows with one normalised title, removes one anime row per
      merge, and does not break a column that was injective. */
  lemma TitlePassRepairs(s: Catalog, trim: string -> string, lower: string -> string, log: seq<Step>)
    requires IsPass(TitleKeys(s.titles, trim, lower), log)
    ensures TitlesDistinct(Run(s, log).titles, trim, lower)
    ensures forall c :: Injective(s.index, c) ==> Injective(Run(s, log).index, c)
    ensures |Run(s, log).titles| == |s.titles| - |log|
    ensures Orderly(s, log)
  {
    TitlePassSeparates(s, trim, lower, log);
    PassIsOrderly(s, TitleKeys(s.titles, trim, lower), log);
    forall c | Injective(s.index, c) ensures Injective(Run(s, log).index, c) {
      RunKeepsInjective(s, log, c);
    }
    PassCount(s, TitleKeys(s.titles, trim, lower), log);
  }

  lemma PassCount<K>(s: Catalog, keys: map<int, K>, log: seq<Step>)
    requires IsPass(keys, log) && keys.Keys <= s.titles.Keys
    ensures |Run(s, log).titles| == |s.titles| - |log|
  {
    PassDuplicates(keys, log);
    RunKeys(s, log);
    CountDuplicates(log);
    CountLeft(s.titles, Run(s, log).titles, Duplicates(log));
  }

  // ---------- which rows a title pass merges ----------

  /** Two anime rows with one normalised title, which is not blank. */
  predicate Namesakes(titles: map<int, Option<string>>, i: int, j: int, trim: string -> string, lower: string -> string) {
    i in titles && j in titles && SameTitle(titles[i], titles[j], trim, lower)
  }

  lemma NamesakesByKey(titles: map<int, Option<string>>, i: int, j: int, trim: string -> string, lower: string -> string)
    ensures var keys := TitleKeys(titles, trim, lower);
      Namesakes(titles, i, j, trim, lower) <==> i in keys && j in keys && keys[i] == keys[j]
  {
  }

  /** A title pass merges namesakes only. */
  lemma TitlePassMergesNamesakes(titles: map<int, Option<string>>, trim: string -> string, lower: string -> string, log: seq<Step>)
    requires IsPass(TitleKeys(titles, trim, lower), log)
    ensures forall st :: st in log ==> Namesakes(titles, st.duplicate, st.canonical, trim, lower)
  {
    forall st | st in log ensures Namesakes(titles, st.duplicate, st.canonical, trim, lower) {
      var j :| 0 <= j < |log| && log[j] == st;
      assert FoldsToLeader(TitleKeys(titles, trim, lower), log[j]);
      NamesakesByKey(titles, st.duplicate, st.canonical, trim, lower);
    }
  }

  /** ... none exactly when titles are distinct ... */
  lemma TitlePassOverDistinct(titles: map<int, Option<string>>, trim: string -> string, lower: string -> string, log: seq<Step>)
    requires IsPass(TitleKeys(titles, trim, lower), log)
    ensures log == [] <==> TitlesDistinct(titles, trim, lower)
  {
    var keys := TitleKeys(titles, trim, lower);
    PassOverInjective(keys, log);
    if TitlesDistinct(titles, trim, lower) {
      forall i, j | i in keys && j in keys && keys[i] == keys[j] ensures i == j {
        NamesakesByKey(titles, i, j, trim, lower);
      }
    } else {
      var i, j :| i in titles && j in titles && SameTitle(titles[i], titles[j], trim, lower) && i != j;
      SameTitleSameKey(titles, trim, lower, i, j);
    }
  }

  /** ... and leaves exactly the rows that have no preferred namesake. */
  lemma TitlePassLeaves(s: Catalog, trim: string -> string, lower: string -> string, log: seq<Step>, id: int)
    requires IsPass(TitleKeys(s.titles, trim, lower), log)
    ensures id in Run(s, log).titles <==>
      id in s.titles && forall j :: Namesakes(s.titles, id, j, trim, lower) ==> j == id || Prefers(id, j)
  {
    var keys := TitleKeys(s.titles, trim, lower);
    PassDuplicates(keys, log);
    RunKeys(s, log);
    forall j ensures Namesakes(s.titles, id, j, trim, lower) <==> id in keys && j in keys && keys[id] == keys[j] {
      NamesakesByKey(s.titles, id, j, trim, lower);
    }
  }

  /** Merges change no title, so later namesakes were namesakes from the start. */
  lemma NamesakesBefore(s: Catalog, log: seq<Step>, i: int, j: int, trim: string -> string, lower: string -> string)
    requires Proper(log) && Namesakes(Run(s, log).titles, i, j, trim, lower)
    ensures Namesakes(s.titles, i, j, trim, lower)
  {
    RunTitles(s, log);
  }

  // ---------- what a title pass does to external ids ----------

  /** A column that an id had set is set at the id's survivor after a title pass exactly when the
      survivor, the preferred id of the title's group, has an `indexList` row: a group is led by
      any anime row. Otherwise a value that only this id held is lost to every lookup. */
  lemma TitlePassMayLoseIds(s: Catalog, trim: string -> string, lower: string -> string, log: seq<Step>, id: int, c: Column)
    requires IsPass(TitleKeys(s.titles, trim, lower), log)
    requires Cell(s.index, id, c).Some?
    ensures var keys := TitleKeys(s.titles, trim, lower);
      if id in keys then Leads(keys, Resolve(log, id)) && keys[Resolve(log, id)] == keys[id] else Resolve(log, id) == id
    ensures Cell(Run(s, log).index, Resolve(log, id), c).Some? <==> Resolve(log, id) in s.index
    ensures Injective(s.index, c) && Resolve(log, id) !in s.index ==>
              !Answerable(Run(s, log).index, c, Cell(s.index, id, c).value)
  {
    var keys, r, after := TitleKeys(s.titles, trim, lower), Resolve(log, id), Run(s, log).index;
    var ext := Cell(s.index, id, c).value;
    PassIsOrderly(s, keys, log);
    PassResolves(keys, log, id);
    Settled(log, id);
    RunKeys(s, log);
    assert Supplies(s, log, r, c, ext, id);
    if r in s.index {
      RunUnitesIndex(s, log, r, c);
    } else if Injective(s.index, c) {
      if other :| Holds(after, other, c, ext) {
        HolderSurvives(s, log, c, ext, id, other);
        assert false;
      }
    }
  }

  /** What only one id held, only its survivor can hold. */
  lemma HolderSurvives(s: Catalog, log: seq<Step>, c: Column, ext: int, id: int, other: int)
    requires Orderly(s, log) && Injective(s.index, c) && Holds(s.index, id, c, ext)
    requires Holds(Run(s, log).index, other, c, ext)
    ensures other == Resolve(log, id)
  {
    RunUnitesIndex(s, log, other, c);
    var k :| Supplies(s, log, other, c, ext, k);
    assert Holds(s.index, k, c, ext) && Holds(s.index, id, c, ext);
  }

  /** Anime 3 has no external ids and the title of anime 5, which has one. */
  function Untracked(): Catalog {
    Catalog(map[5 := map[MalId := 7]], map[3 := Some("x"), 5 := Some("x")], map[], [], [])
  }

  /** The title repair folds 5 into 3, and the catalogue no longer knows MAL id 7. */
  lemma TitleMergeLosesAnId(trim: string -> string, lower: string -> string, log: seq<Step>)
    requires trim("x") != "" && IsPass(TitleKeys(Untracked().titles, trim, lower), log)
    ensures Answerable(Untracked().index, MalId, 7) && !Answerable(Run(Untracked(), log).index, MalId, 7)
  {
    var s, keys := Untracked(), TitleKeys(Untracked().titles, trim, lower);
    assert Holds(s.index, 5, MalId, 7) && Injective(s.index, MalId);
    assert keys == map[3 := lower(trim("x")), 5 := lower(trim("x"))];
    TitlePassMayLoseIds(s, trim, lower, log, 5, MalId);
    assert 3 in keys && keys[3] == keys[5] && Prefers(3, 5);
  }

  // ---------- provider ids, then titles ----------

  lemma FreshAppend(a: seq<Step>, b: seq<Step>, left: set<int>)
    requires Fresh(a) && Fresh(b) && UsesOnly(left, b) && left !! Duplicates(a)
    ensures Fresh(a + b)
  {
    forall j | 0 <= j < |a + b|
      ensures (a + b)[j].duplicate !in Duplicates((a + b)[..j])
      ensures (a + b)[j].canonical !in Duplicates((a + b)[..j])
    {
      if j < |a| {
        assert (a + b)[..j] == a[..j];
      } else {
        assert (a + b)[..j] == a + b[..j - |a|];
        DuplicatesAppend(a, b[..j - |a|]);
        assert (a + b)[j] == b[j - |a|] && b[j - |a|] in b;
      }
    }
  }

  /** A log over `indexList` rows followed by a pass over the anime rows it has left. */
  lemma OrderlyAppend<K>(s: Catalog, a: seq<Step>, keys: map<int, K>, b: seq<Step>)
    requires Live(s, a) && Descending(a)
    requires IsPass(keys, b) && keys.Keys <= Run(s, a).titles.Keys
    ensures Orderly(s, a + b)
  {
    LiveIsOrderly(s, a);
    PassIsOrderly(Run(s, a), keys, b);
    RunKeys(s, a);
    FreshAppend(a, b, keys.Keys);
    DuplicatesAppend(a, b);
  }

  /** The full repair: columns in any order, then titles. All columns are injective, all titles
      distinct, and the log is one on which the laws about runs hold. */
  lemma FullRepair(s: Catalog, columns: seq<Column>, byId: seq<Step>,
                   trim: string -> string, lower: string -> string, byTitle: seq<Step>)
    requires forall c: Column :: c in columns
    requires ProviderRun(s, columns, byId)
    requires IsPass(TitleKeys(Run(s, byId).titles, trim, lower), byTitle)
    ensures Orderly(s, byId + byTitle)
    ensures AllInjective(Run(s, byId + byTitle).index)
    ensures TitlesDistinct(Run(s, byId + byTitle).titles, trim, lower)
  {
    ProviderRunIsLive(s, columns, byId);
    OrderlyAppend(s, byId, TitleKeys(Run(s, byId).titles, trim, lower), byTitle);
    ProviderRepair(s, columns, byId);
    TitlePassRepairs(Run(s, byId), trim, lower, byTitle);
    RunAppend(s, byId, byTitle);
  }
}
