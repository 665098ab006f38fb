/**
 What the iteration order of the provider columns can change. The columns come from a frozenset
 (shared/contracts.py), so a repair must be judged over every order.
 */
module CatalogOrder {
  import opened Wrappers
  import opened CatalogIdentity
  import opened CatalogModel
  import opened CatalogRepair

  // ---------- families of rows ----------

  /** Whoever shares a value with a member is a member. */
  ghost predicate Closed(index: map<int, ExternalIds>, group: iset<int>) {
    forall i, j, c, e :: i in group && Holds(index, i, c, e) && Holds(index, j, c, e) ==> j in group
  }

  /** Chains of shared values lead from i to j: no closed group has i without j. */
  ghost predicate Related(index: map<int, ExternalIds>, i: int, j: int) {
    forall group :: Closed(index, group) && i in group ==> j in group
  }

  /** The family of i has no two values in the column. */
  ghost predicate Uncontested(index: map<int, ExternalIds>, i: int, c: Column) {
    forall j, k, e, f ::
      Related(index, i, j) && Related(index, i, k) && Holds(index, j, c, e) && Holds(index, k, c, f) ==> e == f
  }

  ghost predicate SurelyClosed(index: map<int, ExternalIds>, group: iset<int>) {
    forall i, j, c, e ::
      i in group && Holds(index, i, c, e) && Holds(index, j, c, e) && Uncontested(index, i, c) ==> j in group
  }

  /** Chains of uncontested values lead from i to j. */
  ghost predicate SurelyRelated(index: map<int, ExternalIds>, i: int, j: int) {
    forall group :: SurelyClosed(index, group) && i in group ==> j in group
  }

  /** The preferred row of a family, and of the part of it that uncontested values hold together. */
  ghost predicate IsHead(index: map<int, ExternalIds>, h: int) {
    h in index && forall j :: Related(index, h, j) ==> j == h || Prefers(h, j)
  }

  ghost predicate IsSureHead(index: map<int, ExternalIds>, h: int) {
    h in index && forall j :: SurelyRelated(index, h, j) ==> j == h || Prefers(h, j)
  }

  ghost predicate Share(index: map<int, ExternalIds>, i: int, j: int) {
    exists c, e :: Holds(index, i, c, e) && Holds(index, j, c, e)
  }

  lemma RelatedBothWays(index: map<int, ExternalIds>, i: int, j: int)
    requires Related(index, i, j)
    ensures Related(index, j, i)
  {
    forall group | Closed(index, group) && j in group ensures i in group {
      var others := iset x | x !in group;
      assert Closed(index, others);
    }
  }

  lemma RelatedThrough(index: map<int, ExternalIds>, i: int, j: int, k: int)
    requires Related(index, i, j) && Related(index, j, k)
    ensures Related(index, i, k)
  {
  }

  lemma SharersRelated(index: map<int, ExternalIds>, i: int, j: int, c: Column, e: int)
    requires Holds(index, i, c, e) && Holds(index, j, c, e)
    ensures Related(index, i, j)
  {
  }

  lemma RelativesAreRows(index: map<int, ExternalIds>, i: int, j: int)
    requires i in index && Related(index, i, j)
    ensures j in index
  {
    assert Closed(index, iset x | x in index);
  }

  lemma {:induction false} LeastOf(ids: set<int>, x: int) returns (m: int)
    requires x in ids
    ensures m in ids && forall i :: i in ids ==> i == m || Prefers(m, i)
    decreases |ids|
  {
    m := x;
    if y :| y in ids && y != x {
      var least := LeastOf(ids - {x}, y);
      m := if Prefers(least, x) then least else x;
      assert forall i :: i in ids ==> i == x || i in ids - {x};
    }
  }

  lemma HeadOf(index: map<int, ExternalIds>, i: int) returns (h: int)
    requires i in index
    ensures IsHead(index, h) && Related(index, i, h)
  {
    var family := set j | j in index && Related(index, i, j);
    h := LeastOf(family, i);
    forall j | Related(index, h, j) ensures j in family {
      RelatedThrough(index, i, h, j);
      RelativesAreRows(index, i, j);
    }
  }

  // ---------- repairs stay within families ----------

  lemma {:induction false} ResolvesToRelative(index: map<int, ExternalIds>, log: seq<Step>, id: int)
    requires forall st :: st in log ==> Related(index, st.duplicate, st.canonical)
    ensures Related(index, id, Resolve(log, id))
  {
    if log != [] {
      var front, last := log[..|log| - 1], log[|log| - 1];
      assert last in log && forall st :: st in front ==> st in log;
      ResolvesToRelative(index, front, id);
    }
  }

  /** Every merge of a provider-id repair, in any column order, folds a row into a relative. */
  lemma {:induction false} MergesRelatives(s: Catalog, columns: seq<Column>, log: seq<Step>)
    requires ProviderRun(s, columns, log)
    ensures forall st :: st in log ==> Related(s.index, st.duplicate, st.canonical)
  {
    if columns != [] {
      var a, b := LastPass(s, columns, log);
      var keys := ColumnKeys(Run(s, a).index, columns[|columns| - 1]);
      MergesRelatives(s, columns[..|columns| - 1], a);
      ProviderRunIsLive(s, columns[..|columns| - 1], a);
      forall st | st in b ensures Related(s.index, st.duplicate, st.canonical) {
        var j :| 0 <= j < |b| && b[j] == st;
        assert FoldsToLeader(keys, b[j]);
        HoldersRelated(s, a, columns[|columns| - 1], keys[st.duplicate], st.duplicate, st.canonical);
      }
    }
  }

  /** Rows that have come to share a value are relatives. */
  lemma HoldersRelated(s: Catalog, log: seq<Step>, c: Column, e: int, i: int, j: int)
    requires Orderly(s, log) && forall st :: st in log ==> Related(s.index, st.duplicate, st.canonical)
    requires Holds(Run(s, log).index, i, c, e) && Holds(Run(s, log).index, j, c, e)
    ensures Related(s.index, i, j)
  {
    var k := RelativeWith(s, log, c, e, i);
    var l := RelativeWith(s, log, c, e, j);
    SharersRelated(s.index, k, l, c, e);
    RelatedThrough(s.index, i, k, l);
    RelatedBothWays(s.index, j, l);
    RelatedThrough(s.index, i, l, j);
  }

  /** The value of a surviving row was a relative's, one that was folded into it. */
  lemma RelativeWith(s: Catalog, log: seq<Step>, c: Column, e: int, i: int) returns (k: int)
    requires Orderly(s, log) && forall st :: st in log ==> Related(s.index, st.duplicate, st.canonical)
    requires Holds(Run(s, log).index, i, c, e)
    ensures Related(s.index, i, k) && Holds(s.index, k, c, e) && Resolve(log, k) == i
  {
    RunUnitesIndex(s, log, i, c);
    k :| Supplies(s, log, i, c, e, k);
    ResolvesToRelative(s.index, log, k);
    RelatedBothWays(s.index, k, i);
  }

  // ---------- every order, whatever the catalogue ----------

  /** A full repair, in some order of the columns. */
  ghost predicate FullRun(s: Catalog, columns: seq<Column>, log: seq<Step>) {
    ProviderRun(s, columns, log) && forall c: Column :: c in columns
  }

  lemma FullRunFacts(s: Catalog, columns: seq<Column>, log: seq<Step>)
    requires FullRun(s, columns, log)
    ensures Orderly(s, log) && AllInjective(Run(s, log).index)
    ensures forall st :: st in log ==> Related(s.index, st.duplicate, st.canonical)
    ensures Run(s, log).index.Keys == s.index.Keys - Duplicates(log)
  {
    ProviderRunIsLive(s, columns, log);
    ProviderRepair(s, columns, log);
    MergesRelatives(s, columns, log);
    RunKeys(s, log);
  }

  /** The j-th merge is of rows that share a value by then, into the preferred one. */
  ghost predicate SharersAt(s: Catalog, log: seq<Step>, j: nat)
    requires j < |log|
  {
    Share(Run(s, log[..j]).index, log[j].duplicate, log[j].canonical) && Prefers(log[j].canonical, log[j].duplicate)
  }

  lemma {:induction false} MergesSharers(s: Catalog, columns: seq<Column>, log: seq<Step>, j: nat)
    requires ProviderRun(s, columns, log) && j < |log|
    ensures SharersAt(s, log, j)
  {
    if columns != [] {
      var a, b := LastPass(s, columns, log);
      if j < |a| {
        MergesSharers(s, columns[..|columns| - 1], a, j);
      }
      SharersJoin(s, log, a, columns[|columns| - 1], b, j);
    }
  }

  /** One more pass. */
  lemma SharersJoin(s: Catalog, log: seq<Step>, a: seq<Step>, c: Column, b: seq<Step>, j: nat)
    requires log == a + b && j < |log| && IsPass(ColumnKeys(Run(s, a).index, c), b)
    requires j < |a| ==> SharersAt(s, a, j)
    ensures SharersAt(s, log, j)
  {
    if j < |a| {
      assert log[..j] == a[..j];
    } else {
      PassMergesSharers(Run(s, a), c, b, j - |a|);
      RunUpTo(s, log, a, b, j);
    }
  }

  lemma RunUpTo(s: Catalog, log: seq<Step>, a: seq<Step>, b: seq<Step>, j: nat)
    requires log == a + b && |a| <= j <= |log|
    ensures Run(s, log[..j]) == Run(Run(s, a), b[..j - |a|])
  {
    assert log[..j] == a + b[..j - |a|];
    RunAppend(s, a, b[..j - |a|]);
  }

  lemma PassMergesSharers(s: Catalog, c: Column, log: seq<Step>, n: nat)
    requires IsPass(ColumnKeys(s.index, c), log) && n < |log|
    ensures SharersAt(s, log, n)
  {
    var keys, front, st := ColumnKeys(s.index, c), log[..n], log[n];
    PassDuplicates(keys, log);
    assert FoldsToLeader(keys, st);
    forall st | st in front ensures st.duplicate != st.canonical {
      assert st in log;
    }
    RunKeys(s, front);
    RunKeepsColumn(s, front, c, st.duplicate);
    RunKeepsColumn(s, front, c, st.canonical);
    var now, e := Run(s, front).index, keys[st.duplicate];
    assert Holds(now, st.duplicate, c, e) && Holds(now, st.canonical, c, e);
  }

  /** The head of every family survives, and folds stay below it. */
  lemma HeadsSurvive(s: Catalog, columns: seq<Column>, log: seq<Step>, h: int)
    requires FullRun(s, columns, log) && IsHead(s.index, h)
    ensures h in Run(s, log).index
  {
    FullRunFacts(s, columns, log);
    ResolvesToRelative(s.index, log, h);
    ResolveDescends(log, h);
    Settled(log, h);
  }

  /** A surviving row keeps its values ... */
  lemma SurvivorKeepsValue(s: Catalog, columns: seq<Column>, log: seq<Step>, id: int, c: Column, e: int)
    requires FullRun(s, columns, log) && Holds(s.index, id, c, e) && id in Run(s, log).index
    ensures Holds(Run(s, log).index, id, c, e)
  {
    FullRunFacts(s, columns, log);
    RunUnitesIndex(s, log, id, c);
  }

  /** ... so one whose value another row has at the end has been folded. */
  lemma ClashIsFolded(s: Catalog, columns: seq<Column>, log: seq<Step>, i: int, id: int, c: Column, e: int)
    requires FullRun(s, columns, log) && Holds(s.index, id, c, e)
    requires Holds(Run(s, log).index, i, c, e) && i != id
    ensures id !in Run(s, log).index
  {
    if id in Run(s, log).index {
      SurvivorKeepsValue(s, columns, log, id, c, e);
      FullRunFacts(s, columns, log);
      OneHolder(Run(s, log).index, i, id, c, e);
      assert false;
    }
  }

  lemma OneHolder(index: map<int, ExternalIds>, i: int, j: int, c: Column, e: int)
    requires AllInjective(index) && Holds(index, i, c, e) && Holds(index, j, c, e)
    ensures i == j
  {
    assert Injective(index, c);
  }

  /** Rows that shared a value do not both survive. */
  lemma SurvivorsShareNothing(s: Catalog, columns: seq<Column>, log: seq<Step>, i: int, j: int)
    requires FullRun(s, columns, log) && Share(s.index, i, j)
    requires i in Run(s, log).index && j in Run(s, log).index
    ensures i == j
  {
    var c, e :| Holds(s.index, i, c, e) && Holds(s.index, j, c, e);
    SurvivorKeepsValue(s, columns, log, i, c, e);
    if i != j {
      ClashIsFolded(s, columns, log, i, j, c, e);
      assert false;
    }
  }

  // ---------- what uncontested values hold together ----------

  /** The survivor of a row has the row's uncontested values. */
  lemma SurvivorHasValue(s: Catalog, columns: seq<Column>, log: seq<Step>, i: int, c: Column, e: int)
    requires FullRun(s, columns, log) && Holds(s.index, i, c, e) && Uncontested(s.index, i, c)
    ensures Holds(Run(s, log).index, Resolve(log, i), c, e)
  {
    FullRunFacts(s, columns, log);
    var r, after := Resolve(log, i), Run(s, log).index;
    ResolvesToRelative(s.index, log, i);
    RelativesAreRows(s.index, i, r);
    Settled(log, i);
    RunUnitesIndex(s, log, r, c);
    assert Supplies(s, log, r, c, e, i);
    var f := after[r][c];
    assert Holds(after, r, c, f);
    var k := RelativeWith(s, log, c, f, r);
    RelatedThrough(s.index, i, r, k);
    assert Related(s.index, i, i);
  }

  lemma SureSharersMeet(s: Catalog, columns: seq<Column>, log: seq<Step>, i: int, j: int, c: Column, e: int)
    requires FullRun(s, columns, log) && Uncontested(s.index, i, c)
    requires Holds(s.index, i, c, e) && Holds(s.index, j, c, e)
    ensures Resolve(log, i) == Resolve(log, j)
  {
    SharersRelated(s.index, i, j, c, e);
    UncontestedForAll(s.index, i, j, c);
    SurvivorHasValue(s, columns, log, i, c, e);
    SurvivorHasValue(s, columns, log, j, c, e);
    FullRunFacts(s, columns, log);
    assert Injective(Run(s, log).index, c);
  }

  lemma UncontestedForAll(index: map<int, ExternalIds>, i: int, j: int, c: Column)
    requires Related(index, i, j) && Uncontested(index, i, c)
    ensures Uncontested(index, j, c)
  {
    forall k | Related(index, j, k) ensures Related(index, i, k) {
      RelatedThrough(index, i, j, k);
    }
  }

  /** Rows that uncontested values hold together end as one row, in every order. */
  lemma SureRelativesMeet(s: Catalog, columns: seq<Column>, log: seq<Step>, i: int, j: int)
    requires FullRun(s, columns, log) && SurelyRelated(s.index, i, j)
    ensures Resolve(log, i) == Resolve(log, j)
  {
    var group := iset x | Resolve(log, x) == Resolve(log, i);
    forall x, y, c, e | x in group && Holds(s.index, x, c, e) && Holds(s.index, y, c, e) && Uncontested(s.index, x, c)
      ensures y in group
    {
      SureSharersMeet(s, columns, log, x, y, c, e);
    }
    assert SurelyClosed(s.index, group);
  }

  // ---------- when the order does not matter ----------

  /** Each part of a family that uncontested values hold together has, as its preferred row, the
      head of the family or a row that shares a value with it. */
  ghost predicate Coherent(index: map<int, ExternalIds>) {
    forall i, h :: IsSureHead(index, i) && IsHead(index, h) && Related(index, i, h) ==> i == h || Share(index, h, i)
  }

  /** In a coherent catalogue every order of the columns and of the rows leaves the same ids: of
      every family its preferred row, and no other. */
  lemma OneRowPerFamily(s: Catalog, columns: seq<Column>, log: seq<Step>, id: int)
    requires FullRun(s, columns, log) && Coherent(s.index)
    ensures id in Run(s, log).index <==> IsHead(s.index, id)
  {
    FullRunFacts(s, columns, log);
    if id in Run(s, log).index {
      SurvivorsLead(s, columns, log, id);
      var h := HeadOf(s.index, id);
      HeadsSurvive(s, columns, log, h);
      if id != h {
        SurvivorsShareNothing(s, columns, log, h, id);
      }
    }
    if IsHead(s.index, id) {
      HeadsSurvive(s, columns, log, id);
    }
  }

  /** What survives leads the rows that uncontested values tie it to. */
  lemma SurvivorsLead(s: Catalog, columns: seq<Column>, log: seq<Step>, id: int)
    requires FullRun(s, columns, log) && id in Run(s, log).index
    ensures IsSureHead(s.index, id)
  {
    FullRunFacts(s, columns, log);
    Settled(log, id);
    forall j | SurelyRelated(s.index, id, j) ensures j == id || Prefers(id, j) {
      SureRelativesMeet(s, columns, log, id, j);
      ResolveDescends(log, j);
    }
  }

  // ---------- which lookups a repair keeps ----------

  lemma OneHead(index: map<int, ExternalIds>, i: int, h: int, k: int)
    requires IsHead(index, h) && IsHead(index, k) && Related(index, i, h) && Related(index, i, k)
    ensures h == k
  {
    RelatedBothWays(index, i, h);
    RelatedThrough(index, h, i, k);
    RelatedBothWays(index, h, k);
  }

  /** In a coherent catalogue only the head can answer for a value of its family. */
  lemma AnsweredByHead(s: Catalog, columns: seq<Column>, log: seq<Step>, i: int, j: int, c: Column, e: int, h: int)
    requires FullRun(s, columns, log) && Coherent(s.index) && IsHead(s.index, h) && Related(s.index, i, h)
    requires Related(s.index, i, j) && Holds(s.index, j, c, e) && Answerable(Run(s, log).index, c, e)
    ensures Holds(Run(s, log).index, h, c, e)
  {
    FullRunFacts(s, columns, log);
    var a :| Holds(Run(s, log).index, a, c, e);
    var k := RelativeWith(s, log, c, e, a);
    RelatedBothWays(s.index, a, k);
    SharersRelated(s.index, j, k, c, e);
    RelatedThrough(s.index, i, j, k);
    RelatedThrough(s.index, i, k, a);
    OneRowPerFamily(s, columns, log, a);
    OneHead(s.index, i, a, h);
  }

  /** A repair of a coherent catalogue keeps every external id of a family's column answerable
      exactly when the family has no two values there. */
  lemma LookupsKept(s: Catalog, columns: seq<Column>, log: seq<Step>, i: int, c: Column)
    requires FullRun(s, columns, log) && Coherent(s.index)
    ensures (forall j, e :: Related(s.index, i, j) && Holds(s.index, j, c, e) ==> Answerable(Run(s, log).index, c, e))
       <==> Uncontested(s.index, i, c)
  {
    if Uncontested(s.index, i, c) {
      forall j, e | Related(s.index, i, j) && Holds(s.index, j, c, e) ensures Answerable(Run(s, log).index, c, e) {
        UncontestedForAll(s.index, i, j, c);
        SurvivorHasValue(s, columns, log, j, c, e);
      }
    } else {
      var j, k, e, f :| Related(s.index, i, j) && Related(s.index, i, k)
        && Holds(s.index, j, c, e) && Holds(s.index, k, c, f) && e != f;
      NotBothAnswered(s, columns, log, i, j, k, c, e, f);
    }
  }

  lemma NotBothAnswered(s: Catalog, columns: seq<Column>, log: seq<Step>, i: int, j: int, k: int, c: Column, e: int, f: int)
    requires FullRun(s, columns, log) && Coherent(s.index) && Related(s.index, i, j) && Related(s.index, i, k)
    requires Holds(s.index, j, c, e) && Holds(s.index, k, c, f) && e != f
    ensures !Answerable(Run(s, log).index, c, e) || !Answerable(Run(s, log).index, c, f)
  {
    var h := HeadOf(s.index, j);
    RelatedThrough(s.index, i, j, h);
    if Answerable(Run(s, log).index, c, e) {
      AnsweredByHead(s, columns, log, i, j, c, e, h);
      if Answerable(Run(s, log).index, c, f) {
        AnsweredByHead(s, columns, log, i, k, c, f, h);
        assert false;
      }
    }
  }

  // ---------- families that keep several rows ----------

  /** In every column either both rows have values, different ones, or the whole family has none. */
  ghost predicate Apart(index: map<int, ExternalIds>, a: int, b: int) {
    forall c: Column ::
      || (Cell(index, a, c).Some? && Cell(index, b, c).Some? && Cell(index, a, c) != Cell(index, b, c))
      || (forall k :: Related(index, a, k) ==> Cell(index, k, c).None?)
  }

  /** A row that no preferred relative can ever come to share a value with. */
  ghost predicate IsAnchor(index: map<int, ExternalIds>, a: int) {
    a in index && forall b :: Related(index, a, b) && Prefers(b, a) ==> Apart(index, a, b)
  }

  lemma OrderlyPrefix(s: Catalog, log: seq<Step>, n: nat)
    requires Orderly(s, log) && n <= |log|
    ensures Orderly(s, log[..n])
  {
    var front := log[..n];
    assert forall st :: st in front ==> st in log;
    forall j | 0 <= j < n ensures front[..j] == log[..j] && front[j] == log[j] {}
    forall x | x in Duplicates(front) ensures x in Duplicates(log) {
      var j :| 0 <= j < n && front[j].duplicate == x;
      assert log[j].duplicate == x;
    }
  }

  /** Rows that are apart stay so. */
  lemma ApartStays(s: Catalog, log: seq<Step>, a: int, b: int, c: Column, e: int)
    requires Orderly(s, log) && forall st :: st in log ==> Related(s.index, st.duplicate, st.canonical)
    requires Apart(s.index, a, b) && Holds(Run(s, log).index, a, c, e)
    ensures !Holds(Run(s, log).index, b, c, e)
  {
    var k := RelativeWith(s, log, c, e, a);
    RunUnitesIndex(s, log, a, c);
    if b in Run(s, log).index {
      RunUnitesIndex(s, log, b, c);
    }
  }

  /** Anchors are never folded, in any order. */
  lemma AnchorsSurvive(s: Catalog, columns: seq<Column>, log: seq<Step>, a: int)
    requires FullRun(s, columns, log) && IsAnchor(s.index, a)
    ensures a in Run(s, log).index
  {
    FullRunFacts(s, columns, log);
    forall j | 0 <= j < |log| ensures log[j].duplicate != a {
      AnchorNotFolded(s, columns, log, a, j);
    }
  }

  lemma AnchorNotFolded(s: Catalog, columns: seq<Column>, log: seq<Step>, a: int, j: nat)
    requires FullRun(s, columns, log) && IsAnchor(s.index, a) && j < |log|
    ensures log[j].duplicate != a
  {
    FullRunFacts(s, columns, log);
    MergesSharers(s, columns, log, j);
    OrderlyPrefix(s, log, j);
    assert log[j] in log && forall st :: st in log[..j] ==> st in log;
    var now, d, b := Run(s, log[..j]).index, log[j].duplicate, log[j].canonical;
    var c, e :| Holds(now, d, c, e) && Holds(now, b, c, e);
    if d == a {
      ApartStays(s, log[..j], a, b, c, e);
      assert false;
    }
  }

  /** Each part of a family that uncontested values hold together has, as its preferred row, an
      anchor or a row that shares a value with one. */
  ghost predicate Anchored(index: map<int, ExternalIds>) {
    forall i :: IsSureHead(index, i) ==> IsAnchor(index, i) || exists a :: IsAnchor(index, a) && Share(index, a, i)
  }

  /** In an anchored catalogue exactly the anchors survive, in every order. */
  lemma AnchorsAreLeft(s: Catalog, columns: seq<Column>, log: seq<Step>, id: int)
    requires FullRun(s, columns, log) && Anchored(s.index)
    ensures id in Run(s, log).index <==> IsAnchor(s.index, id)
  {
    if id in Run(s, log).index {
      SurvivorsLead(s, columns, log, id);
      if !IsAnchor(s.index, id) {
        var a :| IsAnchor(s.index, a) && Share(s.index, a, id);
        AnchorsSurvive(s, columns, log, a);
        SurvivorsShareNothing(s, columns, log, a, id);
        assert false;
      }
    }
    if IsAnchor(s.index, id) {
      AnchorsSurvive(s, columns, log, id);
    }
  }

  lemma HeadsAreAnchors(index: map<int, ExternalIds>, h: int)
    requires IsHead(index, h)
    ensures IsAnchor(index, h)
  {
  }

  /** Coherent catalogues are anchored, by the heads of their families. */
  lemma CoherentIsAnchored(index: map<int, ExternalIds>)
    requires Coherent(index)
    ensures Anchored(index)
  {
    forall i | IsSureHead(index, i) ensures IsAnchor(index, i) || exists a :: IsAnchor(index, a) && Share(index, a, i) {
      var h := HeadOf(index, i);
      HeadsAreAnchors(index, h);
    }
  }

  /** In an anchored catalogue, so in every coherent one, neither the order of the columns nor that
      of the rows decides who survives. */
  lemma ColumnOrderDoesNotMatter(s: Catalog, columns: seq<Column>, log: seq<Step>, columns': seq<Column>, log': seq<Step>)
    requires Anchored(s.index) && FullRun(s, columns, log) && FullRun(s, columns', log')
    ensures Run(s, log).index.Keys == Run(s, log').index.Keys && |log| == |log'|
  {
    forall id ensures id in Run(s, log).index <==> id in Run(s, log').index {
      AnchorsAreLeft(s, columns, log, id);
      AnchorsAreLeft(s, columns', log', id);
    }
    assert Run(s, log).index.Keys == Run(s, log').index.Keys;
    ProviderRunIsLive(s, columns, log);
    ProviderRunIsLive(s, columns', log');
    assert |Run(s, log).index.Keys| == |Run(s, log).index| && |Run(s, log').index.Keys| == |Run(s, log').index|;
  }

  /** Rows 1 and 2 disagree in both columns, and row 3 agrees with each in one. */
  function Disagreeing(): Catalog {
    Catalog(map[1 := map[MalId := 1, KitsuId := 5], 2 := map[MalId := 2, KitsuId := 6], 3 := map[MalId := 1, KitsuId := 6]],
            map[], map[], [], [])
  }

  lemma DisagreeingFamily(i: int, j: int)
    requires i in Disagreeing().index && j in Disagreeing().index
    ensures Related(Disagreeing().index, i, j)
  {
    var rows := Disagreeing().index;
    SharersRelated(rows, i, i, MalId, rows[i][MalId]);
    SharersRelated(rows, 1, 3, MalId, 1);
    SharersRelated(rows, 3, 1, MalId, 1);
    SharersRelated(rows, 2, 3, KitsuId, 6);
    SharersRelated(rows, 3, 2, KitsuId, 6);
    RelatedThrough(rows, 1, 3, 2);
    RelatedThrough(rows, 2, 3, 1);
  }

  lemma DisagreeingAnchors()
    ensures IsAnchor(Disagreeing().index, 1) && IsAnchor(Disagreeing().index, 2)
    ensures Share(Disagreeing().index, 1, 3)
  {
    var rows := Disagreeing().index;
    assert Holds(rows, 1, MalId, 1) && Holds(rows, 3, MalId, 1);
    forall a, b | (a == 1 || a == 2) && Related(rows, a, b) && Prefers(b, a) ensures a == 2 && b == 1 {
      RelativesAreRows(rows, a, b);
    }
    forall c: Column, k ensures c == MalId || c == KitsuId || Cell(rows, k, c).None? {}
    assert Apart(rows, 2, 1);
  }

  lemma DisagreeingSecond()
    ensures IsSureHead(Disagreeing().index, 2)
  {
    var rows := Disagreeing().index;
    DisagreeingFamily(2, 1);
    DisagreeingFamily(2, 3);
    assert Holds(rows, 1, KitsuId, 5) && Holds(rows, 3, KitsuId, 6);
    assert !Uncontested(rows, 2, KitsuId);
    assert SurelyClosed(rows, iset{2});
  }

  lemma DisagreeingIncoherent()
    ensures !Coherent(Disagreeing().index)
  {
    var rows := Disagreeing().index;
    DisagreeingSecond();
    DisagreeingFamily(2, 1);
    forall j | Related(rows, 1, j) ensures j in rows {
      RelativesAreRows(rows, 1, j);
    }
    assert IsHead(rows, 1) && !Share(rows, 1, 2);
  }

  lemma DisagreeingAnchored()
    ensures Anchored(Disagreeing().index)
  {
    var rows := Disagreeing().index;
    DisagreeingAnchors();
    forall i | IsSureHead(rows, i) ensures i == 1 || i == 2 || i == 3 {
      assert i in rows;
    }
  }

  lemma ThirdIsFolded(columns: seq<Column>, log: seq<Step>)
    requires FullRun(Disagreeing(), columns, log)
    ensures 3 !in Run(Disagreeing(), log).index
  {
    DisagreeingAnchors();
    AnchorsSurvive(Disagreeing(), columns, log, 1);
    if 3 in Run(Disagreeing(), log).index {
      SurvivorsShareNothing(Disagreeing(), columns, log, 1, 3);
      assert false;
    }
  }

  /** Every order leaves rows 1 and 2 of this family, which is anchored and not coherent. */
  lemma SeveralMayStay(columns: seq<Column>, log: seq<Step>)
    requires FullRun(Disagreeing(), columns, log)
    ensures forall id :: id in Run(Disagreeing(), log).index <==> id == 1 || id == 2
    ensures Anchored(Disagreeing().index) && !Coherent(Disagreeing().index)
  {
    DisagreeingAnchored();
    DisagreeingIncoherent();
    OnlyTwoStay(columns, log);
  }

  lemma OnlyTwoStay(columns: seq<Column>, log: seq<Step>)
    requires FullRun(Disagreeing(), columns, log)
    ensures forall id :: id in Run(Disagreeing(), log).index <==> id == 1 || id == 2
  {
    DisagreeingAnchors();
    AnchorsSurvive(Disagreeing(), columns, log, 1);
    AnchorsSurvive(Disagreeing(), columns, log, 2);
    ThirdIsFolded(columns, log);
    OnlyRowsSurvive(Disagreeing(), columns, log);
    assert Disagreeing().index.Keys == {1, 2, 3};
  }

  lemma OnlyRowsSurvive(s: Catalog, columns: seq<Column>, log: seq<Step>)
    requires FullRun(s, columns, log)
    ensures forall id :: id in Run(s, log).index ==> id in s.index.Keys
  {
    FullRunFacts(s, columns, log);
  }

  /** No row shares values with other rows in two columns. */
  ghost predicate ClashesInOneColumn(index: map<int, ExternalIds>) {
    forall i, j, k, c, d, e, f ::
      && Holds(index, i, c, e) && Holds(index, j, c, e) && i != j
      && Holds(index, i, d, f) && Holds(index, k, d, f) && i != k
      ==> c == d
  }

  /** Then a row's family are the rows it shares a value with. */
  lemma FamilyShares(index: map<int, ExternalIds>, i: int, h: int)
    requires ClashesInOneColumn(index) && Related(index, i, h) && i != h
    ensures Share(index, h, i)
  {
    var group := iset x | x == i || Share(index, i, x);
    forall x, y, d, f | x in group && Holds(index, x, d, f) && Holds(index, y, d, f) ensures y in group {
      if x != i && y != x {
        var c, e :| Holds(index, i, c, e) && Holds(index, x, c, e);
        assert c == d;
      }
    }
    assert Closed(index, group);
  }

  /** ... and the order of the columns does not matter. */
  lemma ClashesInOneColumnCohere(index: map<int, ExternalIds>)
    requires ClashesInOneColumn(index)
    ensures Coherent(index)
  {
    forall i, h | IsSureHead(index, i) && IsHead(index, h) && Related(index, i, h) && i != h ensures Share(index, h, i) {
      FamilyShares(index, i, h);
    }
  }

  /** In particular when only one column has clashes at all. */
  lemma OneClashingColumnCoheres(index: map<int, ExternalIds>, c: Column)
    requires forall d :: d != c ==> Injective(index, d)
    ensures Coherent(index)
  {
    forall i, j, d, e | Holds(index, i, d, e) && Holds(index, j, d, e) && i != j ensures d == c {
      assert d != c ==> Injective(index, d);
    }
    ClashesInOneColumnCohere(index);
  }

  // ---------- when it does ----------

  /** Three rows: 1 and 2 share a MAL id, 2 and 3 share a Kitsu id, and 1 has another. */
  function Overlapping(): Catalog {
    Catalog(map[1 := map[MalId := 1, KitsuId := 5], 2 := map[MalId := 1, KitsuId := 6], 3 := map[KitsuId := 6]],
            map[], map[], [], [])
  }

  lemma OneFold(s: Catalog, st: Step)
    ensures Run(s, [st]) == Fold(s, st)
  {
    assert [st][..0] == [];
    assert Run(s, []) == s;
  }

  /** Folding a row into one that has every column the row has. */
  lemma FoldAway(index: map<int, ExternalIds>, st: Step)
    requires st.duplicate != st.canonical && st.duplicate in index && st.canonical in index
    requires index[st.duplicate].Keys <= index[st.canonical].Keys
    ensures FoldIndex(index, st) == index - {st.duplicate}
  {
    assert index[st.duplicate] + index[st.canonical] == index[st.canonical];
  }

  lemma AfterMal()
    ensures Run(Overlapping(), [Step(2, 1)]).index
         == map[1 := map[MalId := 1, KitsuId := 5], 3 := map[KitsuId := 6]]
  {
    OneFold(Overlapping(), Step(2, 1));
    FoldAway(Overlapping().index, Step(2, 1));
  }

  lemma AfterKitsu()
    ensures Run(Overlapping(), [Step(3, 2)]).index
         == map[1 := map[MalId := 1, KitsuId := 5], 2 := map[MalId := 1, KitsuId := 6]]
  {
    OneFold(Overlapping(), Step(3, 2));
    FoldAway(Overlapping().index, Step(3, 2));
  }

  lemma FoldPair(index: map<int, ExternalIds>)
    requires index == map[1 := map[MalId := 1, KitsuId := 5], 2 := map[MalId := 1, KitsuId := 6]]
    ensures FoldIndex(index, Step(2, 1)) == map[1 := map[MalId := 1, KitsuId := 5]]
  {
    FoldAway(index, Step(2, 1));
  }

  lemma AfterBoth()
    ensures Run(Overlapping(), [Step(3, 2)] + [Step(2, 1)]).index == map[1 := map[MalId := 1, KitsuId := 5]]
  {
    RunAppend(Overlapping(), [Step(3, 2)], [Step(2, 1)]);
    OneFold(Run(Overlapping(), [Step(3, 2)]), Step(2, 1));
    AfterKitsu();
    FoldPair(Run(Overlapping(), [Step(3, 2)]).index);
  }

  lemma MalPass()
    ensures IsPass(ColumnKeys(Overlapping().index, MalId), [Step(2, 1)])
  {
    assert ColumnKeys(Overlapping().index, MalId) == map[1 := 1, 2 := 1];
    PairPass(map[1 := 1, 2 := 1], Step(2, 1));
  }

  lemma KitsuPassAfterMal()
    ensures IsPass(ColumnKeys(Run(Overlapping(), [Step(2, 1)]).index, KitsuId), [])
  {
    AfterMal();
    assert ColumnKeys(Run(Overlapping(), [Step(2, 1)]).index, KitsuId) == map[1 := 5, 3 := 6];
    NothingToFold(map[1 := 5, 3 := 6]);
  }

  lemma KitsuPass()
    ensures IsPass(ColumnKeys(Overlapping().index, KitsuId), [Step(3, 2)])
  {
    assert ColumnKeys(Overlapping().index, KitsuId) == map[1 := 5, 2 := 6, 3 := 6];
    PairPass(map[1 := 5, 2 := 6, 3 := 6], Step(3, 2));
  }

  lemma MalPassAfterKitsu()
    ensures IsPass(ColumnKeys(Run(Overlapping(), [Step(3, 2)]).index, MalId), [Step(2, 1)])
  {
    AfterKitsu();
    assert ColumnKeys(Run(Overlapping(), [Step(3, 2)]).index, MalId) == map[1 := 1, 2 := 1];
    PairPass(map[1 := 1, 2 := 1], Step(2, 1));
  }

  lemma FirstPass(s: Catalog, c: Column, log: seq<Step>)
    requires IsPass(ColumnKeys(s.index, c), log)
    ensures ProviderRun(s, [c], log)
  {
    assert Run(s, []) == s;
    PassAppend(s, [], c, [], log);
    assert [] + [c] == [c] && [] + log == log;
  }

  ghost predicate IsNull(index: map<int, ExternalIds>, c: Column) {
    forall id :: id in index ==> c !in index[id]
  }

  /** An empty column adds nothing to a repair. */
  lemma EmptyPass(s: Catalog, columns: seq<Column>, log: seq<Step>, c: Column)
    requires ProviderRun(s, columns, log) && IsNull(Run(s, log).index, c)
    ensures ProviderRun(s, columns + [c], log)
  {
    NothingToFold(ColumnKeys(Run(s, log).index, c));
    PassAppend(s, columns, c, log, []);
    assert log + [] == log;
  }

  lemma EmptyPasses(s: Catalog, columns: seq<Column>, log: seq<Step>)
    requires ProviderRun(s, columns, log)
    requires IsNull(Run(s, log).index, AnilistId) && IsNull(Run(s, log).index, AnidbId)
    ensures ProviderRun(s, columns + [AnilistId] + [AnidbId], log)
  {
    EmptyPass(s, columns, log, AnilistId);
    EmptyPass(s, columns + [AnilistId], log, AnidbId);
  }

  /** A full run whose last two columns are empty. */
  lemma TwoPasses(s: Catalog, c: Column, a: seq<Step>, d: Column, b: seq<Step>)
    requires IsPass(ColumnKeys(s.index, c), a) && IsPass(ColumnKeys(Run(s, a).index, d), b)
    requires {c, d} == {MalId, KitsuId}
    requires IsNull(Run(s, a + b).index, AnilistId) && IsNull(Run(s, a + b).index, AnidbId)
    ensures FullRun(s, [c] + [d] + [AnilistId] + [AnidbId], a + b)
  {
    FirstPass(s, c, a);
    PassAppend(s, [c], d, a, b);
    EmptyPasses(s, [c] + [d], a + b);
    AllFour([c] + [d] + [AnilistId] + [AnidbId]);
  }

  lemma AllFour(columns: seq<Column>)
    requires |columns| == 4 && columns[2] == AnilistId && columns[3] == AnidbId
    requires {columns[0], columns[1]} == {MalId, KitsuId}
    ensures forall c: Column :: c in columns
  {
    forall c: Column ensures c in columns {
      assert c in {columns[0], columns[1]} || c == columns[2] || c == columns[3];
    }
  }

  lemma LeftByMal()
    ensures var after := Run(Overlapping(), [Step(2, 1)]).index;
      after.Keys == {1, 3} && IsNull(after, AnilistId) && IsNull(after, AnidbId)
  {
    AfterMal();
  }

  lemma LeftByKitsu()
    ensures var after := Run(Overlapping(), [Step(3, 2)] + [Step(2, 1)]).index;
      after.Keys == {1} && IsNull(after, AnilistId) && IsNull(after, AnidbId)
  {
    AfterBoth();
  }

  lemma MalFirst()
    ensures FullRun(Overlapping(), [MalId] + [KitsuId] + [AnilistId] + [AnidbId], [Step(2, 1)])
  {
    MalPass();
    KitsuPassAfterMal();
    LeftByMal();
    assert [Step(2, 1)] + [] == [Step(2, 1)];
    TwoPasses(Overlapping(), MalId, [Step(2, 1)], KitsuId, []);
  }

  lemma KitsuFirst()
    ensures FullRun(Overlapping(), [KitsuId] + [MalId] + [AnilistId] + [AnidbId], [Step(3, 2)] + [Step(2, 1)])
  {
    KitsuPass();
    MalPassAfterKitsu();
    LeftByKitsu();
    TwoPasses(Overlapping(), KitsuId, [Step(3, 2)], MalId, [Step(2, 1)]);
  }

  /** In other catalogues the order of the columns can decide which rows survive: MAL ids first leave rows 1 and 3,
      Kitsu ids first leave row 1 alone. */
  lemma ColumnOrderMatters()
      returns (columns: seq<Column>, log: seq<Step>, columns': seq<Column>, log': seq<Step>)
    ensures FullRun(Overlapping(), columns, log) && FullRun(Overlapping(), columns', log')
    ensures Run(Overlapping(), log).index.Keys == {1, 3} && Run(Overlapping(), log').index.Keys == {1}
    ensures !Anchored(Overlapping().index)
  {
    columns, log := [MalId] + [KitsuId] + [AnilistId] + [AnidbId], [Step(2, 1)];
    columns', log' := [KitsuId] + [MalId] + [AnilistId] + [AnidbId], [Step(3, 2)] + [Step(2, 1)];
    MalFirst();
    KitsuFirst();
    LeftByMal();
    LeftByKitsu();
    Unanchored(Overlapping(), columns, log, columns', log', 3);
  }

  lemma Unanchored(s: Catalog, columns: seq<Column>, log: seq<Step>, columns': seq<Column>, log': seq<Step>, id: int)
    requires FullRun(s, columns, log) && FullRun(s, columns', log')
    requires id in Run(s, log).index && id !in Run(s, log').index
    ensures !Anchored(s.index)
  {
    if Anchored(s.index) {
      ColumnOrderDoesNotMatter(s, columns, log, columns', log');
      assert false;
    }
  }

  // ---------- anchors are not needed ----------

  /** Row 2 ties row 1 to rows 3 and 4, which disagree about MAL ids. But row 4 can only be folded
      into row 2, or into row 1 once this has row 2's values. */
  function Dominated(): Catalog {
    Catalog(map[1 := map[KitsuId := 5], 2 := map[KitsuId := 5, MalId := 1, AnilistId := 1],
                3 := map[MalId := 1], 4 := map[MalId := 2, AnilistId := 1]],
            map[], map[], [], [])
  }

  /** Row 1, before and after it has taken over the values of row 2. */
  predicate Absorbing(index: map<int, ExternalIds>) {
    && Cell(index, 1, KitsuId) == Some(5) && Cell(index, 1, AnidbId) == None
    && (Cell(index, 1, MalId) == Cell(index, 1, AnilistId) == None || Cell(index, 1, MalId) == Some(1))
    && (Cell(index, 1, AnilistId).Some? ==> Cell(index, 1, AnilistId) == Some(1))
  }

  predicate Dominating(index: map<int, ExternalIds>) {
    && index.Keys <= {1, 2, 3, 4}
    && (1 in index ==> Absorbing(index))
    && (2 in index ==> index[2] == map[KitsuId := 5, MalId := 1, AnilistId := 1])
    && (3 in index ==> index[3] == map[MalId := 1])
    && (4 in index ==> index[4] == map[MalId := 2, AnilistId := 1])
  }

  lemma DominatingStep(index: map<int, ExternalIds>, st: Step)
    requires Dominating(index) && Share(index, st.duplicate, st.canonical) && Prefers(st.canonical, st.duplicate)
    ensures Dominating(FoldIndex(index, st))
  {
    var c, e :| Holds(index, st.duplicate, c, e) && Holds(index, st.canonical, c, e);
    if st.canonical == 1 {
      DominatingFirst(index, st, c, e);
    } else {
      FoldAway(index, st);
      assert 1 in index && Absorbing(index) ==> Absorbing(index - {st.duplicate});
    }
  }

  lemma DominatingFirst(index: map<int, ExternalIds>, st: Step, c: Column, e: int)
    requires Dominating(index) && st.canonical == 1 && st.duplicate != 1
    requires Holds(index, st.duplicate, c, e) && Holds(index, 1, c, e)
    ensures Dominating(FoldIndex(index, st))
  {
    FoldCell(index, st, 1, KitsuId);
    FoldCell(index, st, 1, MalId);
    FoldCell(index, st, 1, AnilistId);
    FoldCell(index, st, 1, AnidbId);
  }

  lemma {:induction false} DominatingRun(s: Catalog, columns: seq<Column>, log: seq<Step>, n: nat)
    requires ProviderRun(s, columns, log) && n <= |log| && Dominating(s.index)
    ensures Dominating(Run(s, log[..n]).index)
  {
    if n > 0 {
      DominatingRun(s, columns, log, n - 1);
      MergesSharers(s, columns, log, n - 1);
      RunPrefix(s, log, n);
      DominatingStep(Run(s, log[..n - 1]).index, log[n - 1]);
    }
  }

  lemma StaysDominating(columns: seq<Column>, log: seq<Step>)
    requires FullRun(Dominated(), columns, log)
    ensures Dominating(Run(Dominated(), log).index)
  {
    DominatingRun(Dominated(), columns, log, |log|);
    assert log[..|log|] == log;
  }

  lemma RunPrefix(s: Catalog, log: seq<Step>, n: nat)
    requires 0 < n <= |log|
    ensures Run(s, log[..n]) == Fold(Run(s, log[..n - 1]), log[n - 1])
  {
    assert log[..n][..n - 1] == log[..n - 1];
  }

  /** Row 1 is left alone in every order, although the catalogue is not anchored. */
  lemma AnchorsAreNotNeeded(columns: seq<Column>, log: seq<Step>)
    requires FullRun(Dominated(), columns, log)
    ensures forall id :: id in Run(Dominated(), log).index <==> id == 1
    ensures !Anchored(Dominated().index)
  {
    DominatedHead();
    HeadsSurvive(Dominated(), columns, log, 1);
    SecondIsFolded(columns, log);
    OthersAreFolded(columns, log);
    DominatedUnanchored();
  }

  lemma OthersAreFolded(columns: seq<Column>, log: seq<Step>)
    requires FullRun(Dominated(), columns, log)
    ensures forall id :: id in Run(Dominated(), log).index ==> id == 1 || id == 2
  {
    FirstAbsorbs(columns, log);
    assert Holds(Dominated().index, 3, MalId, 1) && Holds(Dominated().index, 4, AnilistId, 1);
    ClashIsFolded(Dominated(), columns, log, 1, 3, MalId, 1);
    ClashIsFolded(Dominated(), columns, log, 1, 4, AnilistId, 1);
    StaysDominating(columns, log);
  }

  lemma DominatedHead()
    ensures IsHead(Dominated().index, 1)
  {
    forall j | Related(Dominated().index, 1, j) ensures j in {1, 2, 3, 4} {
      RelativesAreRows(Dominated().index, 1, j);
    }
  }

  lemma SecondIsFolded(columns: seq<Column>, log: seq<Step>)
    requires FullRun(Dominated(), columns, log)
    ensures 2 !in Run(Dominated(), log).index && Resolve(log, 2) == 1
  {
    var rows := Dominated().index;
    assert Holds(rows, 1, KitsuId, 5) && Holds(rows, 2, KitsuId, 5);
    DominatedHead();
    HeadsSurvive(Dominated(), columns, log, 1);
    if 2 in Run(Dominated(), log).index {
      SurvivorsShareNothing(Dominated(), columns, log, 1, 2);
      assert false;
    }
    FullRunFacts(Dominated(), columns, log);
    Settled(log, 2);
    ResolveDescends(log, 2);
  }

  /** The survivor of a row has every column that the row had set. */
  lemma SurvivorHasColumn(s: Catalog, columns: seq<Column>, log: seq<Step>, id: int, c: Column, e: int)
    requires FullRun(s, columns, log) && Holds(s.index, id, c, e) && Resolve(log, id) in Run(s, log).index
    ensures Cell(Run(s, log).index, Resolve(log, id), c).Some?
  {
    FullRunFacts(s, columns, log);
    RunUnitesIndex(s, log, Resolve(log, id), c);
    assert Supplies(s, log, Resolve(log, id), c, e, id);
  }

  /** Row 1 has taken over row 2's values ... */
  lemma FirstAbsorbs(columns: seq<Column>, log: seq<Step>)
    requires FullRun(Dominated(), columns, log)
    ensures Holds(Run(Dominated(), log).index, 1, MalId, 1) && Holds(Run(Dominated(), log).index, 1, AnilistId, 1)
  {
    SecondIsFolded(columns, log);
    DominatedHead();
    HeadsSurvive(Dominated(), columns, log, 1);
    SurvivorHasColumn(Dominated(), columns, log, 2, MalId, 1);
    SurvivorHasColumn(Dominated(), columns, log, 2, AnilistId, 1);
    StaysDominating(columns, log);
  }

  lemma DominatedFamily()
    ensures Related(Dominated().index, 3, 2) && Related(Dominated().index, 3, 4) && Related(Dominated().index, 3, 1)
  {
    var rows := Dominated().index;
    SharersRelated(rows, 3, 2, MalId, 1);
    SharersRelated(rows, 2, 4, AnilistId, 1);
    SharersRelated(rows, 2, 1, KitsuId, 5);
    RelatedThrough(rows, 3, 2, 4);
    RelatedThrough(rows, 3, 2, 1);
  }

  lemma ThirdIsSureHead()
    ensures IsSureHead(Dominated().index, 3)
  {
    var rows := Dominated().index;
    DominatedFamily();
    assert Holds(rows, 2, MalId, 1) && Holds(rows, 4, MalId, 2);
    assert !Uncontested(rows, 3, MalId);
    assert SurelyClosed(rows, iset{3});
  }

  lemma DominatedUnanchored()
    ensures !Anchored(Dominated().index)
  {
    var rows := Dominated().index;
    ThirdIsSureHead();
    DominatedFamily();
    SharersRelated(rows, 2, 1, KitsuId, 5);
    SharersRelated(rows, 2, 2, KitsuId, 5);
    assert Related(rows, 3, 3);
    assert Cell(rows, 1, MalId) == None && Cell(rows, 3, MalId) == Some(1) && !Apart(rows, 3, 1) && !IsAnchor(rows, 3);
    assert Cell(rows, 1, KitsuId) == Cell(rows, 2, KitsuId) == Some(5) && !Apart(rows, 2, 1) && !IsAnchor(rows, 2);
    forall a | Share(rows, a, 3) ensures a == 2 || a == 3 {}
  }

  // ---------- the order of the rows ----------

  /** Rows 2 and 3 both belong to row 1, and each has a relative of its own. */
  function Crowded(): Catalog {
    Catalog(map[1 := map[MalId := 1], 2 := map[MalId := 1, KitsuId := 5], 3 := map[MalId := 1, KitsuId := 6],
                4 := map[KitsuId := 5], 5 := map[KitsuId := 6]],
            map[], map[], [], [])
  }

  /** A grouping whose only clash is three ids with one key. */
  lemma TriplePass<K>(keys: map<int, K>, a: Step, b: Step)
    requires a.canonical == b.canonical && a.duplicate != b.duplicate
    requires a.duplicate in keys && b.duplicate in keys && a.canonical in keys
    requires keys[a.duplicate] == keys[b.duplicate] == keys[a.canonical]
    requires Prefers(a.canonical, a.duplicate) && Prefers(a.canonical, b.duplicate)
    requires forall i :: i in keys ==> i == a.duplicate || i == b.duplicate || i == a.canonical
    ensures IsPass(keys, [a] + [b])
  {
    var log := [a] + [b];
    assert Leads(keys, a.canonical);
    assert log[..0] == [] && log[..1] == [a];
    assert log[0].duplicate in Duplicates(log) && log[1].duplicate in Duplicates(log);
  }

  /** The rows after the MAL pass has folded x first, then y: row 1 has x's Kitsu id. */
  function AfterCrowd(x: int): map<int, ExternalIds> {
    map[1 := map[MalId := 1, KitsuId := x + 3], 4 := map[KitsuId := 5], 5 := map[KitsuId := 6]]
  }

  predicate TwoAndThree(x: int, y: int) {
    (x == 2 && y == 3) || (x == 3 && y == 2)
  }

  lemma FoldInto(index: map<int, ExternalIds>, st: Step, row: ExternalIds)
    requires st.duplicate != st.canonical && st.duplicate in index && st.canonical in index
    requires row == index[st.duplicate] + index[st.canonical]
    ensures FoldIndex(index, st) == index[st.canonical := row] - {st.duplicate}
  {
  }

  lemma FoldFirst(x: int, y: int)
    requires TwoAndThree(x, y)
    ensures FoldIndex(Crowded().index, Step(x, 1)) == AfterCrowd(x)[y := map[MalId := 1, KitsuId := y + 3]]
  {
    var row := map[MalId := 1, KitsuId := x + 3];
    RowsOfCrowd(x);
    FoldInto(Crowded().index, Step(x, 1), row);
    CrowdWithout(x, y, row, Crowded().index[1 := row] - {x});
  }

  lemma CrowdWithout(x: int, y: int, row: ExternalIds, rows: map<int, ExternalIds>)
    requires TwoAndThree(x, y) && row == map[MalId := 1, KitsuId := x + 3]
    requires rows == Crowded().index[1 := row] - {x}
    ensures rows == AfterCrowd(x)[y := map[MalId := 1, KitsuId := y + 3]]
  {
    assert rows.Keys == {1, y, 4, 5};
  }

  lemma RowsOfCrowd(x: int)
    requires x == 2 || x == 3
    ensures Crowded().index[x] + Crowded().index[1] == map[MalId := 1, KitsuId := x + 3]
  {
  }

  lemma FoldSecond(x: int, y: int)
    requires TwoAndThree(x, y)
    ensures FoldIndex(AfterCrowd(x)[y := map[MalId := 1, KitsuId := y + 3]], Step(y, 1)) == AfterCrowd(x)
  {
    FoldAway(AfterCrowd(x)[y := map[MalId := 1, KitsuId := y + 3]], Step(y, 1));
  }

  lemma CrowdedMal(x: int, y: int)
    requires TwoAndThree(x, y)
    ensures IsPass(ColumnKeys(Crowded().index, MalId), [Step(x, 1)] + [Step(y, 1)])
  {
    assert ColumnKeys(Crowded().index, MalId) == map[1 := 1, 2 := 1, 3 := 1];
    TriplePass(map[1 := 1, 2 := 1, 3 := 1], Step(x, 1), Step(y, 1));
  }

  lemma AfterCrowdedMal(x: int, y: int)
    requires TwoAndThree(x, y)
    ensures Run(Crowded(), [Step(x, 1)] + [Step(y, 1)]).index == AfterCrowd(x)
  {
    RunAppend(Crowded(), [Step(x, 1)], [Step(y, 1)]);
    OneFold(Crowded(), Step(x, 1));
    OneFold(Run(Crowded(), [Step(x, 1)]), Step(y, 1));
    FoldFirst(x, y);
    FoldSecond(x, y);
  }

  lemma CrowdedKitsu(x: int, index: map<int, ExternalIds>)
    requires (x == 2 || x == 3) && index == AfterCrowd(x)
    ensures IsPass(ColumnKeys(index, KitsuId), [Step(x + 2, 1)])
    ensures FoldIndex(index, Step(x + 2, 1)) == index - {x + 2}
  {
    assert ColumnKeys(index, KitsuId) == map[1 := x + 3, 4 := 5, 5 := 6];
    PairPass(map[1 := x + 3, 4 := 5, 5 := 6], Step(x + 2, 1));
    FoldAway(index, Step(x + 2, 1));
  }

  lemma CrowdedLeft(x: int, y: int, mal: seq<Step>, last: Step)
    requires TwoAndThree(x, y) && mal == [Step(x, 1)] + [Step(y, 1)] && last == Step(x + 2, 1)
    ensures Run(Crowded(), mal + [last]).index == AfterCrowd(x) - {x + 2}
    ensures IsPass(ColumnKeys(Run(Crowded(), mal).index, KitsuId), [last])
  {
    AfterCrowdedMal(x, y);
    CrowdedKitsu(x, Run(Crowded(), mal).index);
    RunAppend(Crowded(), mal, [last]);
    OneFold(Run(Crowded(), mal), last);
  }

  lemma CrowdedKeys(x: int, y: int)
    requires TwoAndThree(x, y)
    ensures var after := AfterCrowd(x) - {x + 2};
      after.Keys == {1, y + 2} && IsNull(after, AnilistId) && IsNull(after, AnidbId)
  {
  }

  lemma CrowdedRun(x: int, y: int) returns (log: seq<Step>)
    requires TwoAndThree(x, y)
    ensures FullRun(Crowded(), [MalId] + [KitsuId] + [AnilistId] + [AnidbId], log)
    ensures Run(Crowded(), log).index.Keys == {1, y + 2}
  {
    var mal, last := [Step(x, 1)] + [Step(y, 1)], Step(x + 2, 1);
    log := mal + [last];
    CrowdedMal(x, y);
    CrowdedLeft(x, y, mal, last);
    CrowdedKeys(x, y);
    TwoPasses(Crowded(), MalId, mal, KitsuId, [last]);
  }

  /** With one and the same order of the columns, the order in which a group's rows are folded can
      decide which other rows survive: row 1 takes over the Kitsu id of whichever comes first. */
  lemma RowOrderMatters() returns (columns: seq<Column>, log: seq<Step>, log': seq<Step>)
    ensures FullRun(Crowded(), columns, log) && FullRun(Crowded(), columns, log')
    ensures Run(Crowded(), log).index.Keys == {1, 5} && Run(Crowded(), log').index.Keys == {1, 4}
  {
    columns := [MalId] + [KitsuId] + [AnilistId] + [AnidbId];
    log := CrowdedRun(2, 3);
    log' := CrowdedRun(3, 2);
  }
}
