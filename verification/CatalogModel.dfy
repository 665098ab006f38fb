/**
 The catalogue as a value, what one merge does to it, and what a whole run of merges does.

 A satellite table is a map from (owner, place) to the bag of the remaining columns: every SQL
 statement of the merge names exactly one owner and one dedupe key, so it acts on such a group
 of rows as a whole. `Place` is the dedupe key, tagged with its table. The two tables that are
 moved without dedupe are kept row by row.
 */
module CatalogModel {
  import opened Wrappers
  import opened CatalogIdentity

  datatype Column = MalId | KitsuId | AnilistId | AnidbId
  type ExternalIds = map<Column, int>  // an absent column is NULL

  datatype Table = TorrentsIndex | TitleSynonyms | Genres | Pictures | Broadcasts | AnimeRelations

  datatype Place =
    | TorrentHash(hash: string)
    | Synonym(title: string)
    | Genre(genre: string)
    | Picture(size: string)
    | Broadcast
    | Relation(kind: string, relId: int)

  function TableOf(p: Place): Table {
    match p
    case TorrentHash(_) => TorrentsIndex
    case Synonym(_) => TitleSynonyms
    case Genre(_) => Genres
    case Picture(_) => Pictures
    case Broadcast => Broadcasts
    case Relation(_, _) => AnimeRelations
  }

  datatype Slot = Slot(owner: int, place: Place)
  type Rest = multiset<string>
  datatype Link = Link(animeId: int, rest: string)

  datatype Catalog = Catalog(
    index: map<int, ExternalIds>,
    titles: map<int, Option<string>>,
    slots: map<Slot, Rest>,
    characterRelations: seq<Link>,
    userTags: seq<Link>)

  /** One merge: `duplicate` is folded into `canonical`. */
  datatype Step = Step(duplicate: int, canonical: int)

  function Get<K, V>(m: map<K, V>, k: K): Option<V> {
    if k in m then Some(m[k]) else None
  }

  lemma EqualByGet<K, V>(a: map<K, V>, b: map<K, V>)
    requires forall k :: Get(a, k) == Get(b, k)
    ensures a == b
  {
    forall k ensures k in a <==> k in b {
      assert Get(a, k) == Get(b, k);
    }
    forall k | k in a ensures a[k] == b[k] {
      assert Get(a, k) == Get(b, k);
    }
  }

  // ---------- one merge ----------

  /** Fill the NULL columns of `canonical` (when it has a row), then drop the duplicate's row. */
  function FoldIndex(index: map<int, ExternalIds>, st: Step): map<int, ExternalIds> {
    (if st.canonical in index && st.duplicate in index
     then index[st.canonical := index[st.duplicate] + index[st.canonical]]
     else index) - {st.duplicate}
  }

  /** The group of rows found at (owner, place) after a merge. */
  function FoldedGet(slots: map<Slot, Rest>, st: Step, s: Slot): Option<Rest> {
    if s.owner == st.duplicate then None
    else if s.owner == st.canonical && s !in slots then Get(slots, Slot(st.duplicate, s.place))
    else Get(slots, s)
  }

  function FoldSlots(slots: map<Slot, Rest>, st: Step): map<Slot, Rest> {
    var kept := set s | s in slots && s.owner != st.duplicate;
    var moved := set s | s in slots && s.owner == st.duplicate :: Slot(st.canonical, s.place);
    map s | s in kept + moved :: if s in slots then slots[s] else slots[Slot(st.duplicate, s.place)]
  }

  lemma FoldSlotsAt(slots: map<Slot, Rest>, st: Step, s: Slot)
    requires st.duplicate != st.canonical
    ensures Get(FoldSlots(slots, st), s) == FoldedGet(slots, st, s)
  {
  }

  function FoldLinks(rows: seq<Link>, st: Step): seq<Link> {
    seq(|rows|, i requires 0 <= i < |rows| =>
      if rows[i].animeId == st.duplicate then rows[i].(animeId := st.canonical) else rows[i])
  }

  function Fold(s: Catalog, st: Step): Catalog {
    if st.duplicate == st.canonical then s
    else Catalog(FoldIndex(s.index, st), s.titles - {st.duplicate}, FoldSlots(s.slots, st),
                 FoldLinks(s.characterRelations, st), FoldLinks(s.userTags, st))
  }

  // ---------- lookups by external id ----------

  predicate Holds(index: map<int, ExternalIds>, id: int, c: Column, ext: int) {
    id in index && c in index[id] && index[id][c] == ext
  }

  ghost predicate Answerable(index: map<int, ExternalIds>, c: Column, ext: int) {
    exists id :: Holds(index, id, c, ext)
  }

  /** No two rows share a non-NULL value of the column. */
  ghost predicate Injective(index: map<int, ExternalIds>, c: Column) {
    forall i, j, e :: Holds(index, i, c, e) && Holds(index, j, c, e) ==> i == j
  }

  ghost predicate AllInjective(index: map<int, ExternalIds>) {
    forall c: Column :: Injective(index, c)
  }

  /** A lookup is lost exactly when only the duplicate answered it and the canonical row is
      missing or already holds another value in that column. */
  ghost predicate OnlyCopyIsLost(index: map<int, ExternalIds>, st: Step, c: Column, ext: int) {
    && (forall id :: Holds(index, id, c, ext) ==> id == st.duplicate)
    && (st.canonical in index ==> c in index[st.canonical])
  }

  lemma MergeKeepsLookups(index: map<int, ExternalIds>, st: Step, c: Column, ext: int)
    requires st.duplicate != st.canonical
    ensures Answerable(FoldIndex(index, st), c, ext)
       <==> Answerable(index, c, ext) && !OnlyCopyIsLost(index, st, c, ext)
  {
    var after := FoldIndex(index, st);
    var d, k := st.duplicate, st.canonical;
    forall id | id != d && id != k
      ensures Holds(after, id, c, ext) <==> Holds(index, id, c, ext) {}
    assert Holds(after, k, c, ext) <==>
           Holds(index, k, c, ext) || (k in index && c !in index[k] && Holds(index, d, c, ext));
    assert !Holds(after, d, c, ext);
    if Answerable(index, c, ext) && !OnlyCopyIsLost(index, st, c, ext) {
      if id :| Holds(index, id, c, ext) && id != d {
        assert Holds(after, id, c, ext);
      } else {
        assert Holds(index, d, c, ext);
        assert Holds(after, k, c, ext);
      }
    }
    if Answerable(after, c, ext) {
      var id :| Holds(after, id, c, ext);
      assert Holds(index, id, c, ext) || Holds(index, d, c, ext);
    }
  }

  /** Two rows with different MAL ids: after the merge the duplicate's cannot be looked up. */
  lemma MergeLosesALookup()
    ensures var index: map<int, ExternalIds> := map[1 := map[MalId := 1], 2 := map[MalId := 2]];
      Answerable(index, MalId, 2) && !Answerable(FoldIndex(index, Step(2, 1)), MalId, 2)
  {
    var index: map<int, ExternalIds> := map[1 := map[MalId := 1], 2 := map[MalId := 2]];
    assert Holds(index, 2, MalId, 2);
    MergeKeepsLookups(index, Step(2, 1), MalId, 2);
  }

  /** A merge never lets two rows share a value that were distinct before. */
  lemma MergeKeepsInjective(index: map<int, ExternalIds>, st: Step, c: Column)
    requires st.duplicate != st.canonical && Injective(index, c)
    ensures Injective(FoldIndex(index, st), c)
  {
    var after := FoldIndex(index, st);
    forall i, j, e | Holds(after, i, c, e) && Holds(after, j, c, e) ensures i == j {
      assert Holds(index, i, c, e) || (i == st.canonical && Holds(index, st.duplicate, c, e));
      assert Holds(index, j, c, e) || (j == st.canonical && Holds(index, st.duplicate, c, e));
    }
  }

  /** The value of a column of a row; None for NULL and for no row. */
  function Cell(index: map<int, ExternalIds>, id: int, c: Column): Option<int> {
    if id in index && c in index[id] then Some(index[id][c]) else None
  }

  /** A column of a row after a merge. */
  function FoldedCell(index: map<int, ExternalIds>, st: Step, id: int, c: Column): Option<int> {
    if id == st.duplicate then None
    else if id == st.canonical && id in index && Cell(index, id, c).None? then Cell(index, st.duplicate, c)
    else Cell(index, id, c)
  }

  lemma FoldCell(index: map<int, ExternalIds>, st: Step, id: int, c: Column)
    requires st.duplicate != st.canonical
    ensures Cell(FoldIndex(index, st), id, c) == FoldedCell(index, st, id, c)
    ensures id in FoldIndex(index, st) <==> id in index && id != st.duplicate
  {
  }

  // ---------- a run of merges ----------

  function Run(s: Catalog, log: seq<Step>): Catalog {
    if log == [] then s else Fold(Run(s, log[..|log| - 1]), log[|log| - 1])
  }

  /** The id that stands for `id` once the merges of `log` are done. */
  function Resolve(log: seq<Step>, id: int): int {
    if log == [] then id
    else
      var last, r := log[|log| - 1], Resolve(log[..|log| - 1], id);
      if r == last.duplicate then last.canonical else r
  }

  ghost function Duplicates(log: seq<Step>): set<int> {
    set j | 0 <= j < |log| :: log[j].duplicate
  }

  ghost predicate Proper(log: seq<Step>) {
    forall st :: st in log ==> st.duplicate != st.canonical
  }

  lemma RunAppend(s: Catalog, a: seq<Step>, b: seq<Step>)
    ensures Run(s, a + b) == Run(Run(s, a), b)
  {
    if b == [] {
      assert a + b == a;
    } else {
      RunAppend(s, a, b[..|b| - 1]);
      assert (a + b)[..|a + b| - 1] == a + b[..|b| - 1];
    }
  }

  lemma DuplicatesSnoc(log: seq<Step>)
    requires log != []
    ensures Duplicates(log) == Duplicates(log[..|log| - 1]) + {log[|log| - 1].duplicate}
  {
    var front := log[..|log| - 1];
    forall x | x in Duplicates(log)
      ensures x in Duplicates(front) || x == log[|log| - 1].duplicate
    {
      var j :| 0 <= j < |log| && log[j].duplicate == x;
      if j < |front| { assert front[j].duplicate == x; }
    }
    forall x | x in Duplicates(front) ensures x in Duplicates(log) {
      var j :| 0 <= j < |front| && front[j].duplicate == x;
      assert log[j].duplicate == x;
    }
  }

  lemma DuplicatesAppend(a: seq<Step>, b: seq<Step>)
    ensures Duplicates(a + b) == Duplicates(a) + Duplicates(b)
  {
    if b == [] {
      assert a + b == a;
    } else {
      DuplicatesAppend(a, b[..|b| - 1]);
      assert (a + b)[..|a + b| - 1] == a + b[..|b| - 1];
      DuplicatesSnoc(a + b);
      DuplicatesSnoc(b);
    }
  }

  /** Exactly the folded ids leave `indexList` and `anime`; no id appears. */
  lemma {:induction false} RunKeys(s: Catalog, log: seq<Step>)
    requires Proper(log)
    ensures Run(s, log).index.Keys == s.index.Keys - Duplicates(log)
    ensures Run(s, log).titles.Keys == s.titles.Keys - Duplicates(log)
  {
    if log != [] {
      RunKeys(s, log[..|log| - 1]);
      DuplicatesSnoc(log);
    }
  }

  /** A surviving anime row keeps its title. */
  lemma {:induction false} RunTitles(s: Catalog, log: seq<Step>)
    requires Proper(log)
    ensures Run(s, log).titles == s.titles - Duplicates(log)
  {
    if log != [] {
      RunTitles(s, log[..|log| - 1]);
      DuplicatesSnoc(log);
    }
  }

  lemma {:induction false} RunKeepsInjective(s: Catalog, log: seq<Step>, c: Column)
    requires Proper(log) && Injective(s.index, c)
    ensures Injective(Run(s, log).index, c)
  {
    if log != [] {
      RunKeepsInjective(s, log[..|log| - 1], c);
      MergeKeepsInjective(Run(s, log[..|log| - 1]).index, log[|log| - 1], c);
    }
  }

  /** `id` had rows at this place and they now count for `owner`. */
  ghost predicate Feeds(s: Catalog, log: seq<Step>, owner: int, place: Place, id: int) {
    Resolve(log, id) == owner && Slot(id, place) in s.slots
  }

  /** Every owner ends with exactly the union of the keys of the ids folded into it, and the
      remaining columns of each key come unmixed from one of those ids. */
  lemma {:induction false} RunUnitesSlots(s: Catalog, log: seq<Step>, owner: int, place: Place)
    requires Proper(log)
    ensures Slot(owner, place) in Run(s, log).slots <==> exists id :: Feeds(s, log, owner, place, id)
    ensures Slot(owner, place) in Run(s, log).slots ==>
              exists id :: Feeds(s, log, owner, place, id)
                && Run(s, log).slots[Slot(owner, place)] == s.slots[Slot(id, place)]
  {
    var slot := Slot(owner, place);
    if log == [] {
      assert slot in s.slots <==> Feeds(s, log, owner, place, owner);
    } else {
      var front, st := log[..|log| - 1], log[|log| - 1];
      var mid := Run(s, front);
      RunUnitesSlots(s, front, owner, place);
      RunUnitesSlots(s, front, st.duplicate, place);
      FoldSlotsAt(mid.slots, st, slot);
      if slot in Run(s, log).slots {
        var from := if slot in mid.slots then owner else st.duplicate;
        var id :| Feeds(s, front, from, place, id) && mid.slots[Slot(from, place)] == s.slots[Slot(id, place)];
        assert Feeds(s, log, owner, place, id);
      }
      if id :| Feeds(s, log, owner, place, id) {
        var r := Resolve(front, id);
        assert Feeds(s, front, r, place, id);
        assert r == owner || (r == st.duplicate && owner == st.canonical);
      }
    }
  }

  /** On a clash the row that was never folded keeps its own columns. */
  lemma {:induction false} RunCanonicalWins(s: Catalog, log: seq<Step>, owner: int, place: Place)
    requires Proper(log) && owner !in Duplicates(log)
    requires Slot(owner, place) in s.slots
    ensures Get(Run(s, log).slots, Slot(owner, place)) == Get(s.slots, Slot(owner, place))
  {
    if log != [] {
      var front, st := log[..|log| - 1], log[|log| - 1];
      DuplicatesSnoc(log);
      RunCanonicalWins(s, front, owner, place);
      FoldSlotsAt(Run(s, front).slots, st, Slot(owner, place));
    }
  }

  /** No key is lost and none is invented: the torrent hashes (genres, ...) of the whole
      catalogue are the same before and after. */
  lemma RunConservesPlaces(s: Catalog, log: seq<Step>, place: Place)
    requires Proper(log)
    ensures (exists o :: Slot(o, place) in Run(s, log).slots) <==> (exists o :: Slot(o, place) in s.slots)
  {
    if o :| Slot(o, place) in s.slots {
      assert Feeds(s, log, Resolve(log, o), place, o);
      RunUnitesSlots(s, log, Resolve(log, o), place);
    }
    if o :| Slot(o, place) in Run(s, log).slots {
      RunUnitesSlots(s, log, o, place);
    }
  }

  /** The tables moved without dedupe keep every row; only its anime id is redirected. */
  ghost predicate Redirected(before: seq<Link>, after: seq<Link>, log: seq<Step>) {
    && |before| == |after|
    && forall i :: 0 <= i < |before| ==> after[i] == before[i].(animeId := Resolve(log, before[i].animeId))
  }

  lemma {:induction false} RunRedirectsLinks(s: Catalog, log: seq<Step>)
    requires Proper(log)
    ensures Redirected(s.characterRelations, Run(s, log).characterRelations, log)
    ensures Redirected(s.userTags, Run(s, log).userTags, log)
  {
    if log != [] {
      RunRedirectsLinks(s, log[..|log| - 1]);
    }
  }

  // ---------- what every repair's log satisfies ----------

  ghost predicate Descending(log: seq<Step>) {
    forall st :: st in log ==> Prefers(st.canonical, st.duplicate)
  }

  /** No merge touches an id that an earlier merge folded away. */
  ghost predicate Fresh(log: seq<Step>) {
    forall j :: 0 <= j < |log| ==>
      log[j].duplicate !in Duplicates(log[..j]) && log[j].canonical !in Duplicates(log[..j])
  }

  ghost predicate UsesOnly(ids: set<int>, log: seq<Step>) {
    forall st :: st in log ==> st.duplicate in ids && st.canonical in ids
  }

  /** What is folded into an id without an `indexList` row goes no further. */
  ghost predicate Grounded(s: Catalog, log: seq<Step>) {
    forall st :: st in log && st.canonical !in s.index ==> st.canonical !in Duplicates(log)
  }

  /** A log as the repairs write it. */
  ghost predicate Orderly(s: Catalog, log: seq<Step>) {
    && Proper(log) && Descending(log) && Fresh(log) && Grounded(s, log)
    && UsesOnly(s.index.Keys + s.titles.Keys, log)
  }

  lemma FreshFront(log: seq<Step>)
    requires Fresh(log) && log != []
    ensures Fresh(log[..|log| - 1])
    ensures log[|log| - 1].duplicate !in Duplicates(log[..|log| - 1])
    ensures log[|log| - 1].canonical !in Duplicates(log[..|log| - 1])
  {
    var front := log[..|log| - 1];
    forall j | 0 <= j < |front| ensures front[..j] == log[..j] && front[j] == log[j] {}
  }

  lemma GroundedFront(s: Catalog, log: seq<Step>)
    requires Grounded(s, log) && log != []
    ensures Grounded(s, log[..|log| - 1])
  {
    DuplicatesSnoc(log);
  }

  /** An id that others resolve to was a canonical id. */
  lemma {:induction false} ResolvedInto(log: seq<Step>, id: int)
    requires Resolve(log, id) != id
    ensures exists st :: st in log && st.canonical == Resolve(log, id)
  {
    var front, last := log[..|log| - 1], log[|log| - 1];
    assert last in log;
    if Resolve(log, id) == Resolve(front, id) {
      ResolvedInto(front, id);
    }
  }

  // ---------- the external ids of a survivor ----------

  ghost predicate Supplies(s: Catalog, log: seq<Step>, owner: int, c: Column, ext: int, id: int) {
    Resolve(log, id) == owner && Holds(s.index, id, c, ext)
  }

  /** `owner` has the column exactly when some id that now counts for it had one, with a value
      that such an id held. */
  ghost predicate United(s: Catalog, log: seq<Step>, owner: int, c: Column) {
    && (Cell(Run(s, log).index, owner, c).Some? <==> exists id, e :: Supplies(s, log, owner, c, e, id))
    && (Cell(Run(s, log).index, owner, c).Some? ==>
          exists id :: Supplies(s, log, owner, c, Cell(Run(s, log).index, owner, c).value, id))
  }

  /** Every surviving row unites the columns of the ids folded into it, and keeps its own. */
  lemma {:induction false} RunUnitesIndex(s: Catalog, log: seq<Step>, owner: int, c: Column)
    requires Proper(log) && Fresh(log) && Grounded(s, log) && owner in Run(s, log).index
    ensures United(s, log, owner, c)
    ensures Cell(s.index, owner, c).Some? ==> Cell(Run(s, log).index, owner, c) == Cell(s.index, owner, c)
  {
    if log == [] {
      if c in s.index[owner] {
        assert Supplies(s, log, owner, c, s.index[owner][c], owner);
      }
    } else {
      var front, st := log[..|log| - 1], log[|log| - 1];
      assert st in log;
      FreshFront(log);
      GroundedFront(s, log);
      FoldCell(Run(s, front).index, st, owner, c);
      RunUnitesIndex(s, front, owner, c);
      if st.duplicate in Run(s, front).index {
        RunUnitesIndex(s, front, st.duplicate, c);
      } else {
        NothingBehind(s, log, c);
      }
      UniteOneMore(s, log, owner, c);
    }
  }

  /** A duplicate without a row brings nothing along. */
  lemma NothingBehind(s: Catalog, log: seq<Step>, c: Column)
    requires Proper(log) && Fresh(log) && Grounded(s, log) && log != []
    requires log[|log| - 1].duplicate !in Run(s, log[..|log| - 1]).index
    ensures United(s, log[..|log| - 1], log[|log| - 1].duplicate, c)
  {
    var front, st := log[..|log| - 1], log[|log| - 1];
    assert st.duplicate !in s.index by {
      FreshFront(log);
      RunKeys(s, front);
    }
    assert forall into :: into in front ==> into.canonical != st.duplicate by {
      DuplicatesSnoc(log);
      assert forall into :: into in front ==> into in log;
    }
    forall id | Resolve(front, id) == st.duplicate ensures id == st.duplicate {
      if id != st.duplicate {
        ResolvedInto(front, id);
      }
    }
  }

  /** The law for one more merge, given it for the ids that the merge touches. */
  lemma UniteOneMore(s: Catalog, log: seq<Step>, owner: int, c: Column)
    requires log != [] && log[|log| - 1].duplicate != log[|log| - 1].canonical
    requires owner in Run(s, log).index
    requires United(s, log[..|log| - 1], owner, c)
    requires United(s, log[..|log| - 1], log[|log| - 1].duplicate, c)
    ensures United(s, log, owner, c)
  {
    var front, st := log[..|log| - 1], log[|log| - 1];
    var mid, now := Run(s, front).index, Cell(Run(s, log).index, owner, c);
    FoldCell(mid, st, owner, c);
    if now.Some? {
      var from := if Cell(mid, owner, c).Some? then owner else st.duplicate;
      var id :| Supplies(s, front, from, c, now.value, id);
      assert Supplies(s, log, owner, c, now.value, id);
    }
    if id, e :| Supplies(s, log, owner, c, e, id) {
      var r := Resolve(front, id);
      assert Supplies(s, front, r, c, e, id);
      assert r == owner || (r == st.duplicate && owner == st.canonical);
    }
  }

  // ---------- counting and resolving ----------

  lemma {:induction false} CountDuplicates(log: seq<Step>)
    requires Fresh(log)
    ensures |Duplicates(log)| == |log|
  {
    if log != [] {
      FreshFront(log);
      CountDuplicates(log[..|log| - 1]);
      DuplicatesSnoc(log);
    }
  }

  lemma CountLeft<V>(before: map<int, V>, after: map<int, V>, gone: set<int>)
    requires after.Keys == before.Keys - gone && gone <= before.Keys
    ensures |after| == |before| - |gone|
  {
    assert |before.Keys - gone| == |before.Keys| - |gone|;
    assert |after.Keys| == |after| && |before.Keys| == |before|;
  }

  /** Both ids of every merge had an `indexList` row to begin with and were not folded before. */
  ghost predicate Live(s: Catalog, log: seq<Step>) {
    forall j :: 0 <= j < |log| ==>
      && log[j].duplicate != log[j].canonical
      && log[j].duplicate in s.index.Keys - Duplicates(log[..j])
      && log[j].canonical in s.index.Keys - Duplicates(log[..j])
  }

  lemma LiveIsOrderly(s: Catalog, log: seq<Step>)
    requires Live(s, log)
    ensures Proper(log) && Fresh(log) && Grounded(s, log) && UsesOnly(s.index.Keys, log)
  {
    forall st | st in log ensures st.duplicate != st.canonical && st.duplicate in s.index && st.canonical in s.index {
      var j :| 0 <= j < |log| && log[j] == st;
    }
  }

  /** Every merge of a live run removes one `indexList` row. */
  lemma LiveCount(s: Catalog, log: seq<Step>)
    requires Live(s, log)
    ensures |Run(s, log).index| == |s.index| - |log|
  {
    LiveIsOrderly(s, log);
    RunKeys(s, log);
    CountDuplicates(log);
    CountLeft(s.index, Run(s, log).index, Duplicates(log));
  }

  /** Ids only flow to strictly preferred ids; in particular never from positive to provisional. */
  lemma {:induction false} ResolveDescends(log: seq<Step>, id: int)
    requires Descending(log)
    ensures Resolve(log, id) == id || Prefers(Resolve(log, id), id)
    ensures id > 0 ==> Resolve(log, id) > 0
  {
    if log != [] {
      ResolveDescends(log[..|log| - 1], id);
    }
  }

  /** Redirects never chain onwards: what an id resolves to was not folded itself, and an id
      stays put exactly when it was not folded. */
  lemma {:induction false} ResolveSettles(log: seq<Step>, id: int)
    requires Fresh(log) && Proper(log)
    ensures Resolve(log, id) !in Duplicates(log)
    ensures Resolve(log, id) == id <==> id !in Duplicates(log)
    ensures Resolve(log, Resolve(log, id)) == Resolve(log, id)
  {
    Settled(log, id);
    Settled(log, Resolve(log, id));
  }

  lemma {:induction false} Settled(log: seq<Step>, id: int)
    requires Fresh(log) && Proper(log)
    ensures Resolve(log, id) !in Duplicates(log)
    ensures Resolve(log, id) == id <==> id !in Duplicates(log)
  {
    if log != [] {
      FreshFront(log);
      Settled(log[..|log| - 1], id);
      DuplicatesSnoc(log);
    }
  }

  /** Nothing at all is left under a folded id. */
  lemma FoldedOwnNothing(s: Catalog, log: seq<Step>, id: int)
    requires Fresh(log) && Proper(log) && id in Duplicates(log)
    ensures id !in Run(s, log).index && id !in Run(s, log).titles
    ensures forall p :: Slot(id, p) !in Run(s, log).slots
    ensures forall l :: l in Run(s, log).characterRelations || l in Run(s, log).userTags ==> l.animeId != id
  {
    RunKeys(s, log);
    RunRedirectsLinks(s, log);
    forall i ensures Resolve(log, i) != id {
      ResolveSettles(log, i);
    }
    forall p ensures Slot(id, p) !in Run(s, log).slots {
      RunUnitesSlots(s, log, id, p);
    }
  }

  /** The most preferred id of all always survives, in every table it is in. */
  lemma MostPreferredSurvives(s: Catalog, log: seq<Step>, m: int)
    requires Orderly(s, log) && m in s.index.Keys + s.titles.Keys
    requires forall i :: i in s.index.Keys + s.titles.Keys ==> i == m || Prefers(m, i)
    ensures Resolve(log, m) == m
    ensures m in s.index ==> m in Run(s, log).index
    ensures m in s.titles ==> m in Run(s, log).titles
  {
    RunKeys(s, log);
    forall j | 0 <= j < |log| ensures log[j].duplicate != m {
      assert log[j] in log;
    }
    Settled(log, m);
  }
}
