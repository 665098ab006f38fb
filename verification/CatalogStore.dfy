/**
 The catalogue tables as one mutable store, with the statements of
 adapters/persistence/catalog_repository.py executed on them step by step.
 Result sets come in an arbitrary order, and dictionaries that the code iterates without a
 defined order are visited in an arbitrary order.
 */
module CatalogStore {
  import opened Wrappers
  import opened CatalogIdentity
  import opened CatalogModel
  import opened CatalogIndex
  import opened CatalogRepair
  import opened CatalogOrder

  const SATELLITE_TABLES: seq<Table> := [TitleSynonyms, TorrentsIndex, Genres, Pictures, Broadcasts, AnimeRelations]

  datatype Strategy = ProviderId | Title | All

  /** The rows of a result set, each once, in no particular order. */
  method Enumerate<T(==)>(s: set<T>) returns (rows: seq<T>)
    ensures forall x :: x in rows <==> x in s
    ensures forall i, j :: 0 <= i < j < |rows| ==> rows[i] != rows[j]
  {
    rows := [];
    var todo := s;
    while todo != {}
      invariant forall x :: x in s <==> x in rows || x in todo
      invariant forall x :: x in rows ==> x !in todo
      invariant forall i, j :: 0 <= i < j < |rows| ==> rows[i] != rows[j]
    {
      var x :| x in todo;
      todo := todo - {x};
      rows := rows + [x];
    }
  }

  /** `ids` lists the ids with key `k`, each once. */
  ghost predicate IsGroup<K>(keys: map<int, K>, k: K, ids: seq<int>) {
    && (forall i :: i in ids <==> i in keys && keys[i] == k)
    && (forall a, b :: 0 <= a < b < |ids| ==> ids[a] != ids[b])
  }

  /** `groups` lists, for every key that two ids share, all ids with that key, each once. */
  ghost predicate Groups<K>(keys: map<int, K>, groups: map<K, seq<int>>) {
    && (forall k :: k in groups ==> IsGroup(keys, k, groups[k]))
    && (forall i, j :: i in keys && j in keys && i != j && keys[i] == keys[j] ==> keys[i] in groups)
  }

  const ALL_COLUMNS: set<Column> := {MalId, KitsuId, AnilistId, AnidbId}

  lemma EveryColumn(c: Column)
    ensures c in ALL_COLUMNS
  {
    match c
    case MalId =>
    case KitsuId =>
    case AnilistId =>
    case AnidbId =>
  }

  /** One more non-NULL column of a row that is being read. */
  function AppendColumn(ids: Dict, c: Column, v: int): (r: Dict)
    requires DistinctNames(ids) && forall d :: d in ids ==> ColumnOf(d.0) != Some(c)
    ensures DistinctNames(r) && Normalized(r) == Normalized(ids)[c := v]
    ensures forall d :: d in r <==> d in ids || d == (Known(c), Some(v))
  {
    var r := ids + [(Known(c), Some(v))];
    assert DistinctNames(r) by {
      forall k | 0 <= k < |ids| ensures ids[k].0 != Known(c) {
        assert ids[k] in ids && ColumnOf(ids[k].0) != Some(c);
      }
    }
    NormalizedSnoc(ids, (Known(c), Some(v)));
    r
  }

  /** `ids` lists the non-NULL ones of the first columns of a row. */
  ghost predicate ReadUpTo(ids: Dict, row: ExternalIds, columns: seq<Column>) {
    && DistinctNames(ids)
    && (forall d :: d in ids ==> ColumnOf(d.0).Some? && ColumnOf(d.0).value in columns)
    && (forall c :: Get(Normalized(ids), c) == if c in columns then Get(row, c) else None)
  }

  method ReadColumn(ids: Dict, row: ExternalIds, ghost columns: seq<Column>, c: Column) returns (more: Dict)
    requires ReadUpTo(ids, row, columns) && c !in columns
    ensures ReadUpTo(more, row, columns + [c])
  {
    more := ids;
    if c in row {
      more := AppendColumn(ids, c, row[c]);
    }
  }

  /** The place of a column's name in alphabetical order. */
  function NameRank(c: Column): nat {
    match c
    case AnidbId => 0
    case AnilistId => 1
    case KitsuId => 2
    case MalId => 3
  }

  /** The alphabetically first of the offered columns. */
  function PrimaryKey(pairs: seq<(Column, int)>): (c: Column)
    requires pairs != []
    ensures c in AsMap(pairs) && forall d :: d in AsMap(pairs) ==> NameRank(c) <= NameRank(d)
  {
    var offered := AsMap(pairs);
    AsMapPairs(pairs);
    var first := pairs[0].0;
    assert pairs[0] in pairs && first in offered;
    assert first.MalId? || first.KitsuId? || first.AnilistId? || first.AnidbId?;
    if AnidbId in offered then AnidbId
    else if AnilistId in offered then AnilistId
    else if KitsuId in offered then KitsuId
    else MalId
  }

  lemma FourColumns(columns: seq<Column>)
    requires columns == [MalId, KitsuId, AnilistId, AnidbId]
    ensures forall c :: c in columns
  {
    forall c: Column ensures c in columns {
      assert c == columns[0] || c == columns[1] || c == columns[2] || c == columns[3];
    }
  }

  /** A slot after its table has been repointed; other tables are not touched yet. */
  function RepointedGet(slots: map<Slot, Rest>, tables: set<Table>, st: Step, s: Slot): Option<Rest> {
    if TableOf(s.place) in tables then FoldedGet(slots, st, s) else Get(slots, s)
  }

  /** A slot while its table is being repointed, key by key. */
  function MovedGet(slots: map<Slot, Rest>, done: seq<Place>, st: Step, s: Slot): Option<Rest> {
    if s.place in done then FoldedGet(slots, st, s) else Get(slots, s)
  }

  /** Repointing one more table leaves what the others have become. */
  lemma RepointMore(start: map<Slot, Rest>, mid: map<Slot, Rest>, after: map<Slot, Rest>, tables: set<Table>, t: Table, st: Step)
    requires t !in tables
    requires forall s :: Get(mid, s) == RepointedGet(start, tables, st, s)
    requires forall s :: Get(after, s) == RepointedGet(mid, {t}, st, s)
    ensures forall s :: Get(after, s) == RepointedGet(start, tables + {t}, st, s)
  {
    forall s ensures Get(after, s) == RepointedGet(start, tables + {t}, st, s) {
      assert Get(mid, s) == RepointedGet(start, tables, st, s);
      var d := Slot(st.duplicate, s.place);
      assert Get(mid, d) == RepointedGet(start, tables, st, d);
      assert Get(after, s) == RepointedGet(mid, {t}, st, s);
    }
  }

  /** Repointing one more key leaves what the others have become. */
  lemma MoveMore(start: map<Slot, Rest>, mid: map<Slot, Rest>, after: map<Slot, Rest>, done: seq<Place>, p: Place, st: Step)
    requires st.duplicate != st.canonical
    requires forall s :: Get(mid, s) == MovedGet(start, done, st, s)
    requires forall s :: Get(after, s) == MovedGet(mid, [p], st, s)
    ensures forall s :: Get(after, s) == MovedGet(start, done + [p], st, s)
  {
    forall s ensures Get(after, s) == MovedGet(start, done + [p], st, s) {
      assert Get(mid, s) == MovedGet(start, done, st, s);
      var d := Slot(st.duplicate, s.place);
      assert Get(mid, d) == MovedGet(start, done, st, d);
      assert Get(after, s) == MovedGet(mid, [p], st, s);
    }
  }

  /** The links of the duplicate are all redirected. */
  lemma FoldLinksLeaveNone(rows: seq<Link>, st: Step)
    requires st.duplicate != st.canonical
    ensures forall l :: l in FoldLinks(rows, st) ==> l.animeId != st.duplicate
  {
  }

  class CatalogStore {
    var index: map<int, ExternalIds>
    var titles: map<int, Option<string>>
    var slots: map<Slot, Rest>
    var characterRelations: seq<Link>
    var userTags: seq<Link>
    const trim: string -> string
    const lower: string -> string

    constructor (s: Catalog, trim: string -> string, lower: string -> string)
      ensures State() == s && this.trim == trim && this.lower == lower
    {
      index, titles, slots := s.index, s.titles, s.slots;
      characterRelations, userTags := s.characterRelations, s.userTags;
      this.trim, this.lower := trim, lower;
    }

    ghost function State(): Catalog
      reads this
    {
      Catalog(index, titles, slots, characterRelations, userTags)
    }

    // ---------- indexList ----------

    /** The id of some row holding the pair: SELECT ... WHERE key=?, first row. */
    method FindColumn(c: Column, ext: int) returns (r: Option<int>)
      ensures IsAnswer(index, c, ext, r)
    {
      var rows := Enumerate(index.Keys);
      for i := 0 to |rows|
        invariant forall id :: Holds(index, id, c, ext) ==> id !in rows[..i]
      {
        if c in index[rows[i]] && index[rows[i]][c] == ext {
          return Some(rows[i]);
        }
      }
      assert rows[..|rows|] == rows;
      r := None;
    }

    method FindByExternal(providerKey: ProviderKey, ext: int) returns (r: Result<Option<int>, string>)
      ensures r.Failure? <==> providerKey.Unknown?
      ensures r.Success? ==> IsAnswer(index, providerKey.column, ext, r.value)
    {
      var column := ColumnOf(providerKey);
      if column.None? {
        return Failure("Invalid provider key");
      }
      var id := FindColumn(column.value, ext);
      r := Success(id);
    }

    /** One scan per provider column; a key that is no column fails the whole batch. */
    method FindByExternalBatch(pairs: seq<(ProviderKey, int)>) returns (r: Result<map<(Column, int), int>, string>)
      ensures r.Failure? <==> exists p :: p in pairs && p.0.Unknown?
      ensures r.Success? ==>
        && (forall p :: p in pairs && p.0.Known? ==> IsAnswer(index, p.0.column, p.1, Get(r.value, (p.0.column, p.1))))
        && (forall q :: q in r.value ==> (Known(q.0), q.1) in pairs)
    {
      var grouped: map<Column, set<int>> := map[];
      for i := 0 to |pairs|
        invariant forall p :: p in pairs[..i] ==> ColumnOf(p.0).Some?
        invariant forall p :: p in pairs[..i] ==> ColumnOf(p.0).value in grouped && p.1 in grouped[ColumnOf(p.0).value]
        invariant forall c, e :: c in grouped && e in grouped[c] ==> (Known(c), e) in pairs[..i]
      {
        var column := ColumnOf(pairs[i].0);
        if column.None? {
          assert pairs[i] in pairs;
          return Failure("Invalid provider key");
        }
        var c := column.value;
        grouped := grouped[c := (if c in grouped then grouped[c] else {}) + {pairs[i].1}];
      }
      assert pairs[..|pairs|] == pairs;
      var out: map<(Column, int), int> := map[];
      var columns := grouped.Keys;
      while columns != {}
        invariant columns <= grouped.Keys
        invariant forall q :: q in out ==> q.0 in grouped && q.1 in grouped[q.0] && Holds(index, out[q], q.0, q.1)
        invariant forall c, e, id :: c in grouped && c !in columns && e in grouped[c] && Holds(index, id, c, e) ==> (c, e) in out
      {
        var c :| c in columns;
        columns := columns - {c};
        var rows := Enumerate(index.Keys);
        for i := 0 to |rows|
          invariant forall q :: q in out ==> q.0 in grouped && q.1 in grouped[q.0] && Holds(index, out[q], q.0, q.1)
          invariant forall d, e, id :: d in grouped && d !in columns + {c} && e in grouped[d] && Holds(index, id, d, e) ==> (d, e) in out
          invariant forall e, id :: e in grouped[c] && Holds(index, id, c, e) && id in rows[..i] ==> (c, e) in out
        {
          var id := rows[i];
          if c in index[id] && index[id][c] in grouped[c] {
            out := out[(c, index[id][c]) := id];
          }
        }
        assert rows[..|rows|] == rows;
      }
      r := Success(out);
    }

    /** The non-NULL columns of a row, in column order; empty when there is no row. */
    method GetExternalIds(id: int) returns (ids: Dict)
      ensures DistinctNames(ids)
      ensures Normalized(ids) == if id in index then index[id] else map[]
    {
      ids := [];
      assert Normalize(ids) == [];
      if id !in index {
        return;
      }
      var columns := [MalId, KitsuId, AnilistId, AnidbId];
      for i := 0 to |columns|
        invariant ReadUpTo(ids, index[id], columns[..i])
      {
        assert columns[..i + 1] == columns[..i] + [columns[i]] && columns[i] !in columns[..i];
        ids := ReadColumn(ids, index[id], columns[..i], columns[i]);
      }
      FourColumns(columns);
      assert columns[..|columns|] == columns;
      EqualByGet(Normalized(ids), index[id]);
    }

    /** UPDATE indexList SET key=? WHERE id=? AND key IS NULL */
    method FillColumn(id: int, c: Column, v: int)
      modifies this`index
      ensures index == Filled(old(index), id, c, v)
    {
      if id in index && c !in index[id] {
        index := index[id := index[id][c := v]];
      }
    }

    /** One entry of the dictionary, if it is usable. */
    method BackfillEntry(id: int, entry: (ProviderKey, Option<int>), ghost before: map<int, ExternalIds>, ghost done: Dict)
      requires DistinctNames(done + [entry])
      requires index == Backfilled(before, id, Normalized(done))
      modifies this`index
      ensures index == Backfilled(before, id, Normalized(done + [entry]))
    {
      var (name, value) := entry;
      NormalizedSnoc(done, entry);
      if ColumnOf(name).Some? && value.Some? {
        BackfillMore(before, id, Normalized(done), ColumnOf(name).value, value.value);
        FillColumn(id, ColumnOf(name).value, value.value);
      }
    }

    /** The NULL columns of the row, from the usable entries. */
    method BackfillExternalIds(id: int, ids: Dict)
      requires DistinctNames(ids)
      modifies this`index
      ensures index == Backfilled(old(index), id, Normalized(ids))
    {
      assert ids[..0] == [];
      assert id in index ==> Normalized([]) + index[id] == index[id];
      for i := 0 to |ids|
        invariant index == Backfilled(old(index), id, Normalized(ids[..i]))
      {
        assert ids[..i + 1] == ids[..i] + [ids[i]];
        BackfillEntry(id, ids[i], old(index), ids[..i]);
      }
      assert ids[..|ids|] == ids;
    }

    /** Find the pair's row or insert one; `newId` is the key the database gives to it. */
    method GetId(c: Column, ext: int, newId: int) returns (id: int)
      requires newId !in index
      modifies this`index
      ensures Answerable(old(index), c, ext) ==> Holds(old(index), id, c, ext) && index == old(index)
      ensures !Answerable(old(index), c, ext) ==> id == newId && index == old(index)[newId := map[c := ext]]
    {
      var existing := FindColumn(c, ext);
      if existing.Some? {
        assert Answerable(old(index), c, ext);
        return existing.value;
      }
      index := index[newId := map[c := ext]];
      assert Holds(index, newId, c, ext);
      var inserted := FindColumn(c, ext);
      forall other | Holds(index, other, c, ext) ensures other == newId {
        assert other != newId ==> Holds(old(index), other, c, ext);
      }
      id := inserted.value;
    }

    /** Reuse the row of the first known pair, or create one, and complete it. */
    method Allocate(ids: Dict, newId: int) returns (r: Result<int, string>)
      requires DistinctNames(ids)
      requires newId !in index
      modifies this`index
      ensures r.Failure? <==> Normalize(ids) == []
      ensures r.Failure? ==> index == old(index)
      ensures r.Success? ==> Allocated(old(index), Normalize(ids), r.value, index)
      ensures r.Success? ==> DistinctColumns(Normalize(ids))
      ensures r.Failure? <==> forall k :: 0 <= k < |ids| ==> !Usable(ids[k])
      ensures r.Success? && r.value in old(index) ==> exists k: nat :: FirstKnown(old(index), ids, r.value, k)
      ensures r.Success? && r.value !in old(index) ==> r.value == newId && NoneKnown(old(index), ids)
      ensures r.Success? ==> CompletedBy(old(index), ids, r.value, index)
    {
      var normalized := Normalize(ids);
      NormalizeDistinct(ids);
      NothingUsable(ids);
      if normalized == [] {
        return Failure("At least one external id is required to allocate a row");
      }
      for i := 0 to |normalized|
        invariant forall j :: 0 <= j < i ==> !Answerable(index, normalized[j].0, normalized[j].1)
        invariant index == old(index)
      {
        var existing := FindColumn(normalized[i].0, normalized[i].1);
        if existing.Some? {
          assert FirstMatch(old(index), normalized, existing.value, i);
          ghost var k := FirstMatchIsFirstKnown(old(index), ids, existing.value, i);
          BackfillExternalIds(existing.value, ids);
          AllocatedCompletes(old(index), ids, existing.value, index);
          return Success(existing.value);
        }
      }
      NoMatchIsNoneKnown(old(index), ids);
      var id := AllocateNew(ids, newId);
      AllocatedCompletes(old(index), ids, id, index);
      r := Success(id);
    }

    /** Nobody answers any of the pairs, so getId inserts a row for the first key. */
    method AllocateNew(ids: Dict, newId: int) returns (id: int)
      requires DistinctNames(ids) && Normalize(ids) != []
      requires newId !in index && NoMatch(index, Normalize(ids))
      modifies this`index
      ensures id == newId && index == old(index)[newId := Normalized(ids)]
    {
      var offered := Normalized(ids);
      var primary := PrimaryKey(Normalize(ids));
      NoMatchAt(index, Normalize(ids), primary);
      id := GetId(primary, offered[primary], newId);
      BackfillExternalIds(id, ids);
      assert offered + map[primary := offered[primary]] == offered;
    }

    // ---------- satellite tables ----------

    /** SELECT key FROM table WHERE id=? */
    method SelectPlaces(table: Table, id: int) returns (places: seq<Place>)
      ensures forall p :: p in places <==> TableOf(p) == table && Slot(id, p) in slots
    {
      var rows := Enumerate(slots.Keys);
      places := [];
      for i := 0 to |rows|
        invariant forall p :: p in places <==> TableOf(p) == table && Slot(id, p) in rows[..i]
      {
        if rows[i].owner == id && TableOf(rows[i].place) == table {
          places := places + [rows[i].place];
        }
      }
      assert rows[..|rows|] == rows;
    }

    /** DELETE FROM table WHERE id=? AND key=? */
    method DeleteAt(id: int, p: Place)
      modifies this`slots
      ensures slots == old(slots) - {Slot(id, p)}
    {
      slots := slots - {Slot(id, p)};
    }

    /** UPDATE table SET id=? WHERE id=? AND key=?, run only when the target has no such row. */
    method MoveTo(canonical: int, duplicate: int, p: Place)
      requires Slot(canonical, p) !in slots
      modifies this`slots
      ensures slots == if Slot(duplicate, p) in old(slots)
                       then (old(slots) - {Slot(duplicate, p)})[Slot(canonical, p) := old(slots)[Slot(duplicate, p)]]
                       else old(slots)
    {
      if Slot(duplicate, p) in slots {
        slots := (slots - {Slot(duplicate, p)})[Slot(canonical, p) := slots[Slot(duplicate, p)]];
      }
    }

    /** One dedupe key: drop it when the canonical id already has it, else move it. */
    method RepointRow(duplicate: int, canonical: int, p: Place)
      requires duplicate != canonical
      modifies this`slots
      ensures forall s :: Get(slots, s) == MovedGet(old(slots), [p], Step(duplicate, canonical), s)
    {
      if Slot(canonical, p) in slots {
        DeleteAt(duplicate, p);
      } else {
        MoveTo(canonical, duplicate, p);
      }
    }

    /** The row-by-row loop shared by torrentsIndex, title_synonyms, genres, pictures and
        animeRelations. */
    method Repoint(table: Table, duplicate: int, canonical: int)
      requires duplicate != canonical
      modifies this`slots
      ensures forall s :: Get(slots, s) == RepointedGet(old(slots), {table}, Step(duplicate, canonical), s)
    {
      ghost var st := Step(duplicate, canonical);
      var places := SelectPlaces(table, duplicate);
      for i := 0 to |places|
        invariant forall s :: Get(slots, s) == MovedGet(old(slots), places[..i], st, s)
      {
        ghost var before := slots;
        RepointRow(duplicate, canonical, places[i]);
        assert places[..i + 1] == places[..i] + [places[i]];
        MoveMore(old(slots), before, slots, places[..i], places[i], st);
      }
      assert places[..|places|] == places;
    }

    /** A broadcast is moved only when the canonical id has none, else dropped. */
    method RepointBroadcasts(duplicate: int, canonical: int)
      requires duplicate != canonical
      modifies this`slots
      ensures forall s :: Get(slots, s) == RepointedGet(old(slots), {Broadcasts}, Step(duplicate, canonical), s)
    {
      if Slot(duplicate, Broadcast) in slots {
        if Slot(canonical, Broadcast) in slots {
          DeleteAt(duplicate, Broadcast);
        } else {
          MoveTo(canonical, duplicate, Broadcast);
        }
      }
    }

    /** DELETE FROM table WHERE id=? */
    method DeleteRows(table: Table, id: int)
      modifies this`slots
      ensures slots == map s | s in old(slots) && !(s.owner == id && TableOf(s.place) == table) :: old(slots)[s]
    {
      slots := map s | s in slots && !(s.owner == id && TableOf(s.place) == table) :: slots[s];
    }

    // ---------- merge ----------

    /** Fill the canonical row's NULL columns from the duplicate's. */
    method MergeIndex(duplicate: int, canonical: int)
      requires duplicate != canonical
      modifies this`index
      ensures index - {duplicate} == FoldIndex(old(index), Step(duplicate, canonical))
      ensures Get(index, duplicate) == Get(old(index), duplicate)
    {
      var ids := GetExternalIds(duplicate);
      BackfillExternalIds(canonical, ids);
      if canonical in old(index) && duplicate !in old(index) {
        assert Normalized(ids) + old(index)[canonical] == old(index)[canonical];
      }
    }

    method RepointAll(duplicate: int, canonical: int)
      requires duplicate != canonical
      modifies this`slots
      ensures slots == FoldSlots(old(slots), Step(duplicate, canonical))
    {
      ghost var st := Step(duplicate, canonical);
      Repoint(TorrentsIndex, duplicate, canonical);
      ghost var s1 := slots;
      Repoint(TitleSynonyms, duplicate, canonical);
      RepointMore(old(slots), s1, slots, {TorrentsIndex}, TitleSynonyms, st);
      ghost var s2 := slots;
      Repoint(Genres, duplicate, canonical);
      RepointMore(old(slots), s2, slots, {TorrentsIndex, TitleSynonyms}, Genres, st);
      ghost var s3 := slots;
      Repoint(Pictures, duplicate, canonical);
      RepointMore(old(slots), s3, slots, {TorrentsIndex, TitleSynonyms, Genres}, Pictures, st);
      ghost var s4 := slots;
      RepointBroadcasts(duplicate, canonical);
      RepointMore(old(slots), s4, slots, {TorrentsIndex, TitleSynonyms, Genres, Pictures}, Broadcasts, st);
      ghost var s5 := slots;
      Repoint(AnimeRelations, duplicate, canonical);
      RepointMore(old(slots), s5, slots, {TorrentsIndex, TitleSynonyms, Genres, Pictures, Broadcasts}, AnimeRelations, st);
      forall s ensures Get(slots, s) == Get(FoldSlots(old(slots), st), s) {
        AllTables(TableOf(s.place));
        FoldSlotsAt(old(slots), st, s);
      }
      EqualByGet(slots, FoldSlots(old(slots), st));
    }

    /** The closing deletes on the satellite tables. */
    method DeleteEverywhere(id: int)
      modifies this`slots
      ensures slots == map s | s in old(slots) && s.owner != id :: old(slots)[s]
    {
      for i := 0 to |SATELLITE_TABLES|
        invariant slots == map s | s in old(slots) && !(s.owner == id && TableOf(s.place) in SATELLITE_TABLES[..i]) :: old(slots)[s]
      {
        DeleteRows(SATELLITE_TABLES[i], id);
      }
      forall p: Place ensures TableOf(p) in SATELLITE_TABLES {
        AllTables(TableOf(p));
      }
      assert SATELLITE_TABLES[..|SATELLITE_TABLES|] == SATELLITE_TABLES;
    }

    /** The closing deletes; they find nothing left in the satellite tables. */
    method DeleteId(id: int)
      modifies this`slots, this`titles, this`index
      ensures slots == map s | s in old(slots) && s.owner != id :: old(slots)[s]
      ensures titles == old(titles) - {id} && index == old(index) - {id}
    {
      DeleteEverywhere(id);
      titles := titles - {id};
      index := index - {id};
    }

    /** The tables that are repointed in one statement each. */
    method MoveLinks(duplicate: int, canonical: int)
      modifies this`characterRelations, this`userTags
      ensures characterRelations == FoldLinks(old(characterRelations), Step(duplicate, canonical))
      ensures userTags == FoldLinks(old(userTags), Step(duplicate, canonical))
    {
      characterRelations := FoldLinks(characterRelations, Step(duplicate, canonical));
      userTags := FoldLinks(userTags, Step(duplicate, canonical));
    }

    /** The deletes that close a merge: only the title and the index row are still there to go. */
    method DeleteMerged(duplicate: int, ghost canonical: int, ghost before: Catalog)
      requires duplicate != canonical
      requires slots == FoldSlots(before.slots, Step(duplicate, canonical))
      requires characterRelations == FoldLinks(before.characterRelations, Step(duplicate, canonical))
      modifies this`slots, this`titles, this`index, this`characterRelations
      ensures slots == old(slots) && characterRelations == old(characterRelations)
      ensures titles == old(titles) - {duplicate} && index == old(index) - {duplicate}
    {
      NothingLeft(before.slots, slots, Step(duplicate, canonical));
      FoldLinksLeaveNone(before.characterRelations, Step(duplicate, canonical));
      DeleteId(duplicate);
      characterRelations := WithoutAnime(characterRelations, duplicate);
    }

    /** Fold `duplicate` into `canonical`: the whole new store is one `Fold` of the old one. */
    method Merge(duplicate: int, canonical: int) returns (r: int)
      modifies this
      ensures r == canonical
      ensures State() == Fold(old(State()), Step(duplicate, canonical))
    {
      r := canonical;
      if duplicate == canonical {
        return;
      }
      MergeIndex(duplicate, canonical);
      RepointAll(duplicate, canonical);
      MoveLinks(duplicate, canonical);
      DeleteMerged(duplicate, canonical, old(State()));
    }

    // ---------- repair ----------

    /** The body of the merge loops: skip the canonical id itself. */
    method MergeMember(ids: seq<int>, b: nat, canonical: int, ghost start: Catalog) returns (merged: nat)
      requires b < |ids|
      requires State() == Run(start, GroupSteps(ids[..b], canonical))
      modifies this
      ensures State() == Run(start, GroupSteps(ids[..b + 1], canonical))
      ensures |GroupSteps(ids[..b + 1], canonical)| == |GroupSteps(ids[..b], canonical)| + merged
    {
      ghost var mid := State();
      merged := 0;
      if ids[b] != canonical {
        var _ := Merge(ids[b], canonical);
        merged := 1;
      }
      OneMoreMember(start, mid, State(), ids, b, canonical);
    }

    /** Merge all ids of one group into its preferred id. */
    method MergeGroup(ids: seq<int>) returns (merged: nat)
      requires ids != []
      modifies this
      ensures State() == Run(old(State()), GroupSteps(ids, PreferredCatalogId(ids).value))
      ensures merged == |GroupSteps(ids, PreferredCatalogId(ids).value)|
    {
      merged := 0;
      var canonical := PreferredCatalogId(ids).value;
      assert ids[..0] == [] && ids[..|ids|] == ids;
      for b := 0 to |ids|
        invariant State() == Run(old(State()), GroupSteps(ids[..b], canonical))
        invariant merged == |GroupSteps(ids[..b], canonical)|
      {
        var n := MergeMember(ids, b, canonical, old(State()));
        merged := merged + n;
      }
    }

    /** Merge every group of two or more ids into its preferred id, groups in any order. */
    method MergeGroups<K(==,!new)>(groups: map<K, seq<int>>, ghost keys: map<int, K>) returns (merged: nat, ghost log: seq<Step>)
      requires Groups(keys, groups)
      modifies this
      ensures State() == Run(old(State()), log)
      ensures IsPass(keys, log) && merged == |log|
    {
      merged, log := 0, [];
      var visit := Enumerate(groups.Keys);
      for a := 0 to |visit|
        invariant State() == Run(old(State()), log) && merged == |log|
        invariant FoldsOnce(keys, log) && FoldedUpTo(keys, log, visit[..a])
      {
        var k := visit[a];
        assert visit[..a + 1] == visit[..a] + [k] && k !in visit[..a];
        ghost var before := log;
        if |groups[k]| >= 2 {
          var n := MergeGroup(groups[k]);
          ghost var steps := GroupSteps(groups[k], PreferredCatalogId(groups[k]).value);
          RunAppend(old(State()), log, steps);
          GroupFolds(keys, k, groups[k], log);
          merged, log := merged + n, log + steps;
        } else {
          SingleGroup(keys, k, groups[k]);
        }
        FoldedOneMore(keys, before, log, visit[..a], k);
      }
      assert visit[..|visit|] == visit;
      AllFolded(keys, groups, log, visit);
    }

    /** One column: every row with the column set, grouped by its value. */
    method RepairColumn(c: Column) returns (merged: nat, ghost log: seq<Step>)
      modifies this
      ensures State() == Run(old(State()), log)
      ensures IsPass(ColumnKeys(old(index), c), log) && merged == |log|
    {
      var groups := GroupByKey(ColumnKeys(index, c));
      merged, log := MergeGroups(groups, ColumnKeys(index, c));
    }

    /** One more column of a repair that began at `start`. */
    method RepairNext(c: Column, ghost start: Catalog, ghost columns: seq<Column>, ghost log: seq<Step>) returns (merged: nat, ghost more: seq<Step>)
      requires State() == Run(start, log) && ProviderRun(start, columns, log)
      modifies this
      ensures State() == Run(start, more) && ProviderRun(start, columns + [c], more)
      ensures |more| == |log| + merged
    {
      ghost var mid := State();
      ghost var pass;
      merged, pass := RepairColumn(c);
      OneMoreColumn(start, mid, State(), columns, c, log, pass);
      more := log + pass;
    }

    method RepairColumns(columns: seq<Column>) returns (merged: nat, ghost log: seq<Step>)
      modifies this
      ensures State() == Run(old(State()), log) && merged == |log|
      ensures ProviderRun(old(State()), columns, log)
    {
      merged, log := 0, [];
      assert columns[..0] == [];
      for i := 0 to |columns|
        invariant State() == Run(old(State()), log) && merged == |log|
        invariant ProviderRun(old(State()), columns[..i], log)
      {
        assert columns[..i + 1] == columns[..i] + [columns[i]];
        var n;
        n, log := RepairNext(columns[i], old(State()), columns[..i], log);
        merged := merged + n;
      }
      assert columns[..|columns|] == columns;
    }

    /** The columns are visited in an arbitrary order; `columns` says in which one. */
    method RepairByProviderId() returns (merged: nat, ghost log: seq<Step>, ghost columns: seq<Column>)
      modifies this
      ensures State() == Run(old(State()), log)
      ensures ProviderRun(old(State()), columns, log) && forall c: Column :: c in columns
      ensures AllInjective(index)
      ensures merged == |log| == |old(index)| - |index|
      ensures AllInjective(old(index)) <==> merged == 0
      ensures Orderly(old(State()), log)
      ensures forall st :: st in log ==> Related(old(index), st.duplicate, st.canonical)
      ensures Coherent(old(index)) ==> forall id :: id in index <==> IsHead(old(index), id)
      ensures Anchored(old(index)) ==> forall id :: id in index <==> IsAnchor(old(index), id)
    {
      var order := Enumerate(ALL_COLUMNS);
      columns := order;
      forall c: Column ensures c in columns {
        EveryColumn(c);
      }
      merged, log := RepairColumns(order);
      ProviderRunIsLive(old(State()), columns, log);
      ProviderRepair(old(State()), columns, log);
      MergesRelatives(old(State()), columns, log);
      if Coherent(old(index)) {
        forall id ensures id in index <==> IsHead(old(index), id) {
          OneRowPerFamily(old(State()), columns, log, id);
        }
      }
      if Anchored(old(index)) {
        forall id ensures id in index <==> IsAnchor(old(index), id) {
          AnchorsAreLeft(old(State()), columns, log, id);
        }
      }
    }

    method RepairByTitle() returns (merged: nat, ghost log: seq<Step>)
      modifies this
      ensures State() == Run(old(State()), log)
      ensures IsPass(TitleKeys(old(titles), trim, lower), log)
      ensures TitlesDistinct(titles, trim, lower)
      ensures forall c :: Injective(old(index), c) ==> Injective(index, c)
      ensures merged == |log| == |old(titles)| - |titles|
      ensures Orderly(old(State()), log)
      ensures forall st :: st in log ==> Namesakes(old(titles), st.duplicate, st.canonical, trim, lower)
      ensures log == [] <==> TitlesDistinct(old(titles), trim, lower)
      ensures forall id :: id in titles <==>
        id in old(titles) && forall j :: Namesakes(old(titles), id, j, trim, lower) ==> j == id || Prefers(id, j)
    {
      var groups := GroupByKey(TitleKeys(titles, trim, lower));
      merged, log := MergeGroups(groups, TitleKeys(titles, trim, lower));
      TitlePassRepairs(old(State()), trim, lower, log);
      TitlePassMergesNamesakes(old(titles), trim, lower, log);
      TitlePassOverDistinct(old(titles), trim, lower, log);
      forall id ensures id in titles <==>
        id in old(titles) && forall j :: Namesakes(old(titles), id, j, trim, lower) ==> j == id || Prefers(id, j)
      {
        TitlePassLeaves(old(State()), trim, lower, log, id);
      }
    }

    /** Columns first, then titles. */
    method RepairAll() returns (merged: nat, ghost log: seq<Step>)
      modifies this
      ensures State() == Run(old(State()), log) && merged == |log|
      ensures Orderly(old(State()), log)
      ensures AllInjective(index) && TitlesDistinct(titles, trim, lower)
      ensures forall st :: st in log ==> Justified(old(State()), All, st)
    {
      var n, byId, columns := RepairByProviderId();
      ghost var mid := State();
      var m, byTitle := RepairByTitle();
      FullRepair(old(State()), columns, byId, trim, lower, byTitle);
      RunAppend(old(State()), byId, byTitle);
      merged, log := n + m, byId + byTitle;
      forall st | st in byTitle ensures Justified(old(State()), All, st) {
        NamesakesBefore(old(State()), byId, st.duplicate, st.canonical, trim, lower);
      }
    }

    /** Every strategy merges for its own reason only: rows of a family, or namesakes. */
    ghost predicate Justified(s: Catalog, strategy: Strategy, st: Step) {
      || (strategy != Title && Related(s.index, st.duplicate, st.canonical))
      || (strategy != ProviderId && Namesakes(s.titles, st.duplicate, st.canonical, trim, lower))
    }

    /** Whatever the strategy, the new store is a run of preferring merges over the old one. */
    method RepairDuplicates(strategy: Strategy) returns (merged: nat, ghost log: seq<Step>)
      modifies this
      ensures State() == Run(old(State()), log) && merged == |log|
      ensures Orderly(old(State()), log)
      ensures strategy != Title ==> AllInjective(index)
      ensures strategy != ProviderId ==> TitlesDistinct(titles, trim, lower)
      ensures strategy == Title ==> forall c :: Injective(old(index), c) ==> Injective(index, c)
      ensures forall st :: st in log ==> Justified(old(State()), strategy, st)
    {
      match strategy
      case ProviderId =>
        ghost var columns;
        merged, log, columns := RepairByProviderId();
      case Title =>
        merged, log := RepairByTitle();
      case All =>
        merged, log := RepairAll();
    }
  }

  /** Exactly the ids that do not lead the groups in `ks` have been folded. */
  ghost predicate FoldedUpTo<K>(keys: map<int, K>, log: seq<Step>, ks: seq<K>) {
    forall i :: i in Duplicates(log) <==> i in keys && !Leads(keys, i) && keys[i] in ks
  }

  lemma PreferredLeads<K>(keys: map<int, K>, k: K, ids: seq<int>, canonical: int)
    requires IsGroup(keys, k, ids) && PreferredCatalogId(ids) == Success(canonical)
    ensures forall i :: i in ids ==> (Leads(keys, i) <==> i == canonical)
    ensures forall i :: i in ids && i != canonical ==> FoldsToLeader(keys, Step(i, canonical))
  {
    PreferredIsLeast(ids, canonical);
    assert Leads(keys, canonical);
  }

  /** The merges of one group, in the order of its rows. */
  function GroupSteps(ids: seq<int>, canonical: int): seq<Step> {
    if ids == [] then []
    else
      var last := ids[|ids| - 1];
      GroupSteps(ids[..|ids| - 1], canonical) + if last != canonical then [Step(last, canonical)] else []
  }

  lemma GroupStepsSnoc(ids: seq<int>, id: int, canonical: int)
    ensures GroupSteps(ids + [id], canonical)
         == if id != canonical then GroupSteps(ids, canonical) + [Step(id, canonical)] else GroupSteps(ids, canonical)
  {
    assert (ids + [id])[..|ids + [id]| - 1] == ids;
  }

  lemma RunSnoc(s: Catalog, log: seq<Step>, st: Step)
    ensures Run(s, log + [st]) == Fold(Run(s, log), st)
  {
    assert (log + [st])[..|log + [st]| - 1] == log;
  }

  /** What one round of the merge loop makes of the run so far. */
  lemma OneMoreMember(start: Catalog, mid: Catalog, now: Catalog, ids: seq<int>, b: nat, canonical: int)
    requires b < |ids| && mid == Run(start, GroupSteps(ids[..b], canonical))
    requires now == if ids[b] != canonical then Fold(mid, Step(ids[b], canonical)) else mid
    ensures now == Run(start, GroupSteps(ids[..b + 1], canonical))
    ensures |GroupSteps(ids[..b + 1], canonical)|
         == |GroupSteps(ids[..b], canonical)| + if ids[b] != canonical then 1 else 0
  {
    assert ids[..b + 1] == ids[..b] + [ids[b]];
    GroupStepsSnoc(ids[..b], ids[b], canonical);
    RunSnoc(start, GroupSteps(ids[..b], canonical), Step(ids[b], canonical));
  }

  lemma OneMoreColumn(start: Catalog, mid: Catalog, now: Catalog, columns: seq<Column>, c: Column, log: seq<Step>, pass: seq<Step>)
    requires mid == Run(start, log) && now == Run(mid, pass)
    requires ProviderRun(start, columns, log) && IsPass(ColumnKeys(mid.index, c), pass)
    ensures now == Run(start, log + pass) && ProviderRun(start, columns + [c], log + pass)
  {
    RunAppend(start, log, pass);
    PassAppend(start, columns, c, log, pass);
  }

  /** The merges of a group fold exactly the ids that do not lead it. */
  lemma GroupFolds<K>(keys: map<int, K>, k: K, ids: seq<int>, done: seq<Step>)
    requires IsGroup(keys, k, ids) && ids != [] && FoldsOnce(keys, done)
    requires forall i :: i in ids ==> i !in Duplicates(done)
    ensures var log := done + GroupSteps(ids, PreferredCatalogId(ids).value);
      && FoldsOnce(keys, log)
      && forall i :: i in Duplicates(log) <==> i in Duplicates(done) || (i in ids && !Leads(keys, i))
  {
    var canonical := PreferredCatalogId(ids).value;
    PreferredLeads(keys, k, ids, canonical);
    assert ids[..|ids|] == ids;
    GroupFoldsUpTo(keys, ids, canonical, done, |ids|);
  }

  lemma {:induction false} GroupFoldsUpTo<K>(keys: map<int, K>, ids: seq<int>, canonical: int, done: seq<Step>, n: nat)
    requires n <= |ids| && FoldsOnce(keys, done)
    requires forall a, b :: 0 <= a < b < |ids| ==> ids[a] != ids[b]
    requires forall i :: i in ids ==> i !in Duplicates(done)
    requires forall i :: i in ids && i != canonical ==> FoldsToLeader(keys, Step(i, canonical))
    ensures FoldsOnce(keys, done + GroupSteps(ids[..n], canonical))
    ensures forall i :: i in Duplicates(done + GroupSteps(ids[..n], canonical))
                   <==> i in Duplicates(done) || (i in ids[..n] && i != canonical)
  {
    if n == 0 {
      assert done + GroupSteps(ids[..0], canonical) == done;
    } else {
      var id := ids[n - 1];
      var before := done + GroupSteps(ids[..n - 1], canonical);
      GroupFoldsUpTo(keys, ids, canonical, done, n - 1);
      GroupStepsSnoc(ids[..n - 1], id, canonical);
      assert ids[..n] == ids[..n - 1] + [id];
      if id != canonical {
        FoldsOneMore(keys, before, Step(id, canonical));
        assert before + [Step(id, canonical)] == done + GroupSteps(ids[..n], canonical);
      }
    }
  }

  lemma SingleGroup<K>(keys: map<int, K>, k: K, ids: seq<int>)
    requires IsGroup(keys, k, ids) && |ids| < 2
    ensures forall i :: i in keys && keys[i] == k ==> Leads(keys, i)
  {
    forall i | i in keys && keys[i] == k ensures Leads(keys, i) {
      assert i in ids && ids == [i];
    }
  }

  lemma FoldedOneMore<K>(keys: map<int, K>, before: seq<Step>, log: seq<Step>, ks: seq<K>, k: K)
    requires FoldedUpTo(keys, before, ks)
    requires forall i :: i in Duplicates(log) <==>
      i in Duplicates(before) || (i in keys && keys[i] == k && !Leads(keys, i))
    ensures FoldedUpTo(keys, log, ks + [k])
  {
  }

  lemma AllFolded<K>(keys: map<int, K>, groups: map<K, seq<int>>, log: seq<Step>, ks: seq<K>)
    requires Groups(keys, groups) && FoldsOnce(keys, log) && FoldedUpTo(keys, log, ks)
    requires forall k :: k in groups ==> k in ks
    ensures IsPass(keys, log)
  {
    forall i | i in keys && !Leads(keys, i) ensures i in Duplicates(log) {
      var l :| l in keys && keys[l] == keys[i] && l != i && !Prefers(i, l);
    }
  }

  ghost predicate FoldsOnce<K>(keys: map<int, K>, log: seq<Step>) {
    forall j :: 0 <= j < |log| ==> FoldsToLeader(keys, log[j]) && log[j].duplicate !in Duplicates(log[..j])
  }

  lemma FoldsOneMore<K>(keys: map<int, K>, log: seq<Step>, st: Step)
    requires FoldsOnce(keys, log) && FoldsToLeader(keys, st) && st.duplicate !in Duplicates(log)
    ensures FoldsOnce(keys, log + [st])
    ensures Duplicates(log + [st]) == Duplicates(log) + {st.duplicate}
  {
    var more := log + [st];
    assert more[..|log|] == log;
    DuplicatesSnoc(more);
    forall j | 0 <= j < |more| ensures FoldsToLeader(keys, more[j]) && more[j].duplicate !in Duplicates(more[..j]) {
      assert more[..j] == log[..j];
    }
  }

  /** Group ids by their key: `groups.setdefault(key, []).append(id)`. */
  method GroupByKey<K(==,!new)>(keys: map<int, K>) returns (groups: map<K, seq<int>>)
    ensures Groups(keys, groups)
    ensures forall i :: i in keys ==> keys[i] in groups
  {
    groups := map[];
    var rows := Enumerate(keys.Keys);
    for a := 0 to |rows|
      invariant forall i :: i in rows[..a] ==> keys[i] in groups
      invariant forall k, i :: k in groups ==> (i in groups[k] <==> i in rows[..a] && keys[i] == k)
      invariant forall k :: k in groups ==> forall x, y :: 0 <= x < y < |groups[k]| ==> groups[k][x] != groups[k][y]
    {
      var id := rows[a];
      var k := keys[id];
      assert rows[..a + 1] == rows[..a] + [id];
      groups := groups[k := (if k in groups then groups[k] else []) + [id]];
    }
    assert rows[..|rows|] == rows;
  }

  /** After repointing, no satellite row is left for the closing deletes to lose. */
  lemma NothingLeft(before: map<Slot, Rest>, moved: map<Slot, Rest>, st: Step)
    requires st.duplicate != st.canonical && moved == FoldSlots(before, st)
    ensures moved == map s | s in moved && s.owner != st.duplicate :: moved[s]
  {
    forall s | s in moved ensures s.owner != st.duplicate {
      FoldSlotsAt(before, st, s);
    }
  }

  lemma AllTables(t: Table)
    ensures t in SATELLITE_TABLES
  {
    assert t == SATELLITE_TABLES[0] || t == SATELLITE_TABLES[1] || t == SATELLITE_TABLES[2]
        || t == SATELLITE_TABLES[3] || t == SATELLITE_TABLES[4] || t == SATELLITE_TABLES[5];
  }

  /** DELETE FROM characterRelations WHERE anime_id=? */
  function WithoutAnime(rows: seq<Link>, id: int): (r: seq<Link>)
    ensures forall l :: l in r <==> l in rows && l.animeId != id
    ensures (forall l :: l in rows ==> l.animeId != id) ==> r == rows
  {
    if rows == [] then []
    else
      assert rows == [rows[0]] + rows[1..];
      (if rows[0].animeId != id then [rows[0]] else []) + WithoutAnime(rows[1..], id)
  }
}
