/**
 The user_tags table of adapters/persistence/user_actions_repository.py: upserts of one column
 at a time, the tag / like / auto-download / seen actions, and the two ways of reading it.
 */
module UserTags {
  import opened Wrappers

  datatype Row = Row(anime: int, user: int, tag: Option<string>, liked: Option<int>, auto: Option<int>)

  /** A column and the value written to it. */
  datatype Write = Tag(tag: string) | Liked(liked: int) | Auto(auto: int)

  /** Python's upper() and strip(), and SQL's UPPER, as total functions. */
  datatype Text = Text(upper: string -> string, strip: string -> string)

  const WATCHING := "WATCHING"
  const NONE := "NONE"

  const SEEN := "SEEN"

  /** No case folding turns another of the fixed tags, or no tag, into WATCHING. */
  predicate Sane(t: Text) {
    t.upper(NONE) != WATCHING && t.upper("") != WATCHING && t.upper(t.strip(SEEN)) != WATCHING
  }

  function Written(r: Row, w: Write): Row {
    match w
    case Tag(tag) => r.(tag := Some(tag))
    case Liked(liked) => r.(liked := Some(liked))
    case Auto(auto) => r.(auto := Some(auto))
  }

  predicate Matches(r: Row, anime: int, user: int) {
    r.anime == anime && r.user == user
  }

  predicate Exists(rows: seq<Row>, anime: int, user: int) {
    rows != [] && (Matches(rows[|rows| - 1], anime, user) || Exists(rows[..|rows| - 1], anime, user))
  }

  /** UPDATE user_tags SET column=? WHERE anime_id=? AND user_id=? */
  function Updated(rows: seq<Row>, anime: int, user: int, w: Write): (r: seq<Row>)
    ensures |r| == |rows|
    ensures forall i :: 0 <= i < |rows| ==> r[i] == if Matches(rows[i], anime, user) then Written(rows[i], w) else rows[i]
  {
    if rows == [] then []
    else
      var last := rows[|rows| - 1];
      Updated(rows[..|rows| - 1], anime, user, w) + [if Matches(last, anime, user) then Written(last, w) else last]
  }

  /** UPDATE when the pair has a row, else INSERT. */
  function Upserted(rows: seq<Row>, anime: int, user: int, w: Write): seq<Row> {
    if Exists(rows, anime, user) then Updated(rows, anime, user, w)
    else rows + [Written(Row(anime, user, None, None, None), w)]
  }

  ghost predicate OneRowEach(rows: seq<Row>) {
    rows == [] ||
    (OneRowEach(rows[..|rows| - 1]) && !Exists(rows[..|rows| - 1], rows[|rows| - 1].anime, rows[|rows| - 1].user))
  }

  /** The row of a pair; a pair without one reads as all NULL. */
  function RowOf(rows: seq<Row>, anime: int, user: int): Row {
    if rows == [] then Row(anime, user, None, None, None)
    else if Matches(rows[|rows| - 1], anime, user) then rows[|rows| - 1]
    else RowOf(rows[..|rows| - 1], anime, user)
  }

  /** The rows of a pair laid over each other: the later non-NULL column wins. */
  function Overlay(rows: seq<Row>, anime: int, user: int): Row {
    if rows == [] then Row(anime, user, None, None, None)
    else
      var under, last := Overlay(rows[..|rows| - 1], anime, user), rows[|rows| - 1];
      if !Matches(last, anime, user) then under
      else Row(anime, user, if last.tag.Some? then last.tag else under.tag,
               if last.liked.Some? then last.liked else under.liked,
               if last.auto.Some? then last.auto else under.auto)
  }

  /** With one row per pair the overlay is that row. */
  lemma {:induction false} OverlayIsRow(rows: seq<Row>, anime: int, user: int)
    requires OneRowEach(rows)
    ensures Overlay(rows, anime, user) == RowOf(rows, anime, user)
  {
    if rows != [] {
      OverlayIsRow(rows[..|rows| - 1], anime, user);
      if Matches(rows[|rows| - 1], anime, user) {
        RowOfNone(rows[..|rows| - 1], anime, user);
      }
    }
  }

  lemma {:induction false} ExistsAt(rows: seq<Row>, i: nat)
    requires i < |rows|
    ensures Exists(rows, rows[i].anime, rows[i].user)
  {
    if i < |rows| - 1 {
      ExistsAt(rows[..|rows| - 1], i);
    }
  }

  lemma {:induction false} RowOfIs(rows: seq<Row>, i: nat)
    requires OneRowEach(rows) && i < |rows|
    ensures RowOf(rows, rows[i].anime, rows[i].user) == rows[i]
  {
    if i < |rows| - 1 {
      ExistsAt(rows[..|rows| - 1], i);
      RowOfIs(rows[..|rows| - 1], i);
    }
  }

  lemma {:induction false} RowOfNone(rows: seq<Row>, anime: int, user: int)
    requires !Exists(rows, anime, user)
    ensures RowOf(rows, anime, user) == Row(anime, user, None, None, None)
  {
    if rows != [] {
      RowOfNone(rows[..|rows| - 1], anime, user);
    }
  }

  lemma {:induction false} UpdateRow(rows: seq<Row>, anime: int, user: int, w: Write, a: int, u: int)
    ensures Exists(Updated(rows, anime, user, w), a, u) <==> Exists(rows, a, u)
    ensures RowOf(Updated(rows, anime, user, w), a, u)
         == if (a, u) == (anime, user) && Exists(rows, a, u) then Written(RowOf(rows, a, u), w) else RowOf(rows, a, u)
  {
    if rows != [] {
      UpdateRow(rows[..|rows| - 1], anime, user, w, a, u);
      UpdatedFront(rows, anime, user, w);
    }
  }

  lemma UpdatedFront(rows: seq<Row>, anime: int, user: int, w: Write)
    requires rows != []
    ensures Updated(rows, anime, user, w) != []
    ensures Updated(rows, anime, user, w)[..|Updated(rows, anime, user, w)| - 1] == Updated(rows[..|rows| - 1], anime, user, w)
  {
  }

  lemma {:induction false} UpdateKeepsOneRow(rows: seq<Row>, anime: int, user: int, w: Write)
    requires OneRowEach(rows)
    ensures OneRowEach(Updated(rows, anime, user, w))
  {
    if rows != [] {
      var front, last := rows[..|rows| - 1], rows[|rows| - 1];
      UpdateKeepsOneRow(front, anime, user, w);
      UpdateRow(front, anime, user, w, last.anime, last.user);
      assert Updated(rows, anime, user, w)[..|rows| - 1] == Updated(front, anime, user, w);
    }
  }

  /** An upsert keeps one row per (anime, user), writes the pair's row and no other. */
  lemma UpsertIsOneWrite(rows: seq<Row>, anime: int, user: int, w: Write, a: int, u: int)
    requires OneRowEach(rows)
    ensures OneRowEach(Upserted(rows, anime, user, w))
    ensures RowOf(Upserted(rows, anime, user, w), a, u)
         == if (a, u) == (anime, user) then Written(RowOf(rows, a, u), w) else RowOf(rows, a, u)
    ensures Exists(Upserted(rows, anime, user, w), a, u) <==> Exists(rows, a, u) || (a, u) == (anime, user)
  {
    if Exists(rows, anime, user) {
      UpdateRow(rows, anime, user, w, a, u);
      UpdateKeepsOneRow(rows, anime, user, w);
    } else {
      RowOfNone(rows, anime, user);
      var after := Upserted(rows, anime, user, w);
      assert after[..|after| - 1] == rows;
    }
  }

  // ---------- reading ----------

  datatype UserState = UserState(tag: string, liked: bool, autoDownload: bool)

  function StateOf(t: Text, r: Row): UserState {
    var tag := if r.tag.Some? && r.tag.value != "" then r.tag.value else NONE;
    UserState(tag, r.liked.Some? && r.liked.value != 0,
              if r.auto.None? then t.upper(tag) == WATCHING else r.auto.value != 0)
  }

  /** list_auto_download_eligible keeps WATCHING rows unless auto-download is an explicit 0. */
  predicate Eligible(t: Text, r: Row, user: int) {
    r.user == user && r.tag.Some? && t.upper(r.tag.value) == WATCHING && (r.auto.Some? ==> r.auto.value != 0)
  }

  ghost predicate Lists(t: Text, rows: seq<Row>, user: int, out: seq<int>) {
    && (forall i, j :: 0 <= i < j < |out| ==> out[i] != out[j])
    && forall a :: a in out <==> exists i :: 0 <= i < |rows| && rows[i].anime == a && Eligible(t, rows[i], user)
  }

  /** An anime is listed for automatic download exactly when its own state says WATCHING with
      auto-download on. */
  lemma EligibleIffStateSaysSo(t: Text, rows: seq<Row>, user: int, out: seq<int>, a: int)
    requires Sane(t) && OneRowEach(rows) && Lists(t, rows, user, out)
    ensures a in out <==>
      var s := StateOf(t, Overlay(rows, a, user)); t.upper(s.tag) == WATCHING && s.autoDownload
  {
    OverlayIsRow(rows, a, user);
    if a in out {
      var j :| 0 <= j < |rows| && rows[j].anime == a && Eligible(t, rows[j], user);
      RowOfIs(rows, j);
    } else if Exists(rows, a, user) {
      var i := IndexOf(rows, a, user);
      RowOfIs(rows, i);
    } else {
      RowOfNone(rows, a, user);
    }
  }

  lemma {:induction false} IndexOf(rows: seq<Row>, anime: int, user: int) returns (i: nat)
    requires Exists(rows, anime, user)
    ensures i < |rows| && Matches(rows[i], anime, user)
  {
    i := |rows| - 1;
    if !Matches(rows[i], anime, user) {
      i := IndexOf(rows[..i], anime, user);
    }
  }

  // ---------- actions ----------

  datatype Action =
    | SetTag(anime: int, tag: string, user: int)
    | SetAutoDownload(anime: int, enabled: bool, user: int)
    | SetLike(anime: int, liked: bool, user: int)
    | MarkSeen(anime: int, user: int)

  /** set_tag: entering WATCHING opts in, unless the state already says no. */
  function Tagged(t: Text, rows: seq<Row>, anime: int, tag: string, user: int): seq<Row> {
    var tagged := Upserted(rows, anime, user, Tag(tag));
    if t.upper(t.strip(tag)) != WATCHING then tagged
    else if !StateOf(t, Overlay(tagged, anime, user)).autoDownload then tagged
    else Upserted(tagged, anime, user, Auto(1))
  }

  function After(t: Text, rows: seq<Row>, a: Action): seq<Row> {
    match a
    case SetTag(anime, tag, user) => Tagged(t, rows, anime, tag, user)
    case SetAutoDownload(anime, enabled, user) => Upserted(rows, anime, user, Auto(if enabled then 1 else 0))
    case SetLike(anime, liked, user) => Upserted(rows, anime, user, Liked(if liked then 1 else 0))
    case MarkSeen(anime, user) => Tagged(t, rows, anime, SEEN, user)
  }

  function AfterAll(t: Text, actions: seq<Action>): seq<Row> {
    if actions == [] then [] else After(t, AfterAll(t, actions[..|actions| - 1]), actions[|actions| - 1])
  }

  /** What set_tag makes of the pair's row, and that it touches no other. */
  lemma TaggedRow(t: Text, rows: seq<Row>, anime: int, tag: string, user: int, a: int, u: int)
    requires OneRowEach(rows)
    ensures OneRowEach(Tagged(t, rows, anime, tag, user))
    ensures (a, u) != (anime, user) ==> RowOf(Tagged(t, rows, anime, tag, user), a, u) == RowOf(rows, a, u)
    ensures (a, u) == (anime, user) ==>
      var before, after := RowOf(rows, a, u), RowOf(Tagged(t, rows, anime, tag, user), a, u);
      && after.tag == Some(tag) && after.liked == before.liked
      && (before.auto == Some(0) ==> after.auto == Some(0))
      && (t.upper(t.strip(tag)) != WATCHING ==> after.auto == before.auto)
      && (t.upper(t.strip(tag)) == WATCHING && before.auto.Some? && before.auto.value != 0 ==> after.auto == Some(1))
      && (t.upper(t.strip(tag)) == WATCHING && before.auto.None? ==>
            after.auto == if t.upper(if tag != "" then tag else NONE) == WATCHING then Some(1) else None)
  {
    var tagged := Upserted(rows, anime, user, Tag(tag));
    UpsertIsOneWrite(rows, anime, user, Tag(tag), a, u);
    UpsertIsOneWrite(rows, anime, user, Tag(tag), anime, user);
    OverlayIsRow(tagged, anime, user);
    UpsertIsOneWrite(tagged, anime, user, Auto(1), a, u);
  }

  /** The opt-in on entering WATCHING reaches a row that never chose exactly when the tag is
      WATCHING as it stands: with blanks around it the tag is recognised, but the default that
      is consulted is not. */
  lemma OptInNeedsABareTag(t: Text, rows: seq<Row>, anime: int, tag: string, user: int)
    requires Sane(t) && OneRowEach(rows) && t.upper(t.strip(tag)) == WATCHING
    requires RowOf(rows, anime, user).auto == None
    ensures RowOf(Tagged(t, rows, anime, tag, user), anime, user).auto == Some(1) <==> t.upper(tag) == WATCHING
    ensures t.upper(tag) != WATCHING ==> RowOf(Tagged(t, rows, anime, tag, user), anime, user).auto == None
  {
    var tagged := Upserted(rows, anime, user, Tag(tag));
    UpsertIsOneWrite(rows, anime, user, Tag(tag), anime, user);
    OverlayIsRow(tagged, anime, user);
    UpsertIsOneWrite(tagged, anime, user, Auto(1), anime, user);
  }

  /** " WATCHING" is recognised as the tag, but leaves the new row without an opt-in. */
  lemma BlankTagIsNotOptedIn()
    ensures var t := Text(s => s, s => if s == " WATCHING" then WATCHING else s);
      t.upper(t.strip(" WATCHING")) == WATCHING && RowOf(Tagged(t, [], 1, " WATCHING", 1), 1, 1).auto == None
  {
    var t := Text(s => s, s => if s == " WATCHING" then WATCHING else s);
    assert |" WATCHING"| == 9 && |WATCHING| == 8 && |NONE| == 4 && |SEEN| == 4;
    OptInNeedsABareTag(t, [], 1, " WATCHING", 1);
  }

  /** mark_seen writes the tag and nothing else. */
  lemma SeenIsOneWrite(t: Text, rows: seq<Row>, anime: int, user: int, a: int, u: int)
    requires Sane(t) && OneRowEach(rows)
    ensures RowOf(After(t, rows, MarkSeen(anime, user)), a, u)
         == if (a, u) == (anime, user) then RowOf(rows, a, u).(tag := Some(SEEN)) else RowOf(rows, a, u)
  {
    UpsertIsOneWrite(rows, anime, user, Tag(SEEN), a, u);
  }

  function StateAt(t: Text, rows: seq<Row>, anime: int, user: int): UserState {
    StateOf(t, Overlay(rows, anime, user))
  }

  lemma UpsertIsReadBack(t: Text, rows: seq<Row>, anime: int, user: int, w: Write, a: int, u: int)
    requires OneRowEach(rows)
    ensures StateAt(t, Upserted(rows, anime, user, w), a, u)
         == StateOf(t, if (a, u) == (anime, user) then Written(RowOf(rows, a, u), w) else RowOf(rows, a, u))
    ensures StateAt(t, rows, a, u) == StateOf(t, RowOf(rows, a, u))
  {
    UpsertIsOneWrite(rows, anime, user, w, a, u);
    OverlayIsRow(rows, a, u);
    OverlayIsRow(Upserted(rows, anime, user, w), a, u);
  }

  lemma StateOfLiked(t: Text, r: Row, liked: bool)
    ensures var before := StateOf(t, r);
      StateOf(t, Written(r, Liked(if liked then 1 else 0))) == UserState(before.tag, liked, before.autoDownload)
  {
  }

  lemma StateOfAuto(t: Text, r: Row, enabled: bool)
    ensures var before := StateOf(t, r);
      StateOf(t, Written(r, Auto(if enabled then 1 else 0))) == UserState(before.tag, before.liked, enabled)
  {
  }

  /** A like is read back, and changes nothing else of the pair's state and nothing of another's. */
  lemma LikeIsReadBack(t: Text, rows: seq<Row>, anime: int, liked: bool, user: int, a: int, u: int)
    requires OneRowEach(rows)
    ensures var before, after := StateAt(t, rows, a, u), StateAt(t, After(t, rows, SetLike(anime, liked, user)), a, u);
      after == if (a, u) == (anime, user) then UserState(before.tag, liked, before.autoDownload) else before
  {
    var w := Liked(if liked then 1 else 0);
    assert After(t, rows, SetLike(anime, liked, user)) == Upserted(rows, anime, user, w);
    UpsertIsReadBack(t, rows, anime, user, w, a, u);
    StateOfLiked(t, RowOf(rows, a, u), liked);
  }

  /** So is the choice about automatic downloads. */
  lemma AutoDownloadIsReadBack(t: Text, rows: seq<Row>, anime: int, enabled: bool, user: int, a: int, u: int)
    requires OneRowEach(rows)
    ensures var before, after := StateAt(t, rows, a, u), StateAt(t, After(t, rows, SetAutoDownload(anime, enabled, user)), a, u);
      after == if (a, u) == (anime, user) then UserState(before.tag, before.liked, enabled) else before
  {
    var w := Auto(if enabled then 1 else 0);
    assert After(t, rows, SetAutoDownload(anime, enabled, user)) == Upserted(rows, anime, user, w);
    UpsertIsReadBack(t, rows, anime, user, w, a, u);
    StateOfAuto(t, RowOf(rows, a, u), enabled);
  }

  /** A tag is read back, an empty one as NONE, and leaves the like alone. */
  lemma TagIsReadBack(t: Text, rows: seq<Row>, anime: int, tag: string, user: int, a: int, u: int)
    requires OneRowEach(rows)
    ensures var before, after := StateAt(t, rows, a, u), StateAt(t, After(t, rows, SetTag(anime, tag, user)), a, u);
      if (a, u) == (anime, user) then after.tag == (if tag == "" then "NONE" else tag) && after.liked == before.liked
      else after == before
  {
    TaggedRow(t, rows, anime, tag, user, a, u);
    OverlayIsRow(rows, a, u);
    OverlayIsRow(Tagged(t, rows, anime, tag, user), a, u);
  }

  /** With texts as they are, "WATCHING" opts a new pair in, and marking it as seen says "SEEN". */
  lemma WatchingThenSeen()
    ensures var t := Text(s => s, s => s); var watching := After(t, [], SetTag(1, "WATCHING", 1));
      && StateAt(t, watching, 1, 1) == UserState("WATCHING", false, true)
      && StateAt(t, After(t, watching, MarkSeen(1, 1)), 1, 1) == UserState("SEEN", false, true)
  {
    var t := Text(s => s, s => s);
    assert |"SEEN"| == 4 && |"WATCHING"| == 8;
    var watching := After(t, [], SetTag(1, "WATCHING", 1));
    TaggedRow(t, [], 1, "WATCHING", 1, 1, 1);
    OverlayIsRow(watching, 1, 1);
    TaggedRow(t, watching, 1, "SEEN", 1, 1, 1);
    OverlayIsRow(After(t, watching, MarkSeen(1, 1)), 1, 1);
  }

  /** Every run of actions from an empty table keeps at most one row per (anime, user). */
  lemma {:induction false} OneRowAlways(t: Text, actions: seq<Action>)
    ensures OneRowEach(AfterAll(t, actions))
  {
    if actions != [] {
      var rows := AfterAll(t, actions[..|actions| - 1]);
      OneRowAlways(t, actions[..|actions| - 1]);
      match actions[|actions| - 1]
      case SetTag(anime, tag, user) => TaggedRow(t, rows, anime, tag, user, anime, user);
      case SetAutoDownload(anime, enabled, user) =>
        UpsertIsOneWrite(rows, anime, user, Auto(if enabled then 1 else 0), anime, user);
      case SetLike(anime, liked, user) =>
        UpsertIsOneWrite(rows, anime, user, Liked(if liked then 1 else 0), anime, user);
      case MarkSeen(anime, user) => TaggedRow(t, rows, anime, SEEN, user, anime, user);
    }
  }

  predicate OptsIn(a: Action, anime: int, user: int) {
    a.SetAutoDownload? && a.anime == anime && a.user == user && a.enabled
  }

  predicate OptsOut(a: Action, anime: int, user: int) {
    a.SetAutoDownload? && a.anime == anime && a.user == user && !a.enabled
  }

  lemma TagKeepsOptOut(t: Text, rows: seq<Row>, x: int, tag: string, u: int, anime: int, user: int)
    requires OneRowEach(rows) && RowOf(rows, anime, user).auto == Some(0)
    ensures RowOf(Tagged(t, rows, x, tag, u), anime, user).auto == Some(0)
  {
    TaggedRow(t, rows, x, tag, u, anime, user);
  }

  lemma OptOutStep(t: Text, rows: seq<Row>, a: Action, anime: int, user: int)
    requires OneRowEach(rows) && !OptsIn(a, anime, user)
    requires OptsOut(a, anime, user) || RowOf(rows, anime, user).auto == Some(0)
    ensures RowOf(After(t, rows, a), anime, user).auto == Some(0)
  {
    match a
    case SetTag(x, tag, u) => TagKeepsOptOut(t, rows, x, tag, u, anime, user);
    case SetAutoDownload(x, enabled, u) => UpsertIsOneWrite(rows, x, u, Auto(if enabled then 1 else 0), anime, user);
    case SetLike(x, liked, u) => UpsertIsOneWrite(rows, x, u, Liked(if liked then 1 else 0), anime, user);
    case MarkSeen(x, u) => TagKeepsOptOut(t, rows, x, SEEN, u, anime, user);
  }

  /** An explicit opt-out survives every later action until auto-download is set on again. */
  lemma {:induction false} OptOutIsKept(t: Text, actions: seq<Action>, k: nat, anime: int, user: int)
    requires k < |actions| && OptsOut(actions[k], anime, user)
    requires forall i :: k < i < |actions| ==> !OptsIn(actions[i], anime, user)
    ensures RowOf(AfterAll(t, actions), anime, user).auto == Some(0)
    ensures !StateOf(t, Overlay(AfterAll(t, actions), anime, user)).autoDownload
  {
    OneRowAlways(t, actions);
    OverlayIsRow(AfterAll(t, actions), anime, user);
    var n := |actions| - 1;
    OneRowAlways(t, actions[..n]);
    if k < n {
      OptOutIsKept(t, actions[..n], k, anime, user);
    }
    OptOutStep(t, AfterAll(t, actions[..n]), actions[n], anime, user);
  }

  // ---------- the repository object ----------

  class UserActions {
    const text: Text
    var rows: seq<Row>

    constructor (text: Text)
      ensures this.text == text && rows == []
    {
      this.text, rows := text, [];
    }

    method UpsertColumn(anime: int, user: int, w: Write)
      modifies this`rows
      ensures rows == Upserted(old(rows), anime, user, w)
    {
      if Exists(rows, anime, user) {
        rows := Updated(rows, anime, user, w);
      } else {
        rows := rows + [Written(Row(anime, user, None, None, None), w)];
      }
    }

    method SetTag(anime: int, tag: string, user: int)
      modifies this`rows
      ensures rows == After(text, old(rows), Action.SetTag(anime, tag, user))
    {
      UpsertColumn(anime, user, Tag(tag));
      if text.upper(text.strip(tag)) != WATCHING {
        return;
      }
      var state := GetUserState(anime, user);
      if !state.autoDownload {
        return;
      }
      SetAutoDownload(anime, true, user);
    }

    method SetAutoDownload(anime: int, enabled: bool, user: int)
      modifies this`rows
      ensures rows == After(text, old(rows), Action.SetAutoDownload(anime, enabled, user))
    {
      UpsertColumn(anime, user, Auto(if enabled then 1 else 0));
    }

    method SetLike(anime: int, liked: bool, user: int)
      modifies this`rows
      ensures rows == After(text, old(rows), Action.SetLike(anime, liked, user))
    {
      UpsertColumn(anime, user, Liked(if liked then 1 else 0));
    }

    method MarkSeen(anime: int, user: int)
      modifies this`rows
      ensures rows == After(text, old(rows), Action.MarkSeen(anime, user))
      ensures Sane(text) ==> rows == Upserted(old(rows), anime, user, Tag(SEEN))
    {
      SetTag(anime, SEEN, user);
    }

    /** The later non-NULL column of the pair's rows wins. */
    method GetUserState(anime: int, user: int) returns (state: UserState)
      ensures state == StateOf(text, Overlay(rows, anime, user))
    {
      var tag: Option<string>, liked: Option<int>, auto: Option<int> := None, None, None;
      assert rows[..0] == [];
      for i := 0 to |rows|
        invariant Row(anime, user, tag, liked, auto) == Overlay(rows[..i], anime, user)
      {
        assert rows[..i + 1][..i] == rows[..i];
        if Matches(rows[i], anime, user) {
          if rows[i].tag.Some? { tag := rows[i].tag; }
          if rows[i].liked.Some? { liked := rows[i].liked; }
          if rows[i].auto.Some? { auto := rows[i].auto; }
        }
      }
      assert rows[..|rows|] == rows;
      var tagValue := if tag.Some? && tag.value != "" then tag.value else NONE;
      var autoEnabled := if auto.None? then text.upper(tagValue) == WATCHING else auto.value != 0;
      state := UserState(tagValue, liked.Some? && liked.value != 0, autoEnabled);
    }

    method ListAutoDownloadEligible(user: int) returns (out: seq<int>)
      ensures Lists(text, rows, user, out)
    {
      out := [];
      for i := 0 to |rows|
        invariant forall x, y :: 0 <= x < y < |out| ==> out[x] != out[y]
        invariant forall a :: a in out <==> exists k :: 0 <= k < i && rows[k].anime == a && Eligible(text, rows[k], user)
      {
        if rows[i].user == user && rows[i].tag.Some? && text.upper(rows[i].tag.value) == WATCHING {
          if rows[i].auto.Some? && rows[i].auto.value == 0 {
            continue;
          }
          if rows[i].anime !in out {
            out := out + [rows[i].anime];
          }
        }
      }
    }
  }
}
