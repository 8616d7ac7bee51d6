/**
 * The diary-entry controller: create, update, delete and list rows of the
 * `diary_entries` table, each scoped to the signed-in user, and the mood-colour
 * lookup used when the emotion service labels an entry.
 */
module DiaryController {
  import opened Wrappers
  import opened Text
  import opened Seqs

  const NeutralMood := "neutral"
  const NeutralColor := "#808080"

  /** The colour of each mood the emotion service may report. */
  const MoodColors: map<string, string> := map[
    "happy" := "#FFD700",
    "sad" := "#4169E1",
    "angry" := "#DC143C",
    "anxious" := "#9370DB",
    "calm" := "#87CEEB",
    "excited" := "#FF8C00",
    "neutral" := NeutralColor]

  /** `getMoodColor`: a case-insensitive lookup with grey for anything unknown. */
  function MoodColor(mood: string): (c: string)
    ensures c in MoodColors.Values
    ensures Lower(mood) in MoodColors ==> c == MoodColors[Lower(mood)]
    ensures Lower(mood) !in MoodColors ==> c == NeutralColor
  {
    assert MoodColors[NeutralMood] == NeutralColor;
    var key := Lower(mood);
    if key in MoodColors then MoodColors[key] else NeutralColor
  }

  /** Only the letter case of the mood matters: the colour of a mood and of its lower-case form agree. */
  lemma MoodColorCaseInsensitive(mood: string)
    ensures MoodColor(Lower(mood)) == MoodColor(mood)
  {
    LowerIdempotent(mood);
  }

  /** "neutral" is grey. */
  lemma NeutralIsGrey()
    ensures MoodColor(NeutralMood) == NeutralColor
  {
    assert Lower(NeutralMood) == NeutralMood by {
      forall i | 0 <= i < |NeutralMood| ensures LowerChar(NeutralMood[i]) == NeutralMood[i] { }
    }
  }

  /** Grey is the answer exactly for "neutral" (in any case) and for the unknown moods. */
  lemma MoodColorGreyIff(mood: string)
    ensures MoodColor(mood) == NeutralColor <==>
              Lower(mood) !in {"happy", "sad", "angry", "anxious", "calm", "excited"}
  {
  }

  /** One row of `diary_entries`. Days and timestamps are plain integers. */
  datatype Entry = Entry(
    id: nat,
    userId: nat,
    title: Option<string>,
    content: Option<string>,
    mood: string,
    moodColor: string,
    entryDate: int,
    createdAt: int,
    updatedAt: int)

  /** What the emotion service returned: the call failed, or it answered with `data.mood`. */
  datatype Analysis = ServiceFailed | Answered(mood: Option<string>)

  /** The four values bound to `$1`..`$4` of the UPDATE; None stands for SQL NULL. */
  datatype Changes = Changes(title: Option<string>, content: Option<string>, mood: Option<string>, moodColor: Option<string>)

  /** What `updateEntry` answers: 404 "Entry not found", or 200 with the updated row. */
  datatype UpdateResult = NotFound | Updated(entry: Entry)

  function UpdateStatus(r: UpdateResult): (status: int)
    ensures status == 404 <==> r.NotFound?
    ensures status == 200 <==> r.Updated?
  {
    if r.NotFound? then 404 else 200
  }

  /** The `WHERE id = $id AND user_id = $userId` that scopes update, delete and the single-entry read. */
  predicate Targets(e: Entry, id: nat, userId: nat) {
    e.id == id && e.userId == userId
  }

  /** `COALESCE(new, old)`. */
  function Coalesce<T>(supplied: Option<T>, stored: T): (r: T)
    ensures supplied.Some? ==> r == supplied.value
    ensures supplied.None? ==> r == stored
  {
    if supplied.Some? then supplied.value else stored
  }

  /** The `SET` list of the UPDATE applied to one row. */
  function Patch(e: Entry, c: Changes, now: int): (p: Entry)
    ensures p.id == e.id && p.userId == e.userId && p.entryDate == e.entryDate && p.createdAt == e.createdAt
    ensures p.updatedAt == now
    ensures p.title == (if c.title.Some? then c.title else e.title)
    ensures p.content == (if c.content.Some? then c.content else e.content)
    ensures p.mood == Coalesce(c.mood, e.mood) && p.moodColor == Coalesce(c.moodColor, e.moodColor)
  {
    e.(title := if c.title.Some? then c.title else e.title,
       content := if c.content.Some? then c.content else e.content,
       mood := Coalesce(c.mood, e.mood),
       moodColor := Coalesce(c.moodColor, e.moodColor),
       updatedAt := now)
  }

  /** The table after the UPDATE: every targeted row patched, every other row as it was. */
  function UpdateRows(rows: seq<Entry>, id: nat, userId: nat, c: Changes, now: int): (r: seq<Entry>)
    ensures |r| == |rows|
    ensures forall k :: 0 <= k < |rows| ==>
              r[k] == if Targets(rows[k], id, userId) then Patch(rows[k], c, now) else rows[k]
  {
    if rows == [] then []
    else
      [if Targets(rows[0], id, userId) then Patch(rows[0], c, now) else rows[0]]
      + UpdateRows(rows[1..], id, userId, c, now)
  }

  /** The table after the DELETE: the targeted rows removed, the rest kept in order. */
  function DeleteRows(rows: seq<Entry>, id: nat, userId: nat): (r: seq<Entry>)
    ensures forall e :: e in r <==> e in rows && !Targets(e, id, userId)
  {
    Filter((e: Entry) => !Targets(e, id, userId), rows)
  }

  /** The rows owned by `userId`, in table order. */
  function Owned(rows: seq<Entry>, userId: nat): (r: seq<Entry>)
    ensures forall e :: e in r <==> e in rows && e.userId == userId
  {
    Filter((e: Entry) => e.userId == userId, rows)
  }

  /** The rows with this id and owner: what `getEntry` selects. */
  function Matching(rows: seq<Entry>, id: nat, userId: nat): (r: seq<Entry>)
    ensures forall e :: e in r <==> e in rows && Targets(e, id, userId)
    ensures DistinctIds(rows) ==> |r| <= 1
  {
    if rows == [] then []
    else
      var rest := Matching(rows[1..], id, userId);
      if Targets(rows[0], id, userId) then
        assert DistinctIds(rows) ==> rest == [] by {
          assert rest != [] ==> rest[0] in rest;
        }
        [rows[0]] + rest
      else rest
  }

  /** Latest `entry_date` first. */
  ghost predicate DateDescending(s: seq<Entry>) {
    forall i, j :: 0 <= i < j < |s| ==> s[i].entryDate >= s[j].entryDate
  }

  /** Put `e` into a date-descending list, before the first row that is not later than it. */
  function InsertByDate(e: Entry, s: seq<Entry>): (r: seq<Entry>)
    requires DateDescending(s)
    ensures DateDescending(r)
    ensures |r| == |s| + 1 && (r[0] == e || (s != [] && r[0] == s[0]))
  {
    if s == [] then [e]
    else if e.entryDate >= s[0].entryDate then [e] + s
    else
      var rest := InsertByDate(e, s[1..]);
      assert rest[0].entryDate <= s[0].entryDate;
      var r := [s[0]] + rest;
      assert forall j :: 0 < j < |r| ==> r[j] == rest[j - 1] && r[j].entryDate <= rest[0].entryDate;
      r
  }

  /** Inserting adds `e` and loses nothing. */
  lemma {:induction false} InsertByDateMultiset(e: Entry, s: seq<Entry>)
    requires DateDescending(s)
    ensures multiset(InsertByDate(e, s)) == multiset(s) + multiset{e}
  {
    if s != [] && e.entryDate < s[0].entryDate {
      InsertByDateMultiset(e, s[1..]);
      assert s == [s[0]] + s[1..];
    }
  }

  /**
   * `ORDER BY entry_date DESC`. PostgreSQL leaves the order of rows with equal
   * dates unspecified; this picks one of the allowed orders.
   */
  function SortByDate(s: seq<Entry>): (r: seq<Entry>)
    ensures DateDescending(r)
    ensures multiset(r) == multiset(s)
  {
    if s == [] then []
    else
      var sorted := SortByDate(s[1..]);
      InsertByDateMultiset(s[0], sorted);
      assert s == [s[0]] + s[1..];
      InsertByDate(s[0], sorted)
  }

  /** Index of the row the UPDATE targets, if there is one. */
  function FindTarget(rows: seq<Entry>, id: nat, userId: nat): (k: Option<nat>)
    ensures k.Some? ==> k.value < |rows| && Targets(rows[k.value], id, userId)
    ensures k.None? ==> forall i :: 0 <= i < |rows| ==> !Targets(rows[i], id, userId)
  {
    if rows == [] then None
    else if Targets(rows[0], id, userId) then Some(0)
    else match FindTarget(rows[1..], id, userId)
      case None => None
      case Some(k) => Some(k + 1)
  }

  /**
   * `after` is `before` as `updateEntry` leaves it: supplied title and content
   * replace the stored ones, a mood and colour are recomputed only when
   * non-empty content came with an answer from the emotion service,
   * `updated_at` is `now`, and id, owner, entry date and creation time stay.
   */
  ghost predicate MergedRow(before: Entry, after: Entry, title: Option<string>, content: Option<string>,
                            analysis: Analysis, now: int)
  {
    && after.id == before.id && after.userId == before.userId
    && after.entryDate == before.entryDate && after.createdAt == before.createdAt
    && after.updatedAt == now
    && after.title == (if title.Some? then title else before.title)
    && after.content == (if content.Some? then content else before.content)
    && if Truthy(content) && analysis.Answered? then
         && after.mood == (if Truthy(analysis.mood) then analysis.mood.value else NeutralMood)
         && after.moodColor == MoodColor(after.mood)
       else
         after.mood == before.mood && after.moodColor == before.moodColor
  }

  /** The `diary_entries` table, with the next value of its `id` sequence. */
  class EntryTable {
    var rows: seq<Entry>
    var nextId: nat

    /** Ids are primary keys: distinct, and all below the next value of the sequence. */
    ghost predicate Valid()
      reads this
    {
      && (forall i :: 0 <= i < |rows| ==> rows[i].id < nextId)
      && (forall i, j :: 0 <= i < j < |rows| ==> rows[i].id != rows[j].id)
    }

    constructor ()
      ensures Valid() && rows == [] && nextId == 1
    {
      rows := [];
      nextId := 1;
    }

    /**
     * `createEntry`: label the content with the emotion service (grey "neutral"
     * when the call fails or gives no mood) and insert one row owned by the
     * caller, stamped `now` for both timestamps.
     */
    method CreateEntry(userId: nat, title: Option<string>, content: Option<string>, entryDate: int,
                       analysis: Analysis, now: int) returns (created: Entry)
      requires Valid()
      modifies this
      ensures Valid()
      ensures rows == old(rows) + [created] && nextId == old(nextId) + 1
      ensures created.id == old(nextId) && forall e :: e in old(rows) ==> e.id != created.id
      ensures created.userId == userId && created.title == title && created.content == content
      ensures created.entryDate == entryDate && created.createdAt == now && created.updatedAt == now
      ensures analysis.ServiceFailed? || !Truthy(analysis.mood) ==>
                created.mood == NeutralMood && created.moodColor == NeutralColor
      ensures analysis.Answered? && Truthy(analysis.mood) ==>
                created.mood == analysis.mood.value && created.moodColor == MoodColor(analysis.mood.value)
    {
      var mood := NeutralMood;
      var moodColor := NeutralColor;
      match analysis {
        case Answered(reported) =>
          mood := if Truthy(reported) then reported.value else NeutralMood;
          moodColor := MoodColor(mood);
        case ServiceFailed =>
      }
      NeutralIsGrey();
      created := Entry(nextId, userId, title, content, mood, moodColor, entryDate, now, now);
      rows := rows + [created];
      nextId := nextId + 1;
    }

    /**
     * `updateEntry`: a new mood is asked for only when non-empty content is
     * supplied; then one UPDATE merges the supplied fields into the caller's row
     * with COALESCE and always bumps `updated_at`.
     */
    method UpdateEntry(id: nat, userId: nat, title: Option<string>, content: Option<string>,
                       analysis: Analysis, now: int) returns (result: UpdateResult)
      requires Valid()
      modifies this
      ensures Valid() && nextId == old(nextId)
      ensures result.NotFound? <==> forall e :: e in old(rows) ==> !Targets(e, id, userId)
      ensures UpdateStatus(result) == 404 <==> forall e :: e in old(rows) ==> !Targets(e, id, userId)
      ensures result.NotFound? ==> rows == old(rows)
      ensures |rows| == |old(rows)|
      ensures forall k :: 0 <= k < |rows| && !Targets(old(rows)[k], id, userId) ==> rows[k] == old(rows)[k]
      ensures result.Updated? ==>
                exists k :: 0 <= k < |rows| && Targets(old(rows)[k], id, userId) && rows[k] == result.entry
                            && MergedRow(old(rows)[k], result.entry, title, content, analysis, now)
    {
      var mood: Option<string> := None;
      var moodColor: Option<string> := None;
      if Truthy(content) {
        match analysis {
          case Answered(reported) =>
            var m := if Truthy(reported) then reported.value else NeutralMood;
            mood := Some(m);
            moodColor := Some(MoodColor(m));
          case ServiceFailed =>
        }
      }
      var target := FindTarget(rows, id, userId);
      var changes := Changes(title, content, mood, moodColor);
      ghost var before := rows;
      rows := UpdateRows(rows, id, userId, changes, now);
      match target {
        case None =>
          assert forall e :: e in before ==> !Targets(e, id, userId);
          assert rows == before;
          result := NotFound;
        case Some(k) =>
          result := Updated(rows[k]);
      }
    }

    /** `deleteEntry`: remove the caller's row with this id; other rows, other users' included, stay. */
    method DeleteEntry(id: nat, userId: nat)
      requires Valid()
      modifies this
      ensures Valid() && nextId == old(nextId)
      ensures rows == DeleteRows(old(rows), id, userId)
    {
      rows := DeleteRows(rows, id, userId);
      DeleteKeepsIdsDistinct(old(rows), id, userId, nextId);
    }

    /** `getAllEntries`: the caller's rows, latest entry date first, and how many there are. */
    method GetAllEntries(userId: nat) returns (count: nat, data: seq<Entry>)
      ensures count == |data|
      ensures forall e :: e in data <==> e in rows && e.userId == userId
      ensures multiset(data) == multiset(Owned(rows, userId))
      ensures DateDescending(data)
    {
      var mine := Owned(rows, userId);
      data := SortByDate(mine);
      count := |data|;
      forall e ensures e in data <==> e in mine {
        assert e in data <==> e in multiset(data);
        assert e in mine <==> e in multiset(mine);
      }
    }

    /** `getEntry`: the caller's row with this id, as a list of zero or one rows. */
    method GetEntry(userId: nat, id: nat) returns (count: nat, data: seq<Entry>)
      requires Valid()
      ensures count == |data| && count <= 1
      ensures forall e :: e in data <==> e in rows && Targets(e, id, userId)
    {
      data := Matching(rows, id, userId);
      count := |data|;
    }
  }

  /** Ids are pairwise distinct. */
  ghost predicate DistinctIds(rows: seq<Entry>) {
    forall i, j :: 0 <= i < j < |rows| ==> rows[i].id != rows[j].id
  }

  /** Filtering keeps ids pairwise distinct. */
  lemma {:induction false} FilterKeepsDistinctIds(p: Entry -> bool, rows: seq<Entry>)
    requires DistinctIds(rows)
    ensures DistinctIds(Filter(p, rows))
  {
    if rows != [] {
      FilterKeepsDistinctIds(p, rows[1..]);
      var rest := Filter(p, rows[1..]);
      if p(rows[0]) {
        forall x | x in rest ensures x.id != rows[0].id {
          var k :| 0 <= k < |rows[1..]| && rows[1..][k] == x;
          assert rows[k + 1] == x;
        }
        assert Filter(p, rows) == [rows[0]] + rest;
      }
    }
  }

  /** Deleting rows keeps the primary-key invariant. */
  lemma DeleteKeepsIdsDistinct(rows: seq<Entry>, id: nat, userId: nat, nextId: nat)
    requires forall i :: 0 <= i < |rows| ==> rows[i].id < nextId
    requires DistinctIds(rows)
    ensures var r := DeleteRows(rows, id, userId);
      && (forall i :: 0 <= i < |r| ==> r[i].id < nextId)
      && DistinctIds(r)
  {
    var r := DeleteRows(rows, id, userId);
    FilterKeepsDistinctIds((e: Entry) => !Targets(e, id, userId), rows);
    forall i | 0 <= i < |r| ensures r[i].id < nextId {
      assert r[i] in rows;
    }
  }

  /** A created row is listed last among its owner's rows and in nobody else's. */
  lemma CreateListing(rows: seq<Entry>, created: Entry, u: nat)
    ensures Owned(rows + [created], u) == Owned(rows, u) + (if created.userId == u then [created] else [])
  {
    FilterAppend((e: Entry) => e.userId == u, rows, [created]);
  }

  /** Deleting one user's row leaves every other user's rows exactly as they were. */
  lemma DeleteLeavesOtherUsers(rows: seq<Entry>, id: nat, userId: nat, u: nat)
    requires u != userId
    ensures Owned(DeleteRows(rows, id, userId), u) == Owned(rows, u)
  {
    FilterFilter((e: Entry) => e.userId == u, (e: Entry) => !Targets(e, id, userId), rows);
  }

  /** After a delete nothing matches the id and user any more; a second delete changes nothing. */
  lemma DeleteIsIdempotent(rows: seq<Entry>, id: nat, userId: nat)
    ensures FindTarget(DeleteRows(rows, id, userId), id, userId).None?
    ensures DeleteRows(DeleteRows(rows, id, userId), id, userId) == DeleteRows(rows, id, userId)
  {
    var p := (e: Entry) => !Targets(e, id, userId);
    FilterAll(p, Filter(p, rows));
  }

  /** Updating one user's row leaves every other user's rows exactly as they were. */
  lemma {:induction false} UpdateLeavesOtherUsers(rows: seq<Entry>, id: nat, userId: nat, c: Changes, now: int, u: nat)
    requires u != userId
    ensures Owned(UpdateRows(rows, id, userId, c, now), u) == Owned(rows, u)
  {
    if rows != [] {
      UpdateLeavesOtherUsers(rows[1..], id, userId, c, now, u);
      var r := UpdateRows(rows, id, userId, c, now);
      assert r[1..] == UpdateRows(rows[1..], id, userId, c, now);
      assert r[0].userId == u <==> rows[0].userId == u;
      if rows[0].userId == u {
        assert r[0] == rows[0];
      }
    }
  }

  /** An update that targets no row leaves the table as it was. */
  lemma UpdateWithoutTarget(rows: seq<Entry>, id: nat, userId: nat, c: Changes, now: int)
    requires forall e :: e in rows ==> !Targets(e, id, userId)
    ensures UpdateRows(rows, id, userId, c, now) == rows
  {
  }
}
