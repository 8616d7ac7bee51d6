/**
 * The statistics panel of the browser script, as specifications: the day streak,
 * the mood histogram and the top mood. The methods of `DearDiaryApp` compute
 * them with loops and are proved equal to these functions.
 */
module Analytics {
  import opened Wrappers
  import opened ClientModel

  // ----- calculateStreak -----

  /** The entries' days, one per entry, duplicates included. */
  function EntryDates(entries: seq<ClientEntry>): (dates: seq<int>)
    ensures |dates| == |entries|
    ensures forall i :: 0 <= i < |entries| ==> dates[i] == entries[i].date
  {
    seq(|entries|, i requires 0 <= i < |entries| => entries[i].date)
  }

  /** The set of days that have at least one entry. */
  function DaySet(dates: seq<int>): set<int> {
    set d | d in dates
  }

  predicate StrictlyDescending(s: seq<int>) {
    forall i, j :: 0 <= i < j < |s| ==> s[i] > s[j]
  }

  /** Put `d` into a strictly descending list of days, unless it is already there. */
  function InsertDay(s: seq<int>, d: int): (r: seq<int>)
    requires StrictlyDescending(s)
    ensures StrictlyDescending(r)
    ensures forall x :: x in r <==> x in s || x == d
  {
    if s == [] then [d]
    else if d == s[0] then s
    else if d > s[0] then [d] + s
    else
      var rest := InsertDay(s[1..], d);
      assert s == [s[0]] + s[1..];
      var r := [s[0]] + rest;
      assert forall j :: 0 < j < |r| ==> r[j] == rest[j - 1] && r[j] in rest;
      r
  }

  /** `[...new Set(dates)].sort().reverse()`: each day once, latest first. */
  function DistinctDays(dates: seq<int>): (r: seq<int>)
    ensures StrictlyDescending(r)
    ensures forall x :: x in r <==> x in dates
  {
    if dates == [] then []
    else
      var init := dates[..|dates| - 1];
      assert dates == init + [dates[|dates| - 1]];
      InsertDay(DistinctDays(init), dates[|dates| - 1])
  }

  /** How many leading days of `days` are `expected`, `expected - 1`, `expected - 2`, ... */
  function RunFrom(days: seq<int>, expected: int): (k: nat)
    ensures k <= |days|
    ensures forall i :: 0 <= i < k ==> days[i] == expected - i
    ensures k < |days| ==> days[k] != expected - k
  {
    if days == [] || days[0] != expected then 0 else 1 + RunFrom(days[1..], expected - 1)
  }

  /** What `calculateStreak` returns on day `today` for entries dated `dates`. */
  function StreakOf(dates: seq<int>, today: int): nat {
    if |dates| == 0 then 0 else RunFrom(DistinctDays(dates), today)
  }

  /**
   * Independent description of the streak over the set of entry days: 0 when
   * some day lies after today; otherwise `k` such that every day from
   * today-(k-1) to today has an entry and today-k has none.
   */
  ghost predicate IsStreak(days: set<int>, today: int, k: nat) {
    if exists d :: d in days && d > today then k == 0
    else (forall d :: today - k < d <= today ==> d in days) && today - k !in days
  }

  /** The run counted from `today` along a strictly descending list covers exactly the days up to its first gap. */
  lemma RunCoversUpToGap(s: seq<int>, today: int)
    requires StrictlyDescending(s)
    requires forall j :: 0 <= j < |s| ==> s[j] <= today
    ensures var k := RunFrom(s, today);
      && (forall d :: today - k < d <= today ==> d in s)
      && today - k !in s
  {
    var k := RunFrom(s, today);
    forall d | today - k < d <= today ensures d in s {
      assert s[today - d] == d;
    }
    forall j | 0 <= j < |s| ensures s[j] != today - k {
      if j > k {
        assert s[k] < today - k by {
          if k > 0 {
            assert s[k - 1] == today - (k - 1);
          }
        }
      }
    }
  }

  /** The loop's answer meets the description. */
  lemma StreakMeetsDescription(dates: seq<int>, today: int)
    ensures IsStreak(DaySet(dates), today, StreakOf(dates, today))
  {
    var days := DaySet(dates);
    if dates == [] {
      assert days == {};
    } else {
      var s := DistinctDays(dates);
      assert forall d :: d in days <==> d in s;
      assert s[0] in s;
      assert forall j :: 0 <= j < |s| ==> s[j] <= s[0];
      if !(exists d :: d in days && d > today) {
        assert forall j :: 0 <= j < |s| ==> s[j] <= today by {
          forall j | 0 <= j < |s| ensures s[j] <= today {
            assert s[j] in days;
          }
        }
        RunCoversUpToGap(s, today);
      }
    }
  }

  /** The description fixes the streak: two answers that both meet it agree. */
  lemma StreakDescriptionUnique(days: set<int>, today: int, k1: nat, k2: nat)
    requires IsStreak(days, today, k1) && IsStreak(days, today, k2)
    ensures k1 == k2
  {
  }

  /** The streak is `k` exactly when `k` meets the description. */
  lemma StreakCharacterization(dates: seq<int>, today: int, k: nat)
    ensures StreakOf(dates, today) == k <==> IsStreak(DaySet(dates), today, k)
  {
    StreakMeetsDescription(dates, today);
    if IsStreak(DaySet(dates), today, k) {
      StreakDescriptionUnique(DaySet(dates), today, k, StreakOf(dates, today));
    }
  }

  /** No entries, no streak. */
  lemma StreakOfNothing(today: int)
    ensures StreakOf([], today) == 0
  {
  }

  /** An entry dated after today, or no entry today, makes the streak 0. */
  lemma {:induction false} StreakBrokenByFutureOrMissingToday(dates: seq<int>, today: int)
    requires (exists d :: d in dates && d > today) || today !in dates
    ensures StreakOf(dates, today) == 0
  {
    StreakMeetsDescription(dates, today);
    var days := DaySet(dates);
    if exists d :: d in dates && d > today {
      var d :| d in dates && d > today;
      assert d in days;
    } else {
      assert today !in days;
    }
  }

  /** Several entries on one day count once: adding an entry on a day that already has one changes nothing. */
  lemma SameDayCountsOnce(dates: seq<int>, today: int, d: int)
    requires d in dates
    ensures StreakOf(dates + [d], today) == StreakOf(dates, today)
  {
    var days := DaySet(dates);
    assert DaySet(dates + [d]) == days;
    StreakMeetsDescription(dates, today);
    StreakMeetsDescription(dates + [d], today);
    StreakDescriptionUnique(days, today, StreakOf(dates + [d], today), StreakOf(dates, today));
  }

  /** The streak never exceeds the number of distinct days. */
  lemma StreakAtMostDistinctDays(dates: seq<int>, today: int)
    ensures StreakOf(dates, today) <= |DaySet(dates)|
  {
    if dates != [] {
      var s := DistinctDays(dates);
      DistinctCount(s);
      assert DaySet(s) == DaySet(dates);
    }
  }

  /** A list without repeats has as many distinct elements as it is long. */
  lemma {:induction false} DistinctCount(s: seq<int>)
    requires StrictlyDescending(s)
    ensures |DaySet(s)| == |s|
  {
    if s != [] {
      DistinctCount(s[1..]);
      assert DaySet(s) == {s[0]} + DaySet(s[1..]);
      assert s[0] !in DaySet(s[1..]);
    }
  }

  // ----- getMoodDistribution -----

  /** One key of the mood histogram and its count. */
  datatype MoodCount = MoodCount(mood: string, count: nat)

  /** `entry.mood || 'neutral'`: the key an entry is counted under. */
  function MoodKey(mood: Option<string>): (k: string)
    ensures k != ""
    ensures mood.None? || mood == Some("") ==> k == "neutral"
    ensures mood.Some? && mood.value != "" ==> k == mood.value
  {
    if mood.Some? && mood.value != "" then mood.value else "neutral"
  }

  /** Count under `key`, which is 0 when the histogram has no such key. */
  function CountOf(d: seq<MoodCount>, key: string): nat {
    if d == [] then 0 else (if d[0].mood == key then d[0].count else 0) + CountOf(d[1..], key)
  }

  /** All counts added up. */
  function Total(d: seq<MoodCount>): nat {
    if d == [] then 0 else d[0].count + Total(d[1..])
  }

  predicate DistinctKeys(d: seq<MoodCount>) {
    forall i, j :: 0 <= i < j < |d| ==> d[i].mood != d[j].mood
  }

  /**
   * `moodCounts[key] = (moodCounts[key] || 0) + 1`: an existing key is
   * incremented in place; a new key is added last with count 1.
   */
  function Tally(d: seq<MoodCount>, key: string): (r: seq<MoodCount>)
    ensures |r| == |d| || |r| == |d| + 1
    ensures forall i :: 0 <= i < |d| ==> r[i].mood == d[i].mood
    ensures |r| == |d| + 1 ==> r[|d|] == MoodCount(key, 1) && forall i :: 0 <= i < |d| ==> d[i].mood != key
  {
    if d == [] then [MoodCount(key, 1)]
    else if d[0].mood == key then [MoodCount(key, d[0].count + 1)] + d[1..]
    else [d[0]] + Tally(d[1..], key)
  }

  /** Tallying `key` adds one to its count and leaves every other count alone. */
  lemma {:induction false} TallyCounts(d: seq<MoodCount>, key: string, k: string)
    ensures CountOf(Tally(d, key), k) == CountOf(d, k) + (if k == key then 1 else 0)
  {
    if d != [] {
      var r := Tally(d, key);
      if d[0].mood == key {
        assert r[1..] == d[1..];
      } else {
        TallyCounts(d[1..], key, k);
        assert r[1..] == Tally(d[1..], key);
      }
    }
  }

  /** Tallying adds exactly one to the total. */
  lemma {:induction false} TallyTotal(d: seq<MoodCount>, key: string)
    ensures Total(Tally(d, key)) == Total(d) + 1
  {
    if d != [] {
      var r := Tally(d, key);
      if d[0].mood == key {
        assert r[1..] == d[1..];
      } else {
        TallyTotal(d[1..], key);
        assert r[1..] == Tally(d[1..], key);
      }
    }
  }

  /** Tallying keeps keys distinct and counts positive. */
  lemma TallyShape(d: seq<MoodCount>, key: string)
    requires DistinctKeys(d) && forall i :: 0 <= i < |d| ==> d[i].count > 0
    ensures DistinctKeys(Tally(d, key)) && forall i :: 0 <= i < |Tally(d, key)| ==> Tally(d, key)[i].count > 0
  {
    var r := Tally(d, key);
    if d != [] && d[0].mood != key {
      TallyShape(d[1..], key);
      assert r[1..] == Tally(d[1..], key);
    }
  }

  /** `getMoodDistribution`: the histogram after tallying every entry in order. */
  function Distribution(entries: seq<ClientEntry>): seq<MoodCount> {
    if entries == [] then []
    else Tally(Distribution(entries[..|entries| - 1]), MoodKey(entries[|entries| - 1].mood))
  }

  /** The number of entries counted under `key`. */
  function Occurrences(entries: seq<ClientEntry>, key: string): nat {
    if entries == [] then 0
    else Occurrences(entries[..|entries| - 1], key) + (if MoodKey(entries[|entries| - 1].mood) == key then 1 else 0)
  }

  /** Each key's count is the number of entries with that mood; entries without a mood count as neutral. */
  lemma {:induction false} DistributionCounts(entries: seq<ClientEntry>, key: string)
    ensures CountOf(Distribution(entries), key) == Occurrences(entries, key)
  {
    if entries != [] {
      var init := entries[..|entries| - 1];
      DistributionCounts(init, key);
      TallyCounts(Distribution(init), MoodKey(entries[|entries| - 1].mood), key);
    }
  }

  /** The counts add up to the number of entries. */
  lemma {:induction false} DistributionTotal(entries: seq<ClientEntry>)
    ensures Total(Distribution(entries)) == |entries|
  {
    if entries != [] {
      var init := entries[..|entries| - 1];
      DistributionTotal(init);
      TallyTotal(Distribution(init), MoodKey(entries[|entries| - 1].mood));
    }
  }

  /** Keys are distinct, every count is positive, and the histogram is empty exactly when there are no entries. */
  lemma {:induction false} DistributionShape(entries: seq<ClientEntry>)
    ensures DistinctKeys(Distribution(entries))
    ensures forall i :: 0 <= i < |Distribution(entries)| ==> Distribution(entries)[i].count > 0
    ensures Distribution(entries) == [] <==> entries == []
  {
    if entries != [] {
      var init := entries[..|entries| - 1];
      DistributionShape(init);
      TallyShape(Distribution(init), MoodKey(entries[|entries| - 1].mood));
    }
  }

  // ----- getTopMood -----

  /**
   * The index `reduce((a, b) => a[1] > b[1] ? a : b)` ends on: a largest count,
   * and the last such one, since a tie hands the win to the later key.
   */
  function BestIndex(d: seq<MoodCount>): (i: nat)
    requires |d| > 0
    ensures i < |d|
    ensures forall j :: 0 <= j < |d| ==> d[j].count <= d[i].count
    ensures forall j :: i < j < |d| ==> d[j].count < d[i].count
  {
    if |d| == 1 then 0
    else
      var b := BestIndex(d[..|d| - 1]);
      if d[b].count > d[|d| - 1].count then b else |d| - 1
  }

  /** What `getTopMood` returns: an emoji and a count. */
  datatype TopMood = TopMood(emoji: string, count: nat)

  /** The top mood of a histogram, or the default emoji with count 0 when it has no keys. */
  function TopMoodOf(d: seq<MoodCount>): TopMood {
    if |d| == 0 then TopMood(DefaultEmoji, 0)
    else
      var i := BestIndex(d);
      TopMood(MoodEmoji(Some(d[i].mood)), d[i].count)
  }

  /**
   * Over the entries' histogram: no entries gives the default emoji and 0;
   * otherwise the count is the largest number of entries sharing a mood.
   */
  lemma TopMoodOfEntries(entries: seq<ClientEntry>)
    ensures entries == [] ==> TopMoodOf(Distribution(entries)) == TopMood(DefaultEmoji, 0)
    ensures entries != [] ==>
              && TopMoodOf(Distribution(entries)).count > 0
              && forall k :: Occurrences(entries, k) <= TopMoodOf(Distribution(entries)).count
  {
    DistributionShape(entries);
    if entries != [] {
      var d := Distribution(entries);
      var i := BestIndex(d);
      forall k ensures Occurrences(entries, k) <= d[i].count {
        DistributionCounts(entries, k);
        CountOfBound(d, k, d[i].count);
      }
    }
  }

  /**
   * The emoji `getTopMood` shows is that of a mood reaching the top count, and
   * of the last such mood in first-seen order.
   */
  lemma TopMoodEmojiOfEntries(entries: seq<ClientEntry>)
    requires entries != []
    ensures var d := Distribution(entries);
            var top := TopMoodOf(d);
            exists i :: 0 <= i < |d| && top.emoji == MoodEmoji(Some(d[i].mood))
                          && top.count == Occurrences(entries, d[i].mood)
                          && forall j :: i < j < |d| ==> Occurrences(entries, d[j].mood) < top.count
  {
    DistributionShape(entries);
    var d := Distribution(entries);
    var i := BestIndex(d);
    forall j | 0 <= j < |d| ensures Occurrences(entries, d[j].mood) == d[j].count {
      DistributionCounts(entries, d[j].mood);
      CountOfDistinct(d, j);
    }
    assert 0 <= i < |d| && TopMoodOf(d).emoji == MoodEmoji(Some(d[i].mood));
  }

  /** With distinct keys, a key's count is at most any bound on the individual counts. */
  lemma {:induction false} CountOfBound(d: seq<MoodCount>, key: string, bound: nat)
    requires DistinctKeys(d)
    requires forall j :: 0 <= j < |d| ==> d[j].count <= bound
    ensures CountOf(d, key) <= bound
  {
    if d != [] {
      CountOfBound(d[1..], key, bound);
      if d[0].mood == key {
        CountOfMissing(d[1..], key);
      }
    }
  }

  /** A key absent from the histogram has count 0. */
  lemma {:induction false} CountOfMissing(d: seq<MoodCount>, key: string)
    requires forall j :: 0 <= j < |d| ==> d[j].mood != key
    ensures CountOf(d, key) == 0
  {
    if d != [] {
      CountOfMissing(d[1..], key);
    }
  }

  /** With distinct keys, the count under the key at position `j` is that position's count. */
  lemma {:induction false} CountOfDistinct(d: seq<MoodCount>, j: nat)
    requires DistinctKeys(d) && j < |d|
    ensures CountOf(d, d[j].mood) == d[j].count
  {
    if j == 0 {
      CountOfMissing(d[1..], d[0].mood);
    } else {
      CountOfDistinct(d[1..], j - 1);
    }
  }
}
