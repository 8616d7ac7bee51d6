/**
 * The browser-side `DearDiaryApp` object: the entries it loaded, the mood
 * currently selected in the form, and the operations that read or change them.
 */
module DiaryApp {
  import opened Wrappers
  import opened Text
  import opened Seqs
  import opened ClientModel
  import opened Analytics

  /** The outcome of `GET /api/entries` as `loadEntries` sees it. */
  datatype LoadResponse = Loaded(data: Option<seq<ClientEntry>>) | Unauthorized | LoadFailed

  /** The message `detectAndSetEmotion` ends with. */
  datatype DetectOutcome = NeedsText | TooShortToDetect | Detected(prediction: string) | NotDetected

  /** The JSON body `saveEntry` posts. */
  datatype SaveRequest = SaveRequest(title: string, content: string, entryDate: string, mood: string, moodName: string)

  const DefaultTitle := "My Entry"

  class DearDiaryApp {
    var entries: seq<ClientEntry>
    var currentMood: string
    var currentMoodName: string

    /** A fresh page: no entries, the Happy mood selected. */
    constructor ()
      ensures entries == [] && currentMood == DefaultEmoji && currentMoodName == "Happy"
    {
      entries := [];
      currentMood := DefaultEmoji;
      currentMoodName := "Happy";
    }

    /** `loadEntries`: a successful response replaces the entries (`result.data || []`); a failed one keeps them. */
    method LoadEntries(response: LoadResponse)
      modifies this
      ensures response.Loaded? ==> entries == response.data.GetOr([])
      ensures !response.Loaded? ==> entries == old(entries)
      ensures currentMood == old(currentMood) && currentMoodName == old(currentMoodName)
    {
      match response {
        case Loaded(data) => entries := data.GetOr([]);
        case Unauthorized =>
        case LoadFailed =>
      }
    }

    /** `handleMoodSelection`: the clicked button's emoji and name become the current mood. */
    method HandleMoodSelection(option: MoodOption)
      modifies this
      ensures currentMood == option.mood && currentMoodName == option.name
      ensures entries == old(entries)
    {
      currentMood := option.mood;
      currentMoodName := option.name;
    }

    /**
     * `detectAndSetEmotion`: for content of at least 10 characters after
     * trimming, map the predicted emotion to a mood name and click every
     * button with that name, so the last such button decides the current mood.
     * `prediction` is the service's answer; None when the call failed or named
     * no emotion.
     */
    method DetectAndSetEmotion(text: string, prediction: Option<string>, options: seq<MoodOption>)
      returns (outcome: DetectOutcome)
      modifies this
      ensures entries == old(entries)
      ensures Trim(text) == "" ==> outcome == NeedsText
      ensures Trim(text) != "" && |Trim(text)| < 10 ==> outcome == TooShortToDetect
      ensures |Trim(text)| >= 10 && !Truthy(prediction) ==> outcome == NotDetected
      ensures |Trim(text)| >= 10 && Truthy(prediction) ==> outcome == Detected(prediction.value)
      // no button of the detected mood, or nothing detected: the selection stays
      ensures (!outcome.Detected? ||
               forall k :: 0 <= k < |options| ==> options[k].name != EmotionMood(outcome.prediction).name) ==>
                currentMood == old(currentMood) && currentMoodName == old(currentMoodName)
      // otherwise the last button of the detected mood is selected
      ensures (outcome.Detected? &&
               exists k :: 0 <= k < |options| && options[k].name == EmotionMood(outcome.prediction).name) ==>
                currentMoodName == EmotionMood(outcome.prediction).name
                    && exists k :: 0 <= k < |options| && options[k].name == currentMoodName
                                   && options[k].mood == currentMood
                                   && forall j :: k < j < |options| ==> options[j].name != currentMoodName
    {
      var content := Trim(text);
      if content == "" {
        return NeedsText;
      }
      if |content| < 10 {
        return TooShortToDetect;
      }
      if !Truthy(prediction) {
        return NotDetected;
      }
      var name := EmotionMood(prediction.value).name;
      ghost var last: int := -1;
      var k := 0;
      while k < |options|
        invariant 0 <= k <= |options| && -1 <= last < k
        invariant entries == old(entries)
        invariant last == -1 ==> currentMood == old(currentMood) && currentMoodName == old(currentMoodName)
                                 && forall j :: 0 <= j < k ==> options[j].name != name
        invariant last >= 0 ==> options[last].name == name && options[last].mood == currentMood
                                && currentMoodName == name
                                && forall j :: last < j < k ==> options[j].name != name
      {
        if options[k].name == name {
          HandleMoodSelection(options[k]);
          last := k;
        }
        k := k + 1;
      }
      outcome := Detected(prediction.value);
    }

    /**
     * `saveEntry`: the request body, or None when `validateEntry` refuses.
     * The content is trimmed, a missing or empty title becomes "My Entry",
     * and the mood is the current mood name in lower case.
     */
    method SaveEntryRequest(date: string, title: Option<string>, text: string) returns (request: Option<SaveRequest>)
      ensures request.Some? <==> date != "" && |Trim(text)| >= 10
      ensures request.Some? ==>
                && request.value.content == Trim(text)
                && request.value.entryDate == date
                && request.value.title == (if Truthy(title) then title.value else DefaultTitle)
                && request.value.mood == Lower(currentMoodName)
                && request.value.moodName == currentMoodName
    {
      var entryTitle := if Truthy(title) then title.value else DefaultTitle;
      var content := Trim(text);
      if ValidateEntry(date, content) != Accepted {
        return None;
      }
      request := Some(SaveRequest(entryTitle, content, date, Lower(currentMoodName), currentMoodName));
    }

    /** `handleSearch`: the entries displayed for a query. */
    method HandleSearch(query: string, formatDate: int -> string) returns (shown: seq<ClientEntry>)
      ensures shown == Search(entries, query, formatDate)
      ensures Subsequence(shown, entries)
    {
      shown := Search(entries, query, formatDate);
      SearchKeepsOrderAndMatches(entries, query, formatDate);
    }

    /** `getMoodDistribution`: tally the entries one by one into the histogram. */
    method GetMoodDistribution() returns (counts: seq<MoodCount>)
      ensures counts == Distribution(entries)
    {
      counts := [];
      var i := 0;
      while i < |entries|
        invariant 0 <= i <= |entries|
        invariant counts == Distribution(entries[..i])
      {
        assert entries[..i + 1][..i] == entries[..i];
        counts := Tally(counts, MoodKey(entries[i].mood));
        i := i + 1;
      }
      assert entries[..i] == entries;
    }

    /** `getTopMood`: the emoji and count of the most frequent mood, later keys winning ties. */
    method GetTopMood() returns (top: TopMood)
      ensures top == TopMoodOf(Distribution(entries))
      ensures entries == [] ==> top == TopMood(DefaultEmoji, 0)
    {
      var counts := GetMoodDistribution();
      if |counts| == 0 {
        return TopMood(DefaultEmoji, 0);
      }
      var best := BestIndex(counts);
      top := TopMood(MoodEmoji(Some(counts[best].mood)), counts[best].count);
    }

    /**
     * `calculateStreak`: walk the distinct entry days latest first, counting
     * while each is the day expected (today, then one day earlier each step),
     * and stop at the first that is not.
     */
    method CalculateStreak(today: int) returns (streak: nat)
      ensures streak == StreakOf(EntryDates(entries), today)
      ensures IsStreak(DaySet(EntryDates(entries)), today, streak)
    {
      StreakMeetsDescription(EntryDates(entries), today);
      if |entries| == 0 {
        return 0;
      }
      var dates := DistinctDays(EntryDates(entries));
      streak := 0;
      var i := 0;
      while i < |dates|
        invariant 0 <= i <= |dates| && streak == i
        invariant RunFrom(dates, today) == streak + RunFrom(dates[i..], today - streak)
      {
        if dates[i] != today - streak {
          break;
        }
        assert dates[i..][1..] == dates[i + 1..];
        streak := streak + 1;
        i := i + 1;
      }
    }
  }
}
