/**
 * The pure helpers of the browser script: the entry record it receives from the
 * server, preview truncation, save-form validation, the mood lookups and the
 * search filter.
 */
module ClientModel {
  import opened Wrappers
  import opened Text
  import opened Seqs

  /** An entry as the browser holds it; `date` is the entry's calendar day as a day number. */
  datatype ClientEntry = ClientEntry(id: nat, title: Option<string>, content: string, mood: Option<string>, date: int)

  /** A `.mood-option` button: its `data-mood` emoji and its `data-name`. */
  datatype MoodOption = MoodOption(mood: string, name: string)

  /** An entry of the emotion-to-mood table: an emoji and the name of a mood button. */
  datatype MoodChoice = MoodChoice(emoji: string, name: string)

  // ----- truncateText -----

  /**
   * `truncateText`: short text is shown whole; longer text is cut to
   * `maxLength` characters, trimmed, and followed by "...".
   */
  function TruncateText(text: string, maxLength: nat): (r: string)
    ensures |r| <= maxLength + 3
    ensures |text| <= maxLength ==> r == text
    ensures |text| > maxLength ==>
              && |r| >= 3 && r[|r| - 3..] == "..."
              && var body := r[..|r| - 3];
                 && (body == [] || (!IsWhitespace(body[0]) && !IsWhitespace(body[|body| - 1])))
                 && exists a :: a + |body| <= maxLength && OccursAt(text, body, a)
    ensures |text| > maxLength ==> r == Trim(text[..maxLength]) + "..."
  {
    if |text| <= maxLength then text
    else
      var cut := text[..maxLength];
      var body := Trim(cut);
      var r := body + "...";
      assert r[..|r| - 3] == body && r[|r| - 3..] == "...";
      var a := LeadingSpace(cut);
      SliceOfPrefix(text, maxLength, a, a + |body|);
      assert OccursAt(text, body, a);
      r
  }

  /**
   * A cut that neither starts nor ends in white space is kept whole: the
   * preview is then exactly the first `maxLength` characters and "...".
   */
  lemma TruncateKeepsCleanCut(text: string, maxLength: nat)
    requires 0 < maxLength < |text|
    requires !IsWhitespace(text[0]) && !IsWhitespace(text[maxLength - 1])
    ensures TruncateText(text, maxLength) == text[..maxLength] + "..."
    ensures |TruncateText(text, maxLength)| == maxLength + 3
  {
    var cut := text[..maxLength];
    assert LeadingSpace(cut) == 0;
    assert TrailingSpace(cut) == 0;
  }

  /** A slice of a prefix is the same slice of the whole sequence. */
  lemma SliceOfPrefix(text: string, m: nat, a: nat, b: nat)
    requires a <= b <= m <= |text|
    ensures text[..m][a..b] == text[a..b]
  {
  }

  // ----- validateEntry -----

  /** Which check of `validateEntry` stopped the save, if any. */
  datatype Verdict = Accepted | MissingDate | MissingContent | TooShort

  /**
   * `validateEntry(date, content)`, `content` already trimmed by the caller:
   * the date is checked first, then emptiness, then the 10-character minimum.
   */
  function ValidateEntry(date: string, content: string): (v: Verdict)
    ensures v == Accepted <==> date != "" && |content| >= 10
    ensures v == MissingDate <==> date == ""
    ensures v == MissingContent <==> date != "" && content == ""
    ensures v == TooShort <==> date != "" && 0 < |content| < 10
  {
    if date == "" then MissingDate
    else if content == "" then MissingContent
    else if |content| < 10 then TooShort
    else Accepted
  }

  // ----- getMoodEmoji -----

  const DefaultEmoji := "😊"

  const MoodEmojis: map<string, string> := map[
    "happy" := "😊",
    "sad" := "😢",
    "angry" := "😠",
    "anxious" := "😰",
    "calm" := "😌",
    "excited" := "🤗",
    "neutral" := "😐"]

  /** `getMoodEmoji`: a case-insensitive lookup that is total, with the smiling face as default. */
  function MoodEmoji(mood: Option<string>): (e: string)
    ensures e in MoodEmojis.Values
    ensures mood.None? ==> e == DefaultEmoji
    ensures mood.Some? && Lower(mood.value) !in MoodEmojis ==> e == DefaultEmoji
    ensures mood.Some? && Lower(mood.value) in MoodEmojis ==> e == MoodEmojis[Lower(mood.value)]
  {
    assert MoodEmojis["happy"] == DefaultEmoji;
    if mood.Some? && Lower(mood.value) in MoodEmojis then MoodEmojis[Lower(mood.value)] else DefaultEmoji
  }

  /** Letter case does not matter to `getMoodEmoji`. */
  lemma MoodEmojiCaseInsensitive(mood: string)
    ensures MoodEmoji(Some(Lower(mood))) == MoodEmoji(Some(mood))
  {
    LowerIdempotent(mood);
  }

  // ----- the emotion-to-mood table of detectAndSetEmotion -----

  const Happy := MoodChoice("😊", "Happy")
  const Sad := MoodChoice("😢", "Sad")
  const Angry := MoodChoice("😠", "Angry")

  const EmotionMoods: map<string, MoodChoice> := map[
    "happy" := Happy,
    "joy" := Happy,
    "sad" := Sad,
    "sadness" := Sad,
    "angry" := Angry,
    "anger" := Angry,
    "fear" := MoodChoice("😰", "Sad"),
    "love" := MoodChoice("😍", "Love"),
    "surprise" := MoodChoice("🤔", "Thoughtful"),
    "neutral" := Happy]

  /** The mood buttons the table can select. */
  const MoodNames: set<string> := {"Happy", "Sad", "Angry", "Love", "Thoughtful"}

  /** The mood picked for a predicted emotion: lower-cased, looked up, Happy when unknown. */
  function EmotionMood(prediction: string): (m: MoodChoice)
    ensures m.name in MoodNames
    ensures Lower(prediction) !in EmotionMoods ==> m == Happy
    ensures Lower(prediction) in EmotionMoods ==> m == EmotionMoods[Lower(prediction)]
  {
    var emotion := Lower(prediction);
    if emotion in EmotionMoods then EmotionMoods[emotion] else Happy
  }

  /** Fear has no button of its own: it selects Sad. */
  lemma FearSelectsSad()
    ensures EmotionMood("fear").name == "Sad"
  {
    assert Lower("fear") == "fear" by {
      forall i | 0 <= i < 4 ensures LowerChar("fear"[i]) == "fear"[i] { }
    }
  }

  // ----- handleSearch -----

  /** The query as `handleSearch` uses it: lower-cased, then trimmed. */
  function SearchTerm(query: string): string {
    Trim(Lower(query))
  }

  /**
   * The filter predicate of `handleSearch`: the term occurs in the lower-cased
   * content, title, mood or formatted date. A missing title or mood never matches.
   */
  predicate MatchesTerm(e: ClientEntry, term: string, formatDate: int -> string) {
    || Includes(Lower(e.content), term)
    || (e.title.Some? && Includes(Lower(e.title.value), term))
    || (e.mood.Some? && Includes(Lower(e.mood.value), term))
    || Includes(Lower(formatDate(e.date)), term)
  }

  /**
   * The entries `handleSearch` displays: all of them for a blank query,
   * otherwise the matching ones in their original order.
   */
  function Search(entries: seq<ClientEntry>, query: string, formatDate: int -> string): (shown: seq<ClientEntry>)
    ensures SearchTerm(query) == "" ==> shown == entries
    ensures SearchTerm(query) != "" ==>
              forall e :: e in shown <==> e in entries && MatchesTerm(e, SearchTerm(query), formatDate)
    ensures |shown| <= |entries|
  {
    var term := SearchTerm(query);
    if term == "" then entries else Filter((e: ClientEntry) => MatchesTerm(e, term, formatDate), entries)
  }

  /** The displayed entries are an order-preserving selection, each occurrence of a match kept. */
  lemma SearchKeepsOrderAndMatches(entries: seq<ClientEntry>, query: string, formatDate: int -> string)
    ensures Subsequence(Search(entries, query, formatDate), entries)
    ensures forall e :: multiset(Search(entries, query, formatDate))[e] ==
              if SearchTerm(query) == "" || MatchesTerm(e, SearchTerm(query), formatDate)
              then multiset(entries)[e] else 0
  {
    var term := SearchTerm(query);
    if term == "" {
      SubsequenceReflexive(entries);
    } else {
      var p := (e: ClientEntry) => MatchesTerm(e, term, formatDate);
      FilterIsSubsequence(p, entries);
      FilterMultiset(p, entries);
    }
  }

  /** Every sequence is a subsequence of itself. */
  lemma {:induction false} SubsequenceReflexive<T>(s: seq<T>)
    ensures Subsequence(s, s)
  {
    if s != [] {
      SubsequenceReflexive(s[1..]);
    }
  }

  /** An entry with neither title nor mood is found only through its content or its date. */
  lemma MissingFieldsNeverMatch(e: ClientEntry, term: string, formatDate: int -> string)
    requires e.title.None? && e.mood.None?
    ensures MatchesTerm(e, term, formatDate) <==>
              Includes(Lower(e.content), term) || Includes(Lower(formatDate(e.date)), term)
  {
  }
}
