/** The lesson flow of the application (App.tsx): the topic list, the chosen
    topic's vocabulary, the position in it, and the three screens. Each
    handler is one atomic step; what the remote service answers is passed in. */
module App {
  import opened Common
  import opened Types

  /** `handleNextWord` on the screen, index and vocabulary length alone. */
  function NextWord(state: AppState, index: nat, len: nat): (next: (AppState, nat))
    ensures index < len ==> next.1 < len
    ensures next.1 == index || (next.1 == index + 1 && next.1 < len)
    ensures next.0 == Summary <==> (index + 1 >= len || state == Summary)
  {
    if index + 1 < len then (state, index + 1) else (Summary, index)
  }

  /** The screen and index after `clicks` presses of Next. */
  function AfterClicks(clicks: nat, state: AppState, index: nat, len: nat): (after: (AppState, nat))
    ensures index < len ==> after.1 < len
    ensures index <= after.1 <= index + clicks
    ensures state == Summary ==> after.0 == Summary
  {
    if clicks == 0 then (state, index)
    else
      var next := NextWord(state, index, len);
      AfterClicks(clicks - 1, next.0, next.1, len)
  }

  function Min(a: int, b: int): int
  {
    if a <= b then a else b
  }

  /** Once the lesson is over, Next changes nothing. */
  lemma {:induction false} SummaryIsFinal(clicks: nat, len: nat)
    requires len > 0
    ensures AfterClicks(clicks, Summary, len - 1, len) == (Summary, len - 1)
  {
    if clicks > 0 {
      SummaryIsFinal(clicks - 1, len);
    }
  }

  /** From word `index` of a lesson, `clicks` presses of Next reach word
      `min(index + clicks, len - 1)`, and the summary exactly when they run
      past the last word. */
  lemma {:induction false} ClicksFrom(clicks: nat, index: nat, len: nat)
    requires index < len
    ensures AfterClicks(clicks, Learning, index, len) ==
      (if index + clicks >= len then Summary else Learning, Min(index + clicks, len - 1))
  {
    if clicks > 0 {
      if index + 1 < len {
        ClicksFrom(clicks - 1, index + 1, len);
      } else {
        SummaryIsFinal(clicks - 1, len);
      }
    }
  }

  /** A lesson of `len` words started at the first word: any number of Next
      presses keeps the index in bounds, and the summary is reached after
      exactly `len` presses. */
  lemma LessonFromStart(clicks: nat, len: nat)
    requires len > 0
    ensures AfterClicks(clicks, Learning, 0, len).1 < len
    ensures AfterClicks(clicks, Learning, 0, len).0 == Summary <==> clicks >= len
  {
    ClicksFrom(clicks, 0, len);
  }

  /** The width of the progress bar, in percent, while word `index` of `len`
      is shown. */
  function Progress(index: nat, len: nat): (percent: real)
    requires index < len
    ensures 0.0 < percent <= 100.0
    ensures percent == 100.0 <==> index == len - 1
  {
    var p := (index + 1) as real / len as real * 100.0;
    assert p * len as real == (index + 1) as real * 100.0;
    p
  }

  /** The bar grows with every word. */
  lemma ProgressIncreases(i: nat, j: nat, len: nat)
    requires i < j < len
    ensures Progress(i, len) < Progress(j, len)
  {
    var step := 100.0 / len as real;
    assert step > 0.0;
    assert Progress(i, len) == (i + 1) as real * step;
    assert Progress(j, len) == (j + 1) as real * step;
    assert Progress(j, len) - Progress(i, len) == (j - i) as real * step;
  }

  class AppComponent {
    var appState: AppState
    var topics: seq<Topic>
    var loadingTopics: bool
    var selectedTopic: Option<Topic>
    var vocabulary: seq<VocabularyWord>
    var loadingVocab: bool
    var currentWordIndex: nat

    /** The index is 0 or names a word of the vocabulary, so the lesson screen
        can always show `vocabulary[currentWordIndex]` when there are words. */
    ghost predicate Valid()
      reads this
    {
      currentWordIndex == 0 || currentWordIndex < |vocabulary|
    }

    /** The word on the lesson screen. */
    function CurrentWord(): (w: VocabularyWord)
      requires Valid() && |vocabulary| > 0
      reads this
      ensures w in vocabulary
    {
      vocabulary[currentWordIndex]
    }

    constructor ()
      ensures Valid()
      ensures appState == TopicSelection && topics == [] && loadingTopics
      ensures selectedTopic == None && vocabulary == [] && !loadingVocab && currentWordIndex == 0
    {
      appState := TopicSelection;
      topics := [];
      loadingTopics := true;
      selectedTopic := None;
      vocabulary := [];
      loadingVocab := false;
      currentWordIndex := 0;
    }

    /** `loadTopics`: replaces the topics only when the call succeeds and is
        not loading afterwards either way. */
    method LoadTopics(response: Result<seq<Topic>, CallError>)
      requires Valid()
      modifies this
      ensures Valid()
      ensures topics == if response.Success? then response.value else old(topics)
      ensures !loadingTopics
      ensures appState == old(appState) && selectedTopic == old(selectedTopic)
      ensures vocabulary == old(vocabulary) && loadingVocab == old(loadingVocab)
      ensures currentWordIndex == old(currentWordIndex)
    {
      loadingTopics := true;
      if response.Success? {
        topics := response.value;
      }
      loadingTopics := false;
    }

    /** `handleTopicSelect`: enters the lesson screen for `topic`; on success
        the vocabulary is replaced and the lesson starts at its first word, on
        failure the topic screen comes back. Not loading afterwards either way. */
    method HandleTopicSelect(topic: Topic, response: Result<seq<VocabularyWord>, CallError>)
      requires Valid()
      modifies this
      ensures Valid()
      ensures selectedTopic == Some(topic) && !loadingVocab
      ensures response.Success? ==>
        appState == Learning && vocabulary == response.value && currentWordIndex == 0
      ensures response.Failure? ==>
        appState == TopicSelection && vocabulary == old(vocabulary) &&
        currentWordIndex == old(currentWordIndex)
      ensures topics == old(topics) && loadingTopics == old(loadingTopics)
    {
      selectedTopic := Some(topic);
      loadingVocab := true;
      appState := Learning;
      match response {
        case Success(words) =>
          vocabulary := words;
          currentWordIndex := 0;
        case Failure(_) =>
          appState := TopicSelection;
      }
      loadingVocab := false;
    }

    /** `handleNextWord`: moves to the next word, or to the summary after the
        last one; the index stays in bounds. */
    method HandleNextWord()
      requires Valid()
      modifies this
      ensures Valid()
      ensures (appState, currentWordIndex) == NextWord(old(appState), old(currentWordIndex), |vocabulary|)
      ensures old(currentWordIndex) < |vocabulary| ==> currentWordIndex < |vocabulary|
      ensures vocabulary == old(vocabulary) && topics == old(topics) && selectedTopic == old(selectedTopic)
      ensures loadingTopics == old(loadingTopics) && loadingVocab == old(loadingVocab)
    {
      if currentWordIndex < |vocabulary| - 1 {
        currentWordIndex := currentWordIndex + 1;
      } else {
        appState := Summary;
      }
    }

    /** `resetApp`: back to the topic screen with no topic, no vocabulary and
        the index at 0. */
    method ResetApp()
      requires Valid()
      modifies this
      ensures Valid()
      ensures appState == TopicSelection && selectedTopic == None
      ensures vocabulary == [] && currentWordIndex == 0
      ensures topics == old(topics) && loadingTopics == old(loadingTopics)
      ensures loadingVocab == old(loadingVocab)
    {
      appState := TopicSelection;
      selectedTopic := None;
      vocabulary := [];
      currentWordIndex := 0;
    }
  }
}
