/** The data shapes the application passes around (types.ts). */
module Types {
  import opened Common

  datatype Topic = Topic(id: string, name: string, description: string, icon: string)

  datatype Difficulty = Beginner | Intermediate | Advanced

  datatype VocabularyWord = VocabularyWord(
    word: string,
    definition: string,
    exampleSentence: string,
    ipa: string,
    difficulty: Difficulty,
    contextNote: Option<string>)

  /** The graded attempt; `score` is meant to lie in 0..100. */
  datatype SpeechEvaluation = SpeechEvaluation(
    score: real,
    feedback: string,
    mispronouncedPhonemes: seq<string>,
    improvementTip: string)

  /** The three screens of the application. */
  datatype AppState = TopicSelection | Learning | Summary
}
