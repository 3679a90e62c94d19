/** The survey definition the application serves: an ordered catalogue of
    questions with a title and instructions. Its contents are a parameter of
    the model; only its shape matters here. */
module Surveys {

  /** One question: its prompt text and the choices offered for it. */
  datatype Question = Question(prompt: string, choices: seq<string>)

  /** A survey: title, instructions and questions addressed by 0-based index. */
  datatype Survey = Survey(title: string, instructions: string, questions: seq<Question>)
  {
    /** Number of questions, N. */
    function Count(): nat
    {
      |questions|
    }

    /** Index of the last question, N - 1 (which is -1 for an empty survey:
        the application computes it without checking). */
    function LastQuestion(): int
    {
      |questions| - 1
    }
  }
}
