/**
 * `gemini_call` (backend/main.py) and the `/enhance` endpoint built on it. The model is a
 * parameter: a function from the prompt to what the client library hands back.
 */
module Gateway {
  import opened PyText

  /** What `generate_content(prompt)` gives: reply text (empty when the response or its
      text is missing or empty), or an exception with its message. */
  datatype ModelReply = Replied(text: string) | Raised(message: string)

  type Model = string -> ModelReply

  const NoResponse := "No response generated."
  const ErrorPrefix := "Gemini API error: "

  /** `gemini_call`: never raises and never returns an empty string. */
  function GeminiCall(reply: ModelReply): (r: string)
    ensures r != ""
    ensures reply.Replied? && reply.text != "" ==> r == reply.text
    ensures reply.Replied? && reply.text == "" ==> r == NoResponse
    ensures reply.Raised? ==> ErrorPrefix <= r && r[|ErrorPrefix|..] == reply.message
  {
    match reply
    case Replied(t) => if t != "" then t else NoResponse
    case Raised(m) => ErrorPrefix + m
  }

  // The two instructions are spelled in short pieces so that the verifier unfolds their characters.
  const ResumeInstruction := "Rewrite this resume text " + "to be concise, professional, " + "and achievement-focused."
  const GenericInstruction := "Improve grammar, clarity, " + "and professionalism of this text."

  /** The instruction `/enhance` chooses: the resume rewrite only for purpose "resume". */
  function Instruction(purpose: string): string {
    if purpose == "resume" then ResumeInstruction else GenericInstruction
  }

  /** The prompt `/enhance` sends: instruction, a blank line, then the user's text verbatim. */
  function EnhancePrompt(text: string, purpose: string): (p: string)
    ensures Instruction(purpose) <= p
    ensures p[|Instruction(purpose)|..] == "\n\n" + text
  {
    Instruction(purpose) + "\n\n" + text
  }

  /** The two purposes lead to different prompts, whatever the two texts. */
  lemma PromptsDiffer(text1: string, text2: string, purpose: string)
    requires purpose != "resume"
    ensures EnhancePrompt(text1, "resume") != EnhancePrompt(text2, purpose)
  {
    assert EnhancePrompt(text1, "resume")[0] == ResumeInstruction[0];
    assert EnhancePrompt(text2, purpose)[0] == GenericInstruction[0];
  }

  /** The user's text can be read back from the prompt: different texts, different prompts. */
  lemma {:induction false} PromptInjective(text1: string, text2: string, purpose: string)
    requires EnhancePrompt(text1, purpose) == EnhancePrompt(text2, purpose)
    ensures text1 == text2
  {
    var n := |Instruction(purpose)| + 2;
    assert text1 == EnhancePrompt(text1, purpose)[n..];
    assert text2 == EnhancePrompt(text2, purpose)[n..];
  }

  datatype EnhanceResponse = EnhanceResponse(original: string, improved: string)

  /** `POST /enhance`: echoes the text and returns the gateway's reply to the chosen prompt. */
  function Enhance(text: string, purpose: string, model: Model): (r: EnhanceResponse)
    ensures r.original == text
    ensures r.improved == GeminiCall(model(EnhancePrompt(text, purpose)))
    ensures r.improved != ""
  {
    EnhanceResponse(text, GeminiCall(model(EnhancePrompt(text, purpose))))
  }
}
