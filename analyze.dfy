/**
 * `POST /analyze` and `parse_resume_with_ai` (backend/main.py): pick the input text, ask
 * the model to turn it into JSON, and fall back to a fixed record when the reply is not JSON.
 * The model and `json.loads` are parameters.
 */
module Analyze {
  import opened Wrappers
  import opened PyText
  import opened Json
  import opened Gateway
  import opened Extract

  /** `json.loads`: the decoded value, or None when it raises. */
  type Loads = string -> Option<Value>

  const NoInput := "No text or file provided."
  const SnippetLength := 300
  const FallbackSummaryLength := 200

  // The prompt template around the resume text, spelled in short pieces.
  const PromptHead :=
    "\n    Extract a JSON from the following resume text.\n"
    + "    Format strictly as JSON with fields:\n"
    + "    {\n"
    + "      \"summary\": \"\",\n"
    + "      \"skills\": [\"skill1\", \"skill2\"],\n"
    + "      \"experience\": [{\"title\":\"\", \"company\":\"\", \"duration\":\"\", \"description\":\"\"}],\n"
    + "      \"education\": [{\"degree\":\"\", \"institution\":\"\", \"year\":\"\"}]\n"
    + "    }\n"
    + "\n"
    + "    Resume Text:\n"
    + "    "
  const PromptTail := "\n    "

  /** The prompt `parse_resume_with_ai` sends: the fixed instructions with the text inside. */
  function ResumePrompt(text: string): (p: string)
    ensures PromptHead <= p && |p| == |PromptHead| + |text| + |PromptTail|
    ensures p[|PromptHead|..|PromptHead| + |text|] == text
    ensures p[|PromptHead| + |text|..] == PromptTail
  {
    PromptHead + text + PromptTail
  }

  /** The record used when the reply is not JSON: the first 200 characters as the summary
      and no skills, experience or education. */
  function Fallback(text: string): (v: Value)
    ensures v.JObj? && v.fields.Keys == {"summary", "skills", "experience", "education"}
    ensures v.fields["summary"].JStr? && v.fields["summary"].s <= text
    ensures |v.fields["summary"].s| == if |text| <= FallbackSummaryLength then |text| else FallbackSummaryLength
    ensures v.fields["skills"] == v.fields["experience"] == v.fields["education"] == JArr([])
  {
    JObj(map[
      "summary" := JStr(Take(text, FallbackSummaryLength)),
      "skills" := JArr([]),
      "experience" := JArr([]),
      "education" := JArr([])])
  }

  /** `parse_resume_with_ai`: None when the model call raises (nothing catches it); else the
      decoded reply, whatever JSON it is, or the fallback record when it does not decode. */
  function ParseResume(text: string, model: Model, loads: Loads): (r: Option<Value>)
    ensures r.None? <==> model(ResumePrompt(text)).Raised?
    ensures r.Some? && loads(model(ResumePrompt(text)).text).Some? ==>
      r.value == loads(model(ResumePrompt(text)).text).value
    ensures r.Some? && loads(model(ResumePrompt(text)).text).None? ==> r.value == Fallback(text)
  {
    match model(ResumePrompt(text))
    case Raised(_) => None
    case Replied(reply) =>
      match loads(reply)
      case Some(v) => Some(v)
      case None => Some(Fallback(text))
  }

  /** The outcomes of `/analyze`: a 400 with an error message, the snippet with the parsed
      record, or a 500 from an exception nothing in the handler catches. */
  datatype AnalyzeResponse =
    | BadRequest(error: string)
    | Analyzed(snippet: string, aiParsed: Value)
    | ServerError

  /** backend/main.py:113-117: parse the extracted text and answer with its first 300 characters. */
  function Respond(extracted: string, model: Model, loads: Loads): (r: AnalyzeResponse)
    ensures !r.BadRequest?
    ensures r.ServerError? <==> model(ResumePrompt(extracted)).Raised?
    ensures r.Analyzed? ==> r.snippet <= extracted && |r.snippet| == if |extracted| <= 300 then |extracted| else 300
    ensures r.Analyzed? ==> Some(r.aiParsed) == ParseResume(extracted, model, loads)
  {
    match ParseResume(extracted, model, loads)
    case None => ServerError
    case Some(v) => Analyzed(Take(extracted, SnippetLength), v)
  }

  /** When the reply does not decode, the fallback summary is the first 200 characters of
      the snippet: a prefix of it, and all of it when the text is at most 200 long. */
  lemma FallbackSummaryWithinSnippet(extracted: string, model: Model, loads: Loads)
    requires model(ResumePrompt(extracted)).Replied?
    requires loads(model(ResumePrompt(extracted)).text).None?
    ensures var r := Respond(extracted, model, loads);
      && r.Analyzed?
      && "summary" in r.aiParsed.fields
      && r.aiParsed.fields["summary"] == JStr(Take(r.snippet, FallbackSummaryLength))
      && r.aiParsed.fields["skills"] == JArr([])
      && r.aiParsed.fields["experience"] == JArr([])
      && r.aiParsed.fields["education"] == JArr([])
  {
    TakePrefix(extracted, FallbackSummaryLength, SnippetLength);
  }

  /** `POST /analyze`. A file is used whenever one is sent; otherwise non-empty text; with
      neither, a 400. The temporary copy of the upload is outside the model. */
  method AnalyzeResume(text: Option<string>, file: Option<Upload>, model: Model, loads: Loads)
    returns (resp: AnalyzeResponse)
    ensures resp.BadRequest? <==> file.None? && (text.None? || text.value == "")
    ensures resp.BadRequest? ==> resp.error == NoInput
    ensures file.Some? && UploadText(file.value).None? ==> resp.ServerError?
    ensures file.Some? && UploadText(file.value).Some? ==>
      resp == Respond(UploadText(file.value).value, model, loads)
    ensures file.None? && text.Some? && text.value != "" ==> resp == Respond(text.value, model, loads)
  {
    var extracted := "";
    if file.Some? {
      var upload := file.value;
      var suffix := Suffix(upload.filename);
      match KindOf(suffix)
      case Pdf =>
        if upload.pdfPages.None? {
          return ServerError;
        }
        extracted := ExtractPdf(upload.pdfPages.value);
      case Docx =>
        if upload.docxParagraphs.None? {
          return ServerError;
        }
        extracted := DocxText(upload.docxParagraphs.value);
      case Plain =>
        extracted := upload.decoded;
    } else if text.Some? && text.value != "" {
      extracted := text.value;
    } else {
      return BadRequest(NoInput);
    }
    resp := Respond(extracted, model, loads);
  }
}
