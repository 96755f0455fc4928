# AI resume service: the deterministic core of `backend/main.py`

The service is a small FastAPI application. It turns a form into a DOCX resume
(`POST /generate`). It extracts text from an uploaded resume and asks Gemini to turn it
into JSON (`POST /analyze`). It asks Gemini to polish a piece of text (`POST /enhance`).
Everything except the formatting and dispatch logic is handed to Gemini, PyPDF2,
python-docx or FastAPI. This Dafny project models that logic and proves what it
guarantees.

The modules follow the program:

- `Wrappers` holds `Option` and `Result`, the stand-ins for Python's `None` and for raised
  exceptions.
- `PyText` models the Python string operations the code relies on: `strip`, one-character
  `replace`, `join`, `s[:n]`, `rfind`, `lower`, and `encode("latin-1")` with the message of
  the `UnicodeEncodeError` it raises. It also defines `split` on one character. The code
  never calls `split`; the model uses it only to state what the joined texts hold line by
  line.
- `Json` holds the values `json.loads` produces, and the `AttributeError` raised by looking
  up `get` or `strip` on the wrong kind of value.
- `Gateway` models `gemini_call` and `/enhance`. The model is a function parameter from
  the prompt to a reply or an exception.
- `Extract` models the suffix dispatch of `/analyze` (`os.path.splitext` then `lower`),
  `extract_text_from_pdf` (a loop, kept as a method) and `extract_text_from_docx`, over the
  page and paragraph texts the readers would produce.
- `Analyze` models `parse_resume_with_ai` and `/analyze`. `json.loads` is a parameter
  returning `Option<Value>`.
- `Generate` models `/generate`. The document is the sequence of paragraphs it receives,
  in order: `Header`, `Contact`, `Blank`, `Heading`, `Para` and `BoldLine`. The methods
  append to that sequence as the handler appends paragraphs. The specification functions
  `Layout` and `Answer` describe the final document or the 500 answer, and the lemmas
  state its structure: the opening lines, which sections appear and in which order, how
  entries render, and when and why the request fails.

The model follows the code as written:

- The fallback record of `/analyze` is `{"summary": text[:200], "skills": [], "experience": [],
  "education": []}`.
- A reply that decodes to any JSON value, object or not, is returned as it is.
- `parse_resume_with_ai` calls the model directly, not through `gemini_call`. Nothing
  catches an exception the model raises there, so `/analyze` ends with a server error
  (`ServerError`).
- Experience entries read all four fields, description included, before testing whether
  the entry is shown. An unreadable description therefore fails the whole request even for
  an entry that would be skipped.
- `StreamingResponse` encodes its headers as Latin-1 when it is built, inside the handler's
  `try`. A safe name holding a character above U+00FF therefore makes `/generate` answer
  500 with the `UnicodeEncodeError` message instead of the document.

## Model

| member | source | states |
|---|---|---|
| PyText.Strip | backend/main.py:180 | `strip()` is empty exactly when the text is all whitespace, in Python's `isspace` sense; otherwise it starts and ends with a non-whitespace character |
| PyText.StripPadding | backend/main.py:180 | the stripped text is a contiguous middle part of the input, with only whitespace removed on either side |
| PyText.ReplaceChar | backend/main.py:181 | `replace(' ', '_')` keeps the length, turns every space into `_` and keeps every other character |
| PyText.Join | backend/main.py:53 | `sep.join(parts)` is empty for no parts, otherwise starts with the first part, and puts the separator right after it when more parts follow |
| PyText.SplitJoin | backend/main.py:53 | round trip: splitting `c.join(parts)` on `c` gives `parts` back when no part contains `c` |
| PyText.Take | backend/main.py:115 | `s[:n]` has length `min(n, len(s))` and is a prefix of `s` |
| PyText.TakePrefix | backend/main.py:79 | `s[:200]` is a prefix of `s[:300]` and equals `s[:300][:200]` |
| PyText.RFind | backend/main.py:94 | `rfind` gives -1 or an index holding the character, with no occurrence after it |
| PyText.Lower | backend/main.py:94 | `lower()` keeps the length and lower-cases each ASCII capital in place |
| PyText.EncodeLatin1 | backend/main.py:243-247 | `encode("latin-1")` succeeds exactly when every character is at most U+00FF, giving one byte per character equal to its code point; otherwise it raises at the first character above U+00FF, and the error covers the run of such characters starting there |
| PyText.Latin1RoundTrip | backend/main.py:243-247 | decoding the encoded bytes gives the text back |
| PyText.Latin1Total | backend/main.py:243-247 | every byte string is the encoding of its decoding, so the encoding loses nothing |
| PyText.EncodeErrorMessage | backend/main.py:249-250 | `str(e)` of the encoding error starts with "'latin-1' codec can't encode " and ends with ": ordinal not in range(256)", with a non-empty middle |
| PyText.DecimalValue | backend/main.py:249-250 | `str(n)`, as used for the positions in the message, holds only the digits 0 to 9, has no leading zero unless `n` is 0, and reads back as `n` in base 10 |
| PyText.HexValue | backend/main.py:249-250 | the fixed-width lower-case hexadecimal of a number that fits the width holds only 0-9 and a-f and reads back as the number in base 16 |
| PyText.EscapeValue | backend/main.py:249-250 | a character is escaped as `\x` with 2, `\u` with 4 or `\U` with 8 hexadecimal digits, the narrowest that holds its code point, and the digits read back as the code point |
| PyText.CharacterMessage | backend/main.py:249-250 | for a single unencodable character the message is the head, "character '", the character's escape, "' in position ", the position in decimal, and the tail; the escape and the position read back as the code point and the index |
| PyText.RangeMessage | backend/main.py:249-250 | for a run of unencodable characters the message is the head, "characters in position ", the first and the last index in decimal joined by "-", and the tail; both numbers read back as those indices |
| PyText.MessageExample | backend/main.py:249-250 | U+0141 is escaped as `\u0141` and position 21 is written "21", as in "'latin-1' codec can't encode character '\u0141' in position 21: ordinal not in range(256)" |
| Gateway.GeminiCall | backend/main.py:26-32 | `gemini_call` never returns an empty string: a non-empty reply text is passed on unchanged, an empty one becomes "No response generated.", and an exception becomes "Gemini API error: " followed by its message |
| Gateway.EnhancePrompt | backend/main.py:124-129 | the prompt is the chosen instruction, a blank line, then the user's text verbatim |
| Gateway.PromptsDiffer | backend/main.py:124-127 | purpose "resume" and any other purpose lead to different prompts, whatever the texts |
| Gateway.PromptInjective | backend/main.py:129 | for the same purpose, different texts give different prompts |
| Gateway.Enhance | backend/main.py:119-130 | `/enhance` echoes the text as `original`; `improved` is `gemini_call` applied to the model's reply to the prompt, so it is never empty |
| Extract.SplitExt | backend/main.py:94 | `splitext` splits the name into root and extension: they concatenate back to the name; the extension is empty or one dot followed by no dot or '/'; the root's last component is not all dots |
| Extract.SplitExtUnique | backend/main.py:94 | any root (whose last component is not all dots) followed by a dot-led, dot- and slash-free tail is exactly the split `splitext` makes |
| Extract.Suffix | backend/main.py:94 | the suffix is as long as the extension `splitext` gives, and is empty or starts with a dot |
| Extract.KindOf | backend/main.py:99-105 | the PDF reader is chosen exactly for ".pdf", the DOCX reader exactly for ".docx" and ".doc", plain text for every other suffix |
| Extract.UpperCasePdf | backend/main.py:94-100 | "name.PDF" is read as a PDF: the suffix is lower-cased before dispatch |
| Extract.LastExtensionCounts | backend/main.py:94-105 | "name.pdf.txt" is read as plain text: only the last extension counts |
| Extract.LeadingDotIsNoExtension | backend/main.py:94 | a name such as ".pdf", a leading dot and no other, has no extension |
| Extract.NonEmpty | backend/main.py:49-52 | the kept page texts are at most as many as the pages; each is non-empty and one of the pages |
| Extract.NonEmptyOne | backend/main.py:49-52 | a single page is kept exactly when its text is not empty |
| Extract.NonEmptyAppend | backend/main.py:49-52 | pages are kept independently and in page order: the kept pages of `a + b` are those of `a` followed by those of `b` |
| Extract.NonEmptyKeepsAll | backend/main.py:49-52 | when every page has text, every page is kept, in order |
| Extract.NonEmptyEmpty | backend/main.py:49-52 | nothing is kept exactly when no page has text |
| Extract.PdfText | backend/main.py:45-53 | the text of a PDF is empty exactly when no page text is kept |
| Extract.ExtractPdf | backend/main.py:45-53 | the page loop returns the kept page texts joined by newlines (`PdfText`) |
| Extract.PdfTextEmpty | backend/main.py:45-53 | a PDF's text is empty exactly when none of its pages has text |
| Extract.PdfTextLines | backend/main.py:49-53 | when some page has text and no page holds a newline, the lines of the PDF text are exactly the pages with text, in page order |
| Extract.DocxText | backend/main.py:55-57 | the text of a DOCX is empty exactly when there are no paragraphs or a single empty one |
| Extract.DocxTextLines | backend/main.py:55-57 | when there is at least one paragraph and none holds a newline, the lines of the DOCX text are all the paragraphs, empty ones included, in order |
| Extract.UploadText | backend/main.py:94-105 | ".pdf" gives the joined kept page texts (`PdfText`), ".docx" or ".doc" the joined paragraphs (`DocxText`), any other suffix the decoded bytes; the text is missing exactly when the selected PDF or DOCX reader cannot read the upload |
| Analyze.ResumePrompt | backend/main.py:62-74 | the prompt is the fixed template head, then the resume text verbatim, then the template tail |
| Analyze.Fallback | backend/main.py:79 | the fallback record has exactly the keys summary, skills, experience and education; the summary is the first `min(200, len)` characters of the text, and the three lists are empty |
| Analyze.ParseResume | backend/main.py:61-80 | no result exactly when the model raises; otherwise the decoded reply when it decodes, and the fallback record when it does not |
| Analyze.Respond | backend/main.py:113-117 | never a 400; a server error exactly when the model raises; otherwise the snippet is the first `min(300, len)` characters of the text and `ai_parsed` is the parse result |
| Analyze.FallbackSummaryWithinSnippet | backend/main.py:79 | with an undecodable reply, `ai_parsed` has the summary equal to the first 200 characters of the snippet, and empty skills, experience and education |
| Analyze.AnalyzeResume | backend/main.py:87-117 | a 400 "No text or file provided." exactly when no file is sent and the text is absent or empty; a file always wins over text; an unreadable file gives a server error; otherwise the answer for the extracted or given text |
| Generate.SafeName | backend/main.py:180 | the safe name is never empty and has no whitespace at either end; it is the stripped name when the name is not all whitespace, and "resume" when it is |
| Generate.AsList | backend/main.py:165-177 | a decoded JSON list is used as it is; a decoding error or any other value gives no entries |
| Generate.Filename | backend/main.py:181 | the file name is a stem as long as the safe name, followed by "_resume.docx" |
| Generate.FilenameShape | backend/main.py:180-181 | the stem is the safe name with every space turned into `_`, so the file name contains no space |
| Generate.BlankName | backend/main.py:180-181 | an empty or all-whitespace name gives the header "resume" and the file name "resume_resume.docx" |
| Generate.ContactLine | backend/main.py:194 | the contact line is exactly email, phone and location in that order, each pair separated by a space, a vertical bar and a space |
| Generate.Field | backend/main.py:213-216 | `entry.get(key, "").strip()` succeeds exactly when the entry is an object whose field is absent or a string, and then gives the stripped field, or "" when absent |
| Generate.FieldErrors | backend/main.py:213-216 | the exception is `get` on a non-object entry, or `strip` on a field that is not a string |
| Json.ListHasNoGet | backend/main.py:213 | `str(e)` for `get` on a list entry is "'list' object has no attribute 'get'" |
| Json.NullHasNoStrip | backend/main.py:213-216 | `str(e)` for `strip` on a null field is "'NoneType' object has no attribute 'strip'" |
| Generate.ExperienceEntry | backend/main.py:212-223 | an experience entry renders exactly when all four fields can be read |
| Generate.EducationEntry | backend/main.py:228-236 | an education entry renders exactly when all three fields can be read |
| Generate.ExperienceEntryShape | backend/main.py:213-223 | a readable entry gives nothing exactly when title, company and duration are blank; otherwise the bold line "title — company (duration)", then the description paragraph exactly when the description is not blank |
| Generate.EducationEntryShape | backend/main.py:229-236 | a readable entry gives nothing exactly when degree, institution and year are blank; otherwise the one bold line "degree, institution (year)" |
| Generate.DescriptionAlwaysRead | backend/main.py:216-218 | a non-string description fails the entry even when the entry would be skipped |
| Generate.CollectOk | backend/main.py:212-236 | the loop over entries succeeds exactly when every entry's result is a success |
| Generate.CollectFirstError | backend/main.py:212-236 | a failing loop fails with the exception of its first failing entry, after which nothing runs |
| Generate.CollectAppend | backend/main.py:212-236 | the blocks of two consecutive runs of entries are those of the first run followed by those of the second |
| Generate.RenderAllOk | backend/main.py:210-236 | the loop over a list succeeds exactly when every entry renders |
| Generate.RenderAllFirstError | backend/main.py:210-251 | a failing loop over a list reports the exception of its first failing entry; all earlier entries rendered |
| Generate.RenderAllAppend | backend/main.py:212-236 | entries keep their input order: the loop's blocks for `a + b` are those for `a` followed by those for `b` |
| Generate.AddExperienceEntry | backend/main.py:212-223 | one pass of the experience loop appends exactly that entry's blocks to the document, or raises its exception |
| Generate.AddEducationEntry | backend/main.py:228-236 | one pass of the education loop appends exactly that entry's blocks, or raises its exception |
| Generate.AddEntries | backend/main.py:212-236 | the `for` loop leaves the document extended by all entries' blocks, or the exception of the first failing entry |
| Generate.AddSection | backend/main.py:210-236 | a list section appends its heading followed by its entries when the list is non-empty, and nothing when it is empty |
| Generate.StartDocument | backend/main.py:187-207 | the document starts with header, contact line and blank paragraph, then the summary and skills sections |
| Generate.GenerateResume | backend/main.py:152-251 | the handler answers `Answer(f)`: the `Layout` blocks downloaded under `Filename`, or a 500 with the prefixed message of the exception raised while building the document or while encoding the download header |
| Generate.EntriesHaveNoHeadings | backend/main.py:212-236 | rendered entries contain bold lines and paragraphs only, never a heading |
| Generate.TextSectionHeadings | backend/main.py:200-207 | the summary (or skills) heading is present exactly when the stripped text is not empty |
| Generate.SectionHeadings | backend/main.py:210-211 | a list section has exactly one heading when the list is non-empty, even when every entry is skipped, and none otherwise |
| Generate.LayoutHeadings | backend/main.py:199-236 | the headings of the document are, in this order, "Professional Summary", "Key Skills", "Work Experience" and "Education", each present exactly when its text is not blank or its list is not empty |
| Generate.LayoutStart | backend/main.py:187-197 | the document opens with the safe name, then the contact line (email, phone and location joined by a space, a vertical bar and a space), then an empty paragraph |
| Generate.Layout | backend/main.py:183-236 | a document that is built always begins with the header, the contact line and the blank paragraph |
| Generate.Answer | backend/main.py:243-251 | a failure is a 500 whose message starts with "Resume generation failed: "; a download is named by `Filename` and carries the `Layout` blocks |
| Generate.DispositionEncoding | backend/main.py:243-247 | the header `attachment; filename=...` encodes exactly when every character of the safe name is at most U+00FF; otherwise the error starts at the safe name's first character above U+00FF, counted from the start of the header value, and its run ends inside the name |
| Generate.WideNameMessage | backend/main.py:243-251 | a built document whose safe name is "\u0141ukasz" is answered with a 500 reporting the one character U+0141 at position 21 of the header |
| Generate.AnswerFails | backend/main.py:163-251 | the handler answers 500 exactly when some experience or education entry cannot be read, or when the safe name holds a character above U+00FF |
| Generate.AnswerError | backend/main.py:249-251 | the failure message is the prefix followed by `str(e)`, where `e` is the exception of the first unreadable experience entry; else, when all experience entries are readable, of the first unreadable education entry; else, when every entry is readable, the Latin-1 encoding error of the header |
| Generate.MalformedListsLeftOut | backend/main.py:165-177 | lists that do not decode, or decode to something other than a list, count as empty: the document has neither list section, and the handler returns the download exactly when the header encodes |

## Left out

- Gemini itself (`genai.configure`, `GenerativeModel`, `generate_content`): the model is a function parameter from the prompt to a reply text or an exception. A missing response or missing text counts as an empty reply text.
- PyPDF2, python-docx and fitz: an upload carries the page texts and paragraph texts those readers would produce, or their absence when the reader raises. A page whose `extract_text()` is `None` is given as the empty text, which the loop skips just the same.
- `json.loads`: a parameter returning the decoded `Value`, or `None` when it raises.
- The DOCX rendering: font size, bold runs, centring, `doc.save` into a `BytesIO`. A document is its sequence of paragraphs.
- FastAPI routing, form parsing (a missing required field is FastAPI's 422, and an empty form value counts as absent: `purpose=""` takes the default "resume" and an empty `name` is a 422 before `generate_resume` runs, so `Generate.BlankName`'s empty name and `Gateway.PromptsDiffer`'s empty purpose hold of the handler, not of an HTTP request), CORS, the streaming of the response body and its media type, and uvicorn startup. Of the `StreamingResponse` headers only the Latin-1 encoding of `Content-Disposition` is modelled.
- The temporary file of `/analyze`: creating it, copying the upload into it and removing it in a `finally` block are file-system effects; only the extraction result is modelled. Creating it can fail: `NamedTemporaryFile(delete=False, suffix=suffix)` (backend/main.py:95) raises when the suffix holds a NUL or makes the name longer than the file system allows (say "cv." followed by 300 letters). That happens before any reader runs and outside any `try`, so `/analyze` ends in an unhandled 500, where `Analyze.AnalyzeResume` reads such an upload as plain text.
- The text-mode read of a plain-text upload (UTF-8 with `errors="ignore"` and universal newlines, which turn "\r\n" and a lone "\r" into "\n"): the upload carries the text that read gives.
- `GET /` (a constant greeting) and `POST /analyze_resume` (backend/main.py:132-150, text from fitz followed by a Gemini call).
- backend/public/script.js: the browser side is not part of this model.
- PyText.Lower: only ASCII capitals are lower-cased; Python's full Unicode case mapping is not modelled, which only matters for non-ASCII extensions.
- Extract.SplitExt: `os.path.splitext` is modelled for POSIX paths, with '/' as the only separator.
- The floating-point values of decoded JSON numbers are not modelled; a non-integral number keeps its literal. `/generate` only ever asks for its type, but `/analyze` sends it back to the client.
- Analyze.Respond: FastAPI's JSON rendering of `ai_parsed` is not modelled. A reply holding `NaN`, `Infinity` or a number too large for a float (such as `1e400`) decodes, but rendering rejects non-finite floats, so the request ends in a 500 that the model does not show. A finite float is printed back in Python's own form, not echoed as its literal.
- Generate.AnswerFails: python-docx raises `ValueError` for text that XML 1.0 forbids, such as a NUL or another control character other than tab, newline and carriage return inside the name, the summary or an entry field. The handler then answers 500. The model does not capture this failure, because which characters fail depends on python-docx and lxml, which are not part of this model. The lemma is also about the handler's answer and not about the HTTP exchange: a safe name with a carriage return or a line feed inside it, such as "Jane\nDoe", encodes as Latin-1, so the handler returns the download, but uvicorn's HTTP layer (h11 or httptools) then refuses the header value and closes the connection without sending a document. The server's validation of header values is not part of this model.
- Generate.AnswerError: for the same reason, the model never gives a failure message that comes from python-docx's `ValueError`.
- Generate.GenerateResume: a document whose text python-docx rejects is answered here with the download, or with the header error, instead of the `ValueError` 500.
- Generate.MalformedListsLeftOut: "returns the download exactly when the header encodes" holds only for text python-docx accepts, and it is about the handler's answer: a name with a carriage return or line feed inside it gets the download from the handler, but the server refuses that header and the client receives no document.
