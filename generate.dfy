/**
 * `POST /generate` (backend/main.py): the resume document laid out block by block, and the
 * download file name. Font sizes, bold runs, alignment and the DOCX bytes are outside the
 * model; a document is the sequence of paragraphs it receives, in order.
 */
module Generate {
  import opened Wrappers
  import opened PyText
  import opened Json

  /** One paragraph of the generated document. */
  datatype Block =
    | Header(text: string)     // the name line
    | Contact(text: string)    // the contact line under it
    | Blank                    // the empty paragraph after the contact line
    | Heading(text: string)    // a level-1 section heading
    | Para(text: string)       // a plain paragraph
    | BoldLine(text: string)   // a paragraph holding one bold run

  /** The form fields. The two lists arrive as what `json.loads` made of `experience_json`
      and `education_json` (both "[]" when omitted); None stands for a decoding error. */
  datatype Form = Form(
    name: string, email: string, phone: string, location: string,
    summary: string, skills: string,
    educationJson: Option<Value>, experienceJson: Option<Value>)

  /** The document download, or the 500 answer built from a caught exception. */
  datatype Response = Download(filename: string, blocks: seq<Block>) | Failed(status: int, error: string)

  /** A value computed while building the document, or the exception that stopped it. */
  type Outcome<T> = Result<T, AttributeError>

  const FailurePrefix := "Resume generation failed: "
  const FileSuffix := "_resume.docx"
  const DispositionPrefix := "attachment; filename="
  const DefaultName := "resume"
  const SummaryTitle := "Professional Summary"
  const SkillsTitle := "Key Skills"
  const ExperienceTitle := "Work Experience"
  const EducationTitle := "Education"

  /** A decoded list is used as it is; anything else, or a decoding error, gives no entries. */
  function AsList(parsed: Option<Value>): (r: seq<Value>)
    ensures parsed.Some? && parsed.value.JArr? ==> r == parsed.value.items
    ensures !(parsed.Some? && parsed.value.JArr?) ==> r == []
  {
    if parsed.Some? && parsed.value.JArr? then parsed.value.items else []
  }

  /** `name.strip() or "resume"`: never empty and never padded with whitespace. */
  function SafeName(name: string): (r: string)
    ensures r != "" && !IsSpace(r[0]) && !IsSpace(r[|r| - 1])
    ensures !AllSpace(name) ==> r == Strip(name)
    ensures AllSpace(name) ==> r == DefaultName
  {
    var stripped := Strip(name);
    if stripped != "" then stripped else DefaultName
  }

  lemma NoSpaceAppended(stem: string)
    requires ' ' !in stem
    ensures ' ' !in stem + FileSuffix
  {
    assert ' ' !in FileSuffix;
    forall i | 0 <= i < |stem + FileSuffix| ensures (stem + FileSuffix)[i] != ' ' {
      if i >= |stem| { assert (stem + FileSuffix)[i] == FileSuffix[i - |stem|]; }
    }
  }

  /** The download name `f"{safe_name.replace(' ','_')}_resume.docx"`: a stem as long as the
      safe name, then "_resume.docx". */
  function Filename(name: string): (r: string)
    ensures |r| == |SafeName(name)| + |FileSuffix| && |SafeName(name)| > 0
    ensures r[|SafeName(name)|..] == FileSuffix
  {
    ReplaceChar(SafeName(name), ' ', '_') + FileSuffix
  }

  /** The download name is the safe name with every space turned into '_', followed by
      "_resume.docx"; it therefore contains no space. */
  lemma FilenameShape(name: string)
    ensures forall i :: 0 <= i < |SafeName(name)| ==>
      Filename(name)[i] == if SafeName(name)[i] == ' ' then '_' else SafeName(name)[i]
    ensures ' ' !in Filename(name)
  {
    var safe := SafeName(name);
    var stem := ReplaceChar(safe, ' ', '_');
    var file := Filename(name);
    assert file == stem + FileSuffix;
    assert file[|safe|..] == FileSuffix;
    forall i | 0 <= i < |safe| ensures file[i] == if safe[i] == ' ' then '_' else safe[i] {
      assert file[i] == stem[i];
    }
    assert ' ' !in stem by {
      forall i | 0 <= i < |stem| ensures stem[i] != ' ' { }
    }
    NoSpaceAppended(stem);
  }

  /** A name that is empty or all whitespace gives "resume" in the document and the
      download name "resume_resume.docx". */
  lemma BlankName(name: string)
    requires AllSpace(name)
    ensures SafeName(name) == "resume"
    ensures Filename(name) == DefaultName + FileSuffix
  {
    var stem := ReplaceChar(DefaultName, ' ', '_');
    forall i | 0 <= i < |stem| ensures stem[i] == DefaultName[i] {
      assert DefaultName[i] != ' ';
    }
    assert stem == DefaultName;
  }

  /** `" | ".join([email or "", phone or "", location or ""])`: the three fields, in this
      order, with " | " between them. */
  function ContactLine(email: string, phone: string, location: string): (r: string)
    ensures r == email + " | " + phone + " | " + location
  {
    assert [email, phone, location][1..] == [phone, location];
    assert [phone, location][1..] == [location];
    assert Join(" | ", [phone, location]) == phone + " | " + location;
    Join(" | ", [email, phone, location])
  }

  /** The text of a field when the entry is an object and the field is absent or a string;
      "" in every other case. */
  function FieldText(entry: Value, key: string): string {
    if entry.JObj? && key in entry.fields && entry.fields[key].JStr?
    then Strip(entry.fields[key].s) else ""
  }

  /** An object whose field `key` is absent or a string. */
  predicate Readable(entry: Value, key: string) {
    entry.JObj? && (key in entry.fields ==> entry.fields[key].JStr?)
  }

  /** `entry.get(key, "").strip()`: raises when the entry is not an object, or when the
      field is present but not a string. */
  function Field(entry: Value, key: string): (r: Outcome<string>)
    ensures r.Ok? <==> Readable(entry, key)
    ensures r.Ok? ==> r.value == FieldText(entry, key)
  {
    if !entry.JObj? then Err(AttributeError(entry, "get"))
    else if key !in entry.fields then Ok(Strip(""))
    else match entry.fields[key]
      case JStr(s) => Ok(Strip(s))
      case v => Err(AttributeError(v, "strip"))
  }

  /** The two exceptions a field read raises: `get` on a value that is not an object, and
      `strip` on a field that is not a string; the message names the offending type. */
  lemma FieldErrors(entry: Value, key: string)
    ensures !entry.JObj? ==> Field(entry, key) == Err(AttributeError(entry, "get"))
    ensures entry.JObj? && key in entry.fields && !entry.fields[key].JStr? ==>
      Field(entry, key) == Err(AttributeError(entry.fields[key], "strip"))
  {
  }

  /** An experience entry all four of whose fields can be read. */
  predicate ValidExperience(entry: Value) {
    Readable(entry, "title") && Readable(entry, "company")
    && Readable(entry, "duration") && Readable(entry, "description")
  }

  /** An education entry all three of whose fields can be read. */
  predicate ValidEducation(entry: Value) {
    Readable(entry, "degree") && Readable(entry, "institution") && Readable(entry, "year")
  }

  function Headline(title: string, company: string, duration: string): string {
    title + " \U{2014} " + company + " (" + duration + ")"
  }

  function EducationLine(degree: string, institution: string, year: string): string {
    degree + ", " + institution + " (" + year + ")"
  }

  /** One experience entry: all four fields are read before the test, so an unreadable
      description fails even an entry that would be skipped. */
  function ExperienceEntry(entry: Value): (r: Outcome<seq<Block>>)
    ensures r.Ok? <==> ValidExperience(entry)
  {
    var title :- Field(entry, "title");
    var company :- Field(entry, "company");
    var duration :- Field(entry, "duration");
    var description :- Field(entry, "description");
    if title != "" || company != "" || duration != "" then
      Ok([BoldLine(Headline(title, company, duration))]
         + if description != "" then [Para(description)] else [])
    else
      Ok([])
  }

  /** One education entry: a bold line unless degree, institution and year are all empty. */
  function EducationEntry(entry: Value): (r: Outcome<seq<Block>>)
    ensures r.Ok? <==> ValidEducation(entry)
  {
    var degree :- Field(entry, "degree");
    var institution :- Field(entry, "institution");
    var year :- Field(entry, "year");
    if degree != "" || institution != "" || year != "" then
      Ok([BoldLine(EducationLine(degree, institution, year))])
    else
      Ok([])
  }

  /** A valid experience entry gives nothing when title, company and duration are all
      blank; otherwise its bold headline, followed by the description when there is one. */
  lemma ExperienceEntryShape(entry: Value)
    requires ValidExperience(entry)
    ensures var blocks := ExperienceEntry(entry).value;
      var title, company := FieldText(entry, "title"), FieldText(entry, "company");
      var duration, description := FieldText(entry, "duration"), FieldText(entry, "description");
      && (blocks == [] <==> title == "" && company == "" && duration == "")
      && (blocks != [] ==> blocks[0] == BoldLine(Headline(title, company, duration)))
      && |blocks| <= 2
      && (|blocks| == 2 <==> blocks != [] && description != "")
      && (|blocks| == 2 ==> blocks[1] == Para(description))
  {
    var _ := Field(entry, "title");
    var _ := Field(entry, "company");
    var _ := Field(entry, "duration");
    var _ := Field(entry, "description");
  }

  /** A valid education entry gives nothing when degree, institution and year are all
      blank, and its one bold line otherwise. */
  lemma EducationEntryShape(entry: Value)
    requires ValidEducation(entry)
    ensures var blocks := EducationEntry(entry).value;
      var degree, institution, year := FieldText(entry, "degree"), FieldText(entry, "institution"), FieldText(entry, "year");
      && (blocks == [] <==> degree == "" && institution == "" && year == "")
      && (blocks != [] ==> blocks == [BoldLine(EducationLine(degree, institution, year))])
  {
    var _ := Field(entry, "degree");
    var _ := Field(entry, "institution");
    var _ := Field(entry, "year");
  }

  /** The description is read before the entry is checked, so an unreadable description
      fails the whole request even when the entry itself would be skipped. */
  lemma DescriptionAlwaysRead(entry: Value)
    requires entry.JObj? && "description" in entry.fields && !entry.fields["description"].JStr?
    ensures ExperienceEntry(entry).Err?
  {
  }

  /** The two entry lists of the form. */
  datatype ListKind = ExperienceList | EducationList

  function Render(kind: ListKind, entry: Value): Outcome<seq<Block>> {
    match kind
    case ExperienceList => ExperienceEntry(entry)
    case EducationList => EducationEntry(entry)
  }

  /** The result of every entry of a list, in input order. */
  function Rendered(kind: ListKind, entries: seq<Value>): (r: seq<Outcome<seq<Block>>>)
    ensures |r| == |entries|
  {
    if entries == [] then []
    else Rendered(kind, entries[..|entries| - 1]) + [Render(kind, entries[|entries| - 1])]
  }

  /** The result at position `i` is that of the entry at position `i`. */
  lemma {:induction false} RenderedAt(kind: ListKind, entries: seq<Value>, i: nat)
    requires i < |entries|
    ensures Rendered(kind, entries)[i] == Render(kind, entries[i])
  {
    if i < |entries| - 1 {
      var init := entries[..|entries| - 1];
      RenderedAt(kind, init, i);
      assert init[i] == entries[i];
    }
  }

  /** The `for` loop over entries already turned into results: their blocks in order,
      stopping at the first exception. Defined from the last result back, as the loop
      extends its document. */
  function Collect(results: seq<Outcome<seq<Block>>>): Outcome<seq<Block>> {
    if results == [] then Ok([])
    else
      match Collect(results[..|results| - 1])
      case Err(e) => Err(e)
      case Ok(blocks) =>
        match results[|results| - 1]
        case Err(e) => Err(e)
        case Ok(more) => Ok(blocks + more)
  }

  /** The loop over a list of entries. */
  function RenderAll(kind: ListKind, entries: seq<Value>): Outcome<seq<Block>> {
    Collect(Rendered(kind, entries))
  }

  /** The loop succeeds exactly when every result is a success. */
  lemma CollectOk(results: seq<Outcome<seq<Block>>>)
    ensures Collect(results).Ok? <==> forall i :: 0 <= i < |results| ==> results[i].Ok?
  {
    if Collect(results).Ok? {
      CollectOkEach(results);
    } else {
      CollectFirstError(results);
    }
  }

  lemma {:induction false} CollectOkEach(results: seq<Outcome<seq<Block>>>)
    requires Collect(results).Ok?
    ensures forall i :: 0 <= i < |results| ==> results[i].Ok?
  {
    if results != [] {
      var init := results[..|results| - 1];
      CollectOkEach(init);
      forall i | 0 <= i < |results| ensures results[i].Ok? {
        if i < |init| {
          assert results[i] == init[i];
        }
      }
    }
  }

  /** A failing loop reports the exception of its first failing result. */
  lemma {:induction false} CollectFirstError(results: seq<Outcome<seq<Block>>>)
    requires Collect(results).Err?
    ensures exists i :: 0 <= i < |results| && results[i] == Err(Collect(results).error)
                     && forall j :: 0 <= j < i ==> results[j].Ok?
  {
    var init := results[..|results| - 1];
    assert forall i :: 0 <= i < |init| ==> init[i] == results[i];
    if Collect(init).Err? {
      CollectFirstError(init);
    } else {
      CollectOkEach(init);
    }
  }

  /** Once a result fails, the whole loop fails with its exception. */
  lemma {:induction false} CollectStops(results: seq<Outcome<seq<Block>>>, n: nat, e: AttributeError)
    requires n < |results|
    requires Collect(results[..n]).Ok? && results[n] == Err(e)
    ensures Collect(results) == Err(e)
    decreases |results|
  {
    if n + 1 == |results| {
      assert results[..n] == results[..|results| - 1];
    } else {
      assert results[..|results| - 1][..n] == results[..n];
      CollectStops(results[..|results| - 1], n, e);
    }
  }

  /** One more successful result extends the loop's output by its blocks. */
  lemma CollectSnoc(results: seq<Outcome<seq<Block>>>, n: nat)
    requires n < |results|
    requires Collect(results[..n]).Ok? && results[n].Ok?
    ensures Collect(results[..n + 1]) == Ok(Collect(results[..n]).value + results[n].value)
  {
    assert results[..n + 1][..n] == results[..n];
  }

  /** The output of two consecutive runs of results is that of the first run followed by
      that of the second. */
  lemma {:induction false} CollectAppend(a: seq<Outcome<seq<Block>>>, b: seq<Outcome<seq<Block>>>)
    requires Collect(a).Ok? && Collect(b).Ok?
    ensures Collect(a + b) == Ok(Collect(a).value + Collect(b).value)
  {
    if b == [] {
      assert a + b == a && Collect(a).value + [] == Collect(a).value;
    } else {
      var init := b[..|b| - 1];
      assert (a + b)[..|a + b| - 1] == a + init && (a + b)[|a + b| - 1] == b[|b| - 1];
      CollectAppend(a, init);
      var x, y, z := Collect(a).value, Collect(init).value, b[|b| - 1].value;
      assert (x + y) + z == x + (y + z);
    }
  }

  /** The loop over a list succeeds exactly when every entry renders. */
  lemma RenderAllOk(kind: ListKind, entries: seq<Value>)
    ensures RenderAll(kind, entries).Ok? <==> forall i :: 0 <= i < |entries| ==> Render(kind, entries[i]).Ok?
  {
    var results := Rendered(kind, entries);
    CollectOk(results);
    forall i | 0 <= i < |entries| ensures results[i] == Render(kind, entries[i]) {
      RenderedAt(kind, entries, i);
    }
  }

  /** A failing loop over a list reports the exception of its first failing entry. */
  lemma RenderAllFirstError(kind: ListKind, entries: seq<Value>)
    requires RenderAll(kind, entries).Err?
    ensures exists i :: 0 <= i < |entries| && Render(kind, entries[i]) == Err(RenderAll(kind, entries).error)
                     && forall j :: 0 <= j < i ==> Render(kind, entries[j]).Ok?
  {
    var results := Rendered(kind, entries);
    CollectFirstError(results);
    var i :| 0 <= i < |results| && results[i] == Err(Collect(results).error)
             && forall j :: 0 <= j < i ==> results[j].Ok?;
    forall j | 0 <= j <= i ensures results[j] == Render(kind, entries[j]) {
      RenderedAt(kind, entries, j);
    }
  }

  lemma {:induction false} RenderedAppend(kind: ListKind, a: seq<Value>, b: seq<Value>)
    ensures Rendered(kind, a + b) == Rendered(kind, a) + Rendered(kind, b)
  {
    if b == [] {
      assert a + b == a;
    } else {
      var init, last := b[..|b| - 1], b[|b| - 1];
      assert (a + b)[..|a + b| - 1] == a + init && (a + b)[|a + b| - 1] == last;
      RenderedAppend(kind, a, init);
    }
  }

  /** Entries keep their input order: the blocks of two consecutive runs of entries are
      the blocks of the first run followed by those of the second. */
  lemma RenderAllAppend(kind: ListKind, a: seq<Value>, b: seq<Value>)
    requires RenderAll(kind, a).Ok? && RenderAll(kind, b).Ok?
    ensures RenderAll(kind, a + b) == Ok(RenderAll(kind, a).value + RenderAll(kind, b).value)
  {
    var ra, rb := Rendered(kind, a), Rendered(kind, b);
    RenderedAppend(kind, a, b);
    CollectAppend(ra, rb);
  }

  /** A section heading with its entries, present exactly when the list is non-empty. */
  function Section(title: string, kind: ListKind, entries: seq<Value>): Outcome<seq<Block>> {
    if |entries| == 0 then Ok([])
    else
      match RenderAll(kind, entries)
      case Err(e) => Err(e)
      case Ok(blocks) => Ok([Heading(title)] + blocks)
  }

  /** A heading and the stripped text, present exactly when the stripped text is non-empty. */
  function TextSection(title: string, text: string): seq<Block> {
    if Strip(text) != "" then [Heading(title), Para(Strip(text))] else []
  }

  function Preamble(f: Form): seq<Block> {
    [Header(SafeName(f.name)), Contact(ContactLine(f.email, f.phone, f.location)), Blank]
  }

  /** The paragraphs of the document: header, contact line, blank line, then summary, skills,
      experience and education; or the exception raised while building them. */
  function Layout(f: Form): (r: Outcome<seq<Block>>)
    ensures r.Ok? ==> Preamble(f) <= r.value
  {
    var head := Preamble(f) + TextSection(SummaryTitle, f.summary) + TextSection(SkillsTitle, f.skills);
    match Section(ExperienceTitle, ExperienceList, AsList(f.experienceJson))
    case Err(e) => Err(e)
    case Ok(experience) =>
      match Section(EducationTitle, EducationList, AsList(f.educationJson))
      case Err(e) => Err(e)
      case Ok(education) => Ok(head + experience + education)
  }

  /** The `Content-Disposition` header value of the download. */
  function Disposition(name: string): string {
    DispositionPrefix + Filename(name)
  }

  /** Every character of the safe name is one the Latin-1 codec can encode. */
  predicate Latin1Name(name: string) {
    forall k :: 0 <= k < |SafeName(name)| ==> Latin1(SafeName(name)[k])
  }

  lemma LiteralsLatin1()
    ensures forall k :: 0 <= k < |DispositionPrefix| ==> Latin1(DispositionPrefix[k])
    ensures forall k :: 0 <= k < |FileSuffix| ==> Latin1(FileSuffix[k])
  {
  }

  /** The characters of a Latin-1 prefix and suffix around a name whose spaces became '_'. */
  lemma WrappedAt(pre: string, safe: string, post: string, k: nat)
    requires forall i :: 0 <= i < |pre| ==> Latin1(pre[i])
    requires forall i :: 0 <= i < |post| ==> Latin1(post[i])
    requires k < |pre| + |safe| + |post|
    ensures var d := pre + ReplaceChar(safe, ' ', '_') + post;
      && |d| == |pre| + |safe| + |post|
      && (k < |pre| || |pre| + |safe| <= k ==> Latin1(d[k]))
      && (|pre| <= k < |pre| + |safe| ==> (Latin1(d[k]) <==> Latin1(safe[k - |pre|])))
      && (|pre| <= k < |pre| + |safe| && !Latin1(d[k]) ==> d[k] == safe[k - |pre|])
  {
    var stem := ReplaceChar(safe, ' ', '_');
    var d := pre + stem + post;
    if k < |pre| {
      assert d[k] == pre[k];
    } else if k < |pre| + |safe| {
      assert d[k] == stem[k - |pre|];
    } else {
      assert d[k] == post[k - |pre| - |safe|];
    }
  }

  /** Which characters of the header value are those of the safe name. */
  lemma DispositionAt(name: string, k: nat)
    requires k < |Disposition(name)|
    ensures |Disposition(name)| == |DispositionPrefix| + |SafeName(name)| + |FileSuffix|
    ensures k < |DispositionPrefix| || |DispositionPrefix| + |SafeName(name)| <= k ==>
      Latin1(Disposition(name)[k])
    ensures |DispositionPrefix| <= k < |DispositionPrefix| + |SafeName(name)| ==>
      (Latin1(Disposition(name)[k]) <==> Latin1(SafeName(name)[k - |DispositionPrefix|]))
    ensures |DispositionPrefix| <= k < |DispositionPrefix| + |SafeName(name)| && !Latin1(Disposition(name)[k]) ==>
      Disposition(name)[k] == SafeName(name)[k - |DispositionPrefix|]
  {
    assert Disposition(name) == DispositionPrefix + ReplaceChar(SafeName(name), ' ', '_') + FileSuffix;
    LiteralsLatin1();
    WrappedAt(DispositionPrefix, SafeName(name), FileSuffix, k);
  }

  /** The download header encodes exactly when the safe name is all Latin-1. Otherwise the
      error starts at the first character of the safe name outside Latin-1, its run ends
      within the name, and positions count from the start of the header value. */
  lemma DispositionEncoding(name: string)
    ensures EncodeLatin1(Disposition(name)).Ok? <==> Latin1Name(name)
    ensures EncodeLatin1(Disposition(name)).Err? ==>
      var e, safe := EncodeLatin1(Disposition(name)).error, SafeName(name);
      && |DispositionPrefix| <= e.start < e.end <= |DispositionPrefix| + |safe|
      && e.bad == safe[e.start - |DispositionPrefix|]
      && forall k :: 0 <= k < e.start - |DispositionPrefix| ==> Latin1(safe[k])
  {
    var safe, d, p := SafeName(name), Disposition(name), |DispositionPrefix|;
    var r := EncodeLatin1(d);
    DispositionAt(name, 0);
    if r.Ok? {
      forall k | 0 <= k < |safe| ensures Latin1(safe[k]) {
        DispositionAt(name, k + p);
      }
    } else {
      var e := r.error;
      DispositionAt(name, e.start);
      DispositionAt(name, p + |safe|);
      forall k | 0 <= k < e.start - p ensures Latin1(safe[k]) {
        DispositionAt(name, k + p);
      }
    }
  }

  /** The answer of `/generate`: the exception raised while building the document, or the
      one raised when the response encodes its header as Latin-1, becomes a 500 carrying
      the prefixed message; otherwise the document is downloaded under its file name. */
  function Answer(f: Form): (r: Response)
    ensures r.Failed? ==> r.status == 500 && FailurePrefix <= r.error
    ensures r.Download? ==> r.filename == Filename(f.name) && Layout(f) == Ok(r.blocks)
  {
    match Layout(f)
    case Err(e) => Failed(500, FailurePrefix + Message(e))
    case Ok(blocks) =>
      match EncodeLatin1(Disposition(f.name))
      case Err(e) => Failed(500, FailurePrefix + EncodeErrorMessage(e))
      case Ok(_) => Download(Filename(f.name), blocks)
  }

  /** `doc` extended by a section, or the section's exception. */
  function Extend(doc: seq<Block>, section: Outcome<seq<Block>>): Outcome<seq<Block>> {
    match section
    case Ok(blocks) => Ok(doc + blocks)
    case Err(e) => Err(e)
  }

  /** One pass of the experience loop: reads the four fields (the first unreadable one
      raises), then appends the bold line and, when there is one, the description. */
  method AddExperienceEntry(doc: seq<Block>, entry: Value) returns (r: Outcome<seq<Block>>)
    ensures r == Extend(doc, Render(ExperienceList, entry))
  {
    var title, company := Field(entry, "title"), Field(entry, "company");
    var duration, description := Field(entry, "duration"), Field(entry, "description");
    if title.Err? {
      return Err(title.error);
    } else if company.Err? {
      return Err(company.error);
    } else if duration.Err? {
      return Err(duration.error);
    } else if description.Err? {
      return Err(description.error);
    }
    var out := doc;
    if title.value != "" || company.value != "" || duration.value != "" {
      out := out + [BoldLine(Headline(title.value, company.value, duration.value))];
      if description.value != "" {
        out := out + [Para(description.value)];
      }
    }
    assert out == doc + ExperienceEntry(entry).value;
    return Ok(out);
  }

  /** One pass of the education loop: reads the three fields, then appends the bold line. */
  method AddEducationEntry(doc: seq<Block>, entry: Value) returns (r: Outcome<seq<Block>>)
    ensures r == Extend(doc, Render(EducationList, entry))
  {
    var degree, institution, year := Field(entry, "degree"), Field(entry, "institution"), Field(entry, "year");
    if degree.Err? {
      return Err(degree.error);
    } else if institution.Err? {
      return Err(institution.error);
    } else if year.Err? {
      return Err(year.error);
    }
    var out := doc;
    if degree.value != "" || institution.value != "" || year.value != "" {
      out := out + [BoldLine(EducationLine(degree.value, institution.value, year.value))];
    }
    assert out == doc + EducationEntry(entry).value;
    return Ok(out);
  }

  method AddEntry(doc: seq<Block>, kind: ListKind, entry: Value) returns (r: Outcome<seq<Block>>)
    ensures r == Extend(doc, Render(kind, entry))
  {
    if kind == ExperienceList {
      r := AddExperienceEntry(doc, entry);
    } else {
      r := AddEducationEntry(doc, entry);
    }
  }

  /** The `for` loop over one list: appends each entry's blocks to `doc`, stopping at
      the first exception. */
  method AddEntries(doc: seq<Block>, kind: ListKind, entries: seq<Value>) returns (r: Outcome<seq<Block>>)
    ensures r == Extend(doc, RenderAll(kind, entries))
  {
    ghost var results := Rendered(kind, entries);
    var out := doc;
    var i := 0;
    assert results[..i] == [] && out[|doc|..] == [];
    while i < |entries|
      invariant 0 <= i <= |entries|
      invariant doc <= out
      invariant Collect(results[..i]) == Ok(out[|doc|..])
    {
      var next := AddEntry(out, kind, entries[i]);
      RenderedAt(kind, entries, i);
      if next.Err? {
        CollectStops(results, i, next.error);
        return Err(next.error);
      }
      CollectSnoc(results, i);
      assert next.value[|doc|..] == out[|doc|..] + results[i].value;
      out := next.value;
      i := i + 1;
    }
    assert results[..i] == results;
    assert out == doc + out[|doc|..];
    return Ok(out);
  }

  /** A list section of `generate_resume`: the heading when the list is non-empty, then the
      loop over the entries. */
  method AddSection(doc: seq<Block>, title: string, kind: ListKind, entries: seq<Value>)
    returns (r: Outcome<seq<Block>>)
    ensures r == Extend(doc, Section(title, kind, entries))
  {
    if |entries| == 0 {
      assert doc + [] == doc;
      return Ok(doc);
    }
    r := AddEntries(doc + [Heading(title)], kind, entries);
    if r.Ok? {
      assert r.value == doc + ([Heading(title)] + RenderAll(kind, entries).value);
    }
  }

  /** The fixed beginning of `generate_resume`: name, contact line, blank line, then the
      summary and skills when they are not blank. */
  method StartDocument(f: Form) returns (doc: seq<Block>)
    ensures doc == Preamble(f) + TextSection(SummaryTitle, f.summary) + TextSection(SkillsTitle, f.skills)
  {
    doc := [];
    doc := doc + [Header(SafeName(f.name))];
    doc := doc + [Contact(ContactLine(f.email, f.phone, f.location))];
    doc := doc + [Blank];
    assert doc == Preamble(f);
    var summary := Strip(f.summary);
    if summary != "" {
      doc := doc + [Heading(SummaryTitle)];
      doc := doc + [Para(summary)];
    }
    assert doc == Preamble(f) + TextSection(SummaryTitle, f.summary);
    ghost var withSummary := doc;
    var skills := Strip(f.skills);
    if skills != "" {
      doc := doc + [Heading(SkillsTitle)];
      doc := doc + [Para(skills)];
    }
    assert doc == withSummary + TextSection(SkillsTitle, f.skills);
  }

  /** `generate_resume`: parses the two lists, names the file, builds the document and
      encodes the download header; an exception anywhere becomes the 500 answer. */
  method GenerateResume(f: Form) returns (resp: Response)
    ensures resp == Answer(f)
  {
    var education := AsList(f.educationJson);
    var experience := AsList(f.experienceJson);
    var filename := Filename(f.name);
    var doc := StartDocument(f);
    var withExperience := AddSection(doc, ExperienceTitle, ExperienceList, experience);
    if withExperience.Err? {
      return Failed(500, FailurePrefix + Message(withExperience.error));
    }
    var complete := AddSection(withExperience.value, EducationTitle, EducationList, education);
    if complete.Err? {
      return Failed(500, FailurePrefix + Message(complete.error));
    }
    var header := EncodeLatin1(DispositionPrefix + filename);
    if header.Err? {
      return Failed(500, FailurePrefix + EncodeErrorMessage(header.error));
    }
    resp := Download(filename, complete.value);
  }

  /** The texts of the headings among `blocks`, in order. */
  function Headings(blocks: seq<Block>): seq<string> {
    if blocks == [] then []
    else (if blocks[0].Heading? then [blocks[0].text] else []) + Headings(blocks[1..])
  }

  lemma {:induction false} HeadingsAppend(a: seq<Block>, b: seq<Block>)
    ensures Headings(a + b) == Headings(a) + Headings(b)
  {
    if a == [] {
      assert a + b == b;
    } else {
      assert (a + b)[0] == a[0] && (a + b)[1..] == a[1..] + b;
      HeadingsAppend(a[1..], b);
    }
  }

  lemma {:induction false} NoHeadings(blocks: seq<Block>)
    requires forall i :: 0 <= i < |blocks| ==> !blocks[i].Heading?
    ensures Headings(blocks) == []
  {
    if blocks != [] {
      NoHeadings(blocks[1..]);
    }
  }

  lemma {:induction false} CollectNoHeadings(results: seq<Outcome<seq<Block>>>)
    requires Collect(results).Ok?
    requires forall i :: 0 <= i < |results| && results[i].Ok? ==> Headings(results[i].value) == []
    ensures Headings(Collect(results).value) == []
  {
    if results != [] {
      var init := results[..|results| - 1];
      CollectNoHeadings(init);
      HeadingsAppend(Collect(init).value, results[|results| - 1].value);
    }
  }

  /** Rendered entries hold bold lines and paragraphs, never a heading. */
  lemma EntriesHaveNoHeadings(kind: ListKind, entries: seq<Value>)
    requires RenderAll(kind, entries).Ok?
    ensures Headings(RenderAll(kind, entries).value) == []
  {
    var results := Rendered(kind, entries);
    forall i | 0 <= i < |results| && results[i].Ok? ensures Headings(results[i].value) == [] {
      RenderedAt(kind, entries, i);
      if kind == ExperienceList {
        ExperienceEntryShape(entries[i]);
      } else {
        EducationEntryShape(entries[i]);
      }
      NoHeadings(results[i].value);
    }
    CollectNoHeadings(results);
  }

  /** `[title]` when the section is present, `[]` otherwise. */
  function Present(title: string, present: bool): seq<string> {
    if present then [title] else []
  }

  /** The sections appear in the fixed order summary, skills, experience, education, each
      exactly when its text is not blank or its list is not empty. */
  lemma LayoutHeadings(f: Form)
    requires Layout(f).Ok?
    ensures Headings(Layout(f).value) ==
      Present(SummaryTitle, Strip(f.summary) != "") + Present(SkillsTitle, Strip(f.skills) != "")
      + Present(ExperienceTitle, AsList(f.experienceJson) != [])
      + Present(EducationTitle, AsList(f.educationJson) != [])
  {
    var summary := TextSection(SummaryTitle, f.summary);
    var skills := TextSection(SkillsTitle, f.skills);
    var experience := Section(ExperienceTitle, ExperienceList, AsList(f.experienceJson)).value;
    var education := Section(EducationTitle, EducationList, AsList(f.educationJson)).value;
    LayoutParts(f);
    NoHeadings(Preamble(f));
    TextSectionHeadings(SummaryTitle, f.summary);
    TextSectionHeadings(SkillsTitle, f.skills);
    SectionHeadings(ExperienceTitle, ExperienceList, AsList(f.experienceJson));
    SectionHeadings(EducationTitle, EducationList, AsList(f.educationJson));
    HeadingsOfParts(Preamble(f), summary, skills, experience, education);
  }

  lemma HeadingsOfParts(p: seq<Block>, s1: seq<Block>, s2: seq<Block>, s3: seq<Block>, s4: seq<Block>)
    requires Headings(p) == []
    ensures Headings(p + s1 + s2 + s3 + s4) == Headings(s1) + Headings(s2) + Headings(s3) + Headings(s4)
  {
    HeadingsAppend(p, s1);
    HeadingsAppend(p + s1, s2);
    HeadingsAppend(p + s1 + s2, s3);
    HeadingsAppend(p + s1 + s2 + s3, s4);
  }

  lemma LayoutParts(f: Form)
    requires Layout(f).Ok?
    ensures Section(ExperienceTitle, ExperienceList, AsList(f.experienceJson)).Ok?
    ensures Section(EducationTitle, EducationList, AsList(f.educationJson)).Ok?
    ensures Layout(f).value == Preamble(f) + TextSection(SummaryTitle, f.summary)
      + TextSection(SkillsTitle, f.skills)
      + Section(ExperienceTitle, ExperienceList, AsList(f.experienceJson)).value
      + Section(EducationTitle, EducationList, AsList(f.educationJson)).value
  {
  }

  lemma TextSectionHeadings(title: string, text: string)
    ensures Headings(TextSection(title, text)) == Present(title, Strip(text) != "")
  {
    var blocks := TextSection(title, text);
    if Strip(text) != "" {
      assert blocks[1..] == [Para(Strip(text))] && blocks[1..][1..] == [];
      assert Headings(blocks[1..]) == [];
    }
  }

  lemma SectionHeadings(title: string, kind: ListKind, entries: seq<Value>)
    requires Section(title, kind, entries).Ok?
    ensures Headings(Section(title, kind, entries).value) == Present(title, entries != [])
  {
    if entries != [] {
      EntriesHaveNoHeadings(kind, entries);
      HeadingsAppend([Heading(title)], RenderAll(kind, entries).value);
    }
  }

  /** The document opens with the name, the contact line and an empty paragraph. */
  lemma LayoutStart(f: Form)
    requires Layout(f).Ok?
    ensures |Layout(f).value| >= 3
    ensures Layout(f).value[0] == Header(SafeName(f.name))
    ensures Layout(f).value[1] == Contact(f.email + " | " + f.phone + " | " + f.location)
    ensures Layout(f).value[2] == Blank
  {
  }

  /** The request fails exactly when some experience or education entry cannot be read,
      or when the safe name holds a character outside Latin-1, so that the download header
      cannot be encoded. */
  lemma AnswerFails(f: Form)
    ensures Answer(f).Failed? <==>
      || (exists i :: 0 <= i < |AsList(f.experienceJson)| && !ValidExperience(AsList(f.experienceJson)[i]))
      || (exists i :: 0 <= i < |AsList(f.educationJson)| && !ValidEducation(AsList(f.educationJson)[i]))
      || !Latin1Name(f.name)
  {
    var experience, education := AsList(f.experienceJson), AsList(f.educationJson);
    RenderAllOk(ExperienceList, experience);
    RenderAllOk(EducationList, education);
    DispositionEncoding(f.name);
  }

  /** The message of a failure is that of the first unreadable experience entry; or, when
      every experience entry is readable, that of the first unreadable education entry; or,
      when every entry is readable, that of the header's Latin-1 encoding error. */
  lemma AnswerError(f: Form)
    requires Answer(f).Failed?
    ensures var experience, education := AsList(f.experienceJson), AsList(f.educationJson);
      || (exists e ::
            && Answer(f).error == FailurePrefix + Message(e)
            && (|| (exists i :: 0 <= i < |experience| && ExperienceEntry(experience[i]) == Err(e)
                     && forall j :: 0 <= j < i ==> ValidExperience(experience[j]))
                || ((forall j :: 0 <= j < |experience| ==> ValidExperience(experience[j]))
                    && (exists i :: 0 <= i < |education| && EducationEntry(education[i]) == Err(e)
                          && forall j :: 0 <= j < i ==> ValidEducation(education[j])))))
      || (&& (forall j :: 0 <= j < |experience| ==> ValidExperience(experience[j]))
          && (forall j :: 0 <= j < |education| ==> ValidEducation(education[j]))
          && EncodeLatin1(Disposition(f.name)).Err?
          && Answer(f).error == FailurePrefix + EncodeErrorMessage(EncodeLatin1(Disposition(f.name)).error))
  {
    var experience, education := AsList(f.experienceJson), AsList(f.educationJson);
    if RenderAll(ExperienceList, experience).Err? {
      RenderAllFirstError(ExperienceList, experience);
    } else if RenderAll(EducationList, education).Err? {
      RenderAllOk(ExperienceList, experience);
      RenderAllFirstError(EducationList, education);
    } else {
      RenderAllOk(ExperienceList, experience);
      RenderAllOk(EducationList, education);
    }
  }

  /** A name such as "\u0141ukasz" cannot go into the download header: the 500 message names
      the character and its position in the header value. */
  lemma WideNameMessage(f: Form)
    requires Layout(f).Ok? && SafeName(f.name) == "\U{0141}ukasz"
    ensures Answer(f) == Failed(500, FailurePrefix + EncodeErrorMessage(UnicodeEncodeError(21, 22, '\U{0141}')))
  {
    var safe := SafeName(f.name);
    DispositionEncoding(f.name);
    assert !Latin1(safe[0]) && Latin1(safe[1]);
    var r := EncodeLatin1(Disposition(f.name));
    assert r.Err?;
    assert r.error.start == 21;
    DispositionAt(f.name, 22);
    assert r.error == UnicodeEncodeError(21, 22, '\U{0141}');
  }

  /** Lists that are not JSON arrays, or that do not decode, leave their sections out; the
      document is then downloaded whenever its header encodes. */
  lemma MalformedListsLeftOut(f: Form)
    requires !(f.experienceJson.Some? && f.experienceJson.value.JArr?)
    requires !(f.educationJson.Some? && f.educationJson.value.JArr?)
    ensures Layout(f) == Ok(Preamble(f) + TextSection(SummaryTitle, f.summary) + TextSection(SkillsTitle, f.skills))
    ensures Answer(f).Download? <==> Latin1Name(f.name)
  {
    var head := Preamble(f) + TextSection(SummaryTitle, f.summary) + TextSection(SkillsTitle, f.skills);
    assert Section(ExperienceTitle, ExperienceList, AsList(f.experienceJson)) == Ok([]);
    assert Section(EducationTitle, EducationList, AsList(f.educationJson)) == Ok([]);
    assert head + [] + [] == head;
    DispositionEncoding(f.name);
  }
}
