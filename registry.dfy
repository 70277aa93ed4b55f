/** The artifact registry `processed_files` of quiz-generator-api.py and the
    request handlers that read and update it. The external adapters (PDF
    extraction, summary and quiz generation), `uuid.uuid4` and
    `secure_filename` are parameters of the handlers; each handler also
    reports what it passed to the adapter it invoked, so that "not invoked"
    can be stated. */
module Registry {
  import opened Wrappers
  import opened Json
  import opened Filenames

  type Id = string
  type Path = string

  const UploadFolder: string := "uploads"
  const ProcessedFolder: string := "processed"
  const DefaultNumQuestions: Json := JInt(20)
  /** `str()` of werkzeug's `NotFound` with its default description. */
  const NotFoundMessage: string :=
    "404 Not Found: The requested URL was not found on the server. If you entered the URL manually please check your spelling and try again."

  /** One entry of `processed_files`. */
  datatype Record = Record(
    filename: string,
    filePath: Path,
    text: string,
    summary: Option<string>,
    quiz: Option<Json>)

  /** The projection shared by file-info and list-files. */
  datatype FileInfo = FileInfo(
    fileId: Id,
    filename: string,
    contentLength: nat,
    hasSummary: bool,
    hasQuiz: bool)

  /** The JSON bodies the handlers send back; an absent `summary_file` or
      `quiz_file` key is `None`. `Attachment` is the file that
      `send_from_directory` streams. */
  datatype Body =
    | ErrorBody(error: string)
    | UploadBody(message: string, fileId: Id, filename: string, contentLength: nat)
    | SummaryBody(message: string, fileId: Id, summary: string, summaryFile: Option<string>)
    | QuizBody(message: string, fileId: Id, quizFile: Option<string>, quiz: Json)
    | InfoBody(info: FileInfo)
    | ListBody(message: string, files: seq<FileInfo>, totalFiles: nat)
    | Attachment(directory: string, filename: string)

  datatype Response = Response(status: nat, body: Body)

  /** The arguments of one call to the quiz generator. */
  datatype QuizRequest = QuizRequest(text: string, numQuestions: Json)

  /** Python truthiness of an optional string: `None` and `""` are false. */
  predicate HasText(s: Option<string>)
    ensures HasText(s) <==> s != None && s != Some("")
  {
    s.Some? && s.value != ""
  }

  /** `os.path.join(folder, name)` for a relative `name`. */
  function Join(folder: string, name: string): Path
  {
    folder + "/" + name
  }

  /** `os.path.join(UPLOAD_FOLDER, f"{file_id}_{filename}")`: under the
      upload folder, the id, then '_', then the sanitised name. */
  function UploadPath(id: Id, filename: string): (p: Path)
    ensures |p| == |UploadFolder| + |id| + |filename| + 2
    ensures p[..|UploadFolder| + 1] == UploadFolder + "/"
    ensures p[|UploadFolder| + 1..] == id + "_" + filename
  {
    Join(UploadFolder, id + "_" + filename)
  }

  /** `f"{file_id}_summary.txt"`: the id, then a fixed suffix. */
  function SummaryFileName(id: Id): (name: string)
    ensures |name| == |id| + 12
    ensures name[..|id|] == id && name[|id|..] == "_summary.txt"
  {
    id + "_summary.txt"
  }

  /** `f"{file_id}_quiz.json"`: the id, then a fixed suffix. */
  function QuizFileName(id: Id): (name: string)
    ensures |name| == |id| + 10
    ensures name[..|id|] == id && name[|id|..] == "_quiz.json"
  {
    id + "_quiz.json"
  }

  /** The dict built by file-info and list-files: the id, the filename, the
      length of the text, and whether summary and quiz are not `None`. */
  function Describe(id: Id, r: Record): (info: FileInfo)
    ensures info.fileId == id && info.filename == r.filename
    ensures info.contentLength == |r.text|
    ensures info.hasSummary <==> r.summary != None
    ensures info.hasQuiz <==> r.quiz != None
  {
    FileInfo(id, r.filename, |r.text|, r.summary.Some?, r.quiz.Some?)
  }

  /** The generated file names never collide: each id has its own summary
      and quiz file, a summary file is never a quiz file, and an uploaded
      source is never stored in the processed folder. */
  lemma GeneratedNamesDistinct(a: Id, b: Id, filename: string, name: string)
    ensures SummaryFileName(a) == SummaryFileName(b) ==> a == b
    ensures QuizFileName(a) == QuizFileName(b) ==> a == b
    ensures SummaryFileName(a) != QuizFileName(b)
    ensures UploadPath(a, filename) != Join(ProcessedFolder, name)
  {
    var sa, sb, qa, qb := SummaryFileName(a), SummaryFileName(b), QuizFileName(a), QuizFileName(b);
    if sa == sb {
      assert |a| == |sa| - 12 == |b|;
      assert a == sa[..|a|] == sb[..|b|] == b;
    }
    if qa == qb {
      assert |a| == |qa| - 10 == |b|;
      assert a == qa[..|a|] == qb[..|b|] == b;
    }
    assert sa[|sa| - 1] == 't' by { assert sa[|a|..][11] == 't'; }
    assert qb[|qb| - 1] == 'n' by { assert qb[|b|..][9] == 'n'; }
    var u := UploadPath(a, filename);
    assert u[0] == 'u' by { assert u[..8][0] == 'u'; }
    assert Join(ProcessedFolder, name)[0] == 'p';
  }

  /** The question count a quiz request asks for: the value stored under
      "num_questions" when the body is a JSON object that has that key, 20
      when the request is not JSON (`body` is `None`) or the key is absent.
      Any other JSON body has no `get` method, and the `AttributeError` it
      raises becomes the error. */
  function NumQuestions(body: Option<Json>): (r: Result<Json, string>)
    ensures body.None? ==> r == Ok(DefaultNumQuestions)
    ensures body.Some? && body.value.JObject? ==>
      r == Ok(if "num_questions" in body.value.members then body.value.members["num_questions"]
              else DefaultNumQuestions)
    ensures r.Err? <==> body.Some? && !body.value.JObject?
  {
    match body
    case None => Ok(DefaultNumQuestions)
    case Some(j) =>
      if j.JObject? then
        Ok(if "num_questions" in j.members then j.members["num_questions"] else DefaultNumQuestions)
      else
        Err("'" + TypeName(j) + "' object has no attribute 'get'")
  }

  ghost predicate Distinct(s: seq<Id>)
  {
    forall i, j :: 0 <= i < j < |s| ==> s[i] != s[j]
  }

  /** What a later request may do to an entry: nothing, except give an unset
      summary or quiz a value. */
  predicate Evolves(before: Record, after: Record)
  {
    after.filename == before.filename &&
    after.filePath == before.filePath &&
    after.text == before.text &&
    (before.summary.Some? ==> after.summary == before.summary) &&
    (before.quiz.Some? ==> after.quiz == before.quiz)
  }

  /** No entry disappears, and each one only evolves. */
  ghost predicate Preserves(before: map<Id, Record>, after: map<Id, Record>)
  {
    forall id :: id in before ==> id in after && Evolves(before[id], after[id])
  }

  /** The relation "entries only evolve" is transitive. */
  lemma PreservesTransitive(m0: map<Id, Record>, m1: map<Id, Record>, m2: map<Id, Record>)
    requires Preserves(m0, m1) && Preserves(m1, m2)
    ensures Preserves(m0, m2)
  {
  }

  /** A run of requests in which every upload uses a fresh id: each step
      preserves the registry, so the last state still holds every entry of the
      first with the summary and quiz it had. */
  lemma {:induction false} PreservedAlongRun(run: seq<map<Id, Record>>)
    requires |run| > 0
    requires forall i :: 0 <= i < |run| - 1 ==> Preserves(run[i], run[i + 1])
    ensures Preserves(run[0], run[|run| - 1])
    ensures forall id :: id in run[0] && run[0][id].summary.Some? ==>
      id in run[|run| - 1] && run[|run| - 1][id].summary == run[0][id].summary
    ensures forall id :: id in run[0] && run[0][id].quiz.Some? ==>
      id in run[|run| - 1] && run[|run| - 1][id].quiz == run[0][id].quiz
  {
    if |run| > 1 {
      var rest := run[1..];
      forall i | 0 <= i < |rest| - 1 ensures Preserves(rest[i], rest[i + 1]) {
        assert rest[i] == run[i + 1] && rest[i + 1] == run[i + 2];
      }
      PreservedAlongRun(rest);
      assert rest[|rest| - 1] == run[|run| - 1];
      PreservesTransitive(run[0], run[1], run[|run| - 1]);
    }
  }

  /** The invariant of one entry: extraction gave text, only truthy results
      are stored, and every file it names has been written. */
  ghost predicate Consistent(id: Id, r: Record, written: set<Path>)
  {
    r.text != "" &&
    r.filePath == UploadPath(id, r.filename) && r.filePath in written &&
    (r.summary.Some? ==> r.summary.value != "" && Join(ProcessedFolder, SummaryFileName(id)) in written) &&
    (r.quiz.Some? ==> Truthy(r.quiz.value) && Join(ProcessedFolder, QuizFileName(id)) in written)
  }

  /** The registry invariant: the iteration order lists every key once, and
      every entry is consistent. */
  ghost predicate WellFormed(files: map<Id, Record>, order: seq<Id>, written: set<Path>)
  {
    Distinct(order) &&
    (forall id :: id in files <==> id in order) &&
    (forall id :: id in files ==> Consistent(id, files[id], written))
  }

  /** Writing more files never breaks the invariant. */
  lemma WrittenGrows(files: map<Id, Record>, order: seq<Id>, written: set<Path>, written': set<Path>)
    requires WellFormed(files, order, written) && written <= written'
    ensures WellFormed(files, order, written')
  {
  }

  /** Storing a consistent record keeps the invariant; a new key goes to the
      end of the order, an existing key keeps its place. */
  lemma StoreKeepsWellFormed(files: map<Id, Record>, order: seq<Id>, written: set<Path>, id: Id, r: Record)
    requires WellFormed(files, order, written) && Consistent(id, r, written)
    ensures WellFormed(files[id := r], if id in files then order else order + [id], written)
  {
  }

  /** The handlers test a stored summary or quiz for truthiness, file-info and
      list-files test it against `None`; consistent entries make the two agree. */
  lemma CachedIffPresent(id: Id, r: Record, written: set<Path>)
    requires Consistent(id, r, written)
    ensures HasText(r.summary) <==> r.summary != None
    ensures (r.quiz.Some? && Truthy(r.quiz.value)) <==> r.quiz != None
  {
  }

  lemma {:induction false} DistinctCardinality(s: seq<Id>)
    requires Distinct(s)
    ensures |set x | x in s| == |s|
  {
    if s != [] {
      var t := s[1..];
      assert Distinct(t);
      DistinctCardinality(t);
      assert (set x | x in s) == {s[0]} + (set x | x in t);
      assert s[0] !in t;
    }
  }

  class Registry {
    /** `processed_files`. */
    var files: map<Id, Record>
    /** The keys of `processed_files` in insertion order, the order in which
        a Python dict is iterated. */
    var order: seq<Id>
    /** The paths of the files the handlers have written. */
    var written: set<Path>

    ghost predicate Valid()
      reads this
    {
      WellFormed(files, order, written)
    }

    constructor ()
      ensures Valid()
      ensures files == map[] && order == [] && written == {}
    {
      files, order, written := map[], [], {};
    }

    /** POST /api/upload-pdf. `upload` is the `file` part of the form (`None`
        when absent) with the client's filename; `fileId` stands for
        `uuid.uuid4()`, `secureName` for `secure_filename(...)`, and
        `extracted` for what `parse_pdf` returns. `parsed` is the path handed
        to the extractor, if it was called. */
    method Upload(upload: Option<string>, fileId: Id, secureName: string, extracted: Option<string>)
      returns (resp: Response, parsed: Option<Path>)
      requires Valid()
      modifies this
      ensures Valid()
      // The input checks, in this order; none of them reaches the extractor.
      ensures upload.None? ==>
        resp == Response(400, ErrorBody("No file provided"))
      ensures upload.Some? && upload.value == "" ==>
        resp == Response(400, ErrorBody("No file selected"))
      ensures upload.Some? && upload.value != "" && !AllowedFile(upload.value) ==>
        resp == Response(400, ErrorBody("Only PDF files are allowed"))
      ensures resp.status == 400 <==> !(upload.Some? && upload.value != "" && AllowedFile(upload.value))
      ensures resp.status == 400 ==> parsed == None && unchanged(this)
      // An accepted file is saved under its id-prefixed name and parsed.
      ensures resp.status != 400 ==>
        parsed == Some(UploadPath(fileId, secureName)) &&
        written == old(written) + {UploadPath(fileId, secureName)}
      ensures resp.status != 400 && !HasText(extracted) ==>
        resp == Response(500, ErrorBody("Failed to parse PDF")) &&
        files == old(files) && order == old(order)
      ensures resp.status != 400 && HasText(extracted) ==>
        resp == Response(200, UploadBody("PDF uploaded and parsed successfully", fileId, secureName, |extracted.value|)) &&
        files == old(files)[fileId := Record(secureName, UploadPath(fileId, secureName), extracted.value, None, None)]
      // A fresh id adds exactly one entry, at the end of the iteration order.
      ensures resp.status == 200 && fileId !in old(files) ==>
        |files| == |old(files)| + 1 && order == old(order) + [fileId]
      ensures resp.status == 200 && fileId in old(files) ==> order == old(order)
      ensures fileId !in old(files) ==> Preserves(old(files), files)
      ensures resp.status in {200, 400, 500}
    {
      if upload.None? {
        return Response(400, ErrorBody("No file provided")), None;
      }
      if upload.value == "" {
        return Response(400, ErrorBody("No file selected")), None;
      }
      if !AllowedFile(upload.value) {
        return Response(400, ErrorBody("Only PDF files are allowed")), None;
      }
      var filePath := UploadPath(fileId, secureName);
      WrittenGrows(files, order, written, written + {filePath});
      written := written + {filePath};
      parsed := Some(filePath);
      if !HasText(extracted) {
        return Response(500, ErrorBody("Failed to parse PDF")), parsed;
      }
      var pdfText := extracted.value;
      StoreKeepsWellFormed(files, order, written, fileId, Record(secureName, filePath, pdfText, None, None));
      if fileId !in files {
        order := order + [fileId];
      }
      files := files[fileId := Record(secureName, filePath, pdfText, None, None)];
      resp := Response(200, UploadBody("PDF uploaded and parsed successfully", fileId, secureName, |pdfText|));
    }

    /** POST /api/generate-summary/<id>. `generated` is what the summary
        generator returns when called; `called` is the text it was given. */
    method GenerateSummary(id: Id, generated: Option<string>)
      returns (resp: Response, called: Option<string>)
      requires Valid()
      modifies this
      ensures Valid()
      ensures order == old(order) && Preserves(old(files), files)
      ensures id !in old(files) ==>
        resp == Response(404, ErrorBody("File not found")) && called == None && unchanged(this)
      // A stored summary is returned as it is, without calling the generator.
      ensures id in old(files) && HasText(old(files)[id].summary) ==>
        resp == Response(200, SummaryBody("Summary already exists", id, old(files)[id].summary.value, None)) &&
        called == None && unchanged(this)
      ensures id in old(files) && !HasText(old(files)[id].summary) ==>
        called == Some(old(files)[id].text)
      ensures id in old(files) && !HasText(old(files)[id].summary) && !HasText(generated) ==>
        resp == Response(500, ErrorBody("Failed to generate summary")) && unchanged(this)
      // A generated summary is stored in that entry only, and written to disk.
      ensures id in old(files) && !HasText(old(files)[id].summary) && HasText(generated) ==>
        files == old(files)[id := old(files)[id].(summary := generated)] &&
        written == old(written) + {Join(ProcessedFolder, SummaryFileName(id))} &&
        resp == Response(200, SummaryBody("Summary generated successfully", id, generated.value, Some(SummaryFileName(id))))
    {
      if id !in files {
        return Response(404, ErrorBody("File not found")), None;
      }
      var fileData := files[id];
      if HasText(fileData.summary) {
        return Response(200, SummaryBody("Summary already exists", id, fileData.summary.value, None)), None;
      }
      called := Some(fileData.text);
      if !HasText(generated) {
        return Response(500, ErrorBody("Failed to generate summary")), called;
      }
      var summary := generated.value;
      files := files[id := fileData.(summary := generated)];
      var summaryFilename := SummaryFileName(id);
      written := written + {Join(ProcessedFolder, summaryFilename)};
      resp := Response(200, SummaryBody("Summary generated successfully", id, summary, Some(summaryFilename)));
    }

    /** POST /api/generate-quiz/<id>. `body` is the parsed request body
        (`None` when the request is not JSON); `generated` is what the quiz
        generator returns when called; `called` holds its arguments. */
    method GenerateQuiz(id: Id, body: Option<Json>, generated: Option<Json>)
      returns (resp: Response, called: Option<QuizRequest>)
      requires Valid()
      modifies this
      ensures Valid()
      ensures order == old(order) && Preserves(old(files), files)
      ensures id !in old(files) ==>
        resp == Response(404, ErrorBody("File not found")) && called == None && unchanged(this)
      // The question count is read before the cache is consulted.
      ensures id in old(files) && NumQuestions(body).Err? ==>
        resp == Response(500, ErrorBody(NumQuestions(body).error)) && called == None && unchanged(this)
      ensures id in old(files) && NumQuestions(body).Ok? && old(files)[id].quiz.Some? && Truthy(old(files)[id].quiz.value) ==>
        resp == Response(200, QuizBody("Quiz already exists", id, None, old(files)[id].quiz.value)) &&
        called == None && unchanged(this)
      ensures id in old(files) && NumQuestions(body).Ok? && !(old(files)[id].quiz.Some? && Truthy(old(files)[id].quiz.value)) ==>
        called == Some(QuizRequest(old(files)[id].text, NumQuestions(body).value))
      ensures called.Some? && !(generated.Some? && Truthy(generated.value)) ==>
        resp == Response(500, ErrorBody("Failed to generate quiz")) && unchanged(this)
      ensures called.Some? && generated.Some? && Truthy(generated.value) ==>
        files == old(files)[id := old(files)[id].(quiz := generated)] &&
        written == old(written) + {Join(ProcessedFolder, QuizFileName(id))} &&
        resp == Response(200, QuizBody("Quiz generated successfully", id, Some(QuizFileName(id)), generated.value))
    {
      if id !in files {
        return Response(404, ErrorBody("File not found")), None;
      }
      var fileData := files[id];
      var numQuestions := NumQuestions(body);
      if numQuestions.Err? {
        return Response(500, ErrorBody(numQuestions.error)), None;
      }
      if fileData.quiz.Some? && Truthy(fileData.quiz.value) {
        return Response(200, QuizBody("Quiz already exists", id, None, fileData.quiz.value)), None;
      }
      called := Some(QuizRequest(fileData.text, numQuestions.value));
      if !(generated.Some? && Truthy(generated.value)) {
        return Response(500, ErrorBody("Failed to generate quiz")), called;
      }
      var quizData := generated.value;
      files := files[id := fileData.(quiz := generated)];
      var quizFilename := QuizFileName(id);
      written := written + {Join(ProcessedFolder, quizFilename)};
      resp := Response(200, QuizBody("Quiz generated successfully", id, Some(quizFilename), quizData));
    }

    /** GET /api/file-info/<id>. */
    function GetFileInfo(id: Id): (r: Response)
      reads this
      ensures r.status == 404 <==> id !in files
      ensures id !in files ==> r.body == ErrorBody("File not found")
      ensures id in files ==>
        r.status == 200 && r.body.InfoBody? &&
        r.body.info.fileId == id &&
        r.body.info.filename == files[id].filename &&
        r.body.info.contentLength == |files[id].text| &&
        (r.body.info.hasSummary <==> files[id].summary != None) &&
        (r.body.info.hasQuiz <==> files[id].quiz != None)
    {
      if id !in files then Response(404, ErrorBody("File not found"))
      else Response(200, InfoBody(Describe(id, files[id])))
    }

    /** GET /api/download/<fileType>/<id>. The type is checked before the id.
        `disk` is the set of paths present when the request runs; a file that
        is not there makes `send_from_directory` raise `NotFound`, which the
        handler's `except` answers with 500. */
    function Download(fileType: string, id: Id, disk: set<Path>): (r: Response)
      reads this
      ensures fileType != "summary" && fileType != "quiz" ==>
        r == Response(400, ErrorBody("Invalid file type"))
      ensures (fileType == "summary" || fileType == "quiz") && id !in files ==>
        r == Response(404, ErrorBody("File not found"))
      ensures (fileType == "summary" || fileType == "quiz") && id in files ==>
        var filename := if fileType == "summary" then SummaryFileName(id) else QuizFileName(id);
        r == if Join(ProcessedFolder, filename) in disk then Response(200, Attachment(ProcessedFolder, filename))
             else Response(500, ErrorBody(NotFoundMessage))
      // Once the artifact has been generated, its file is written, so it is served.
      ensures Valid() && written <= disk && id in files &&
              ((fileType == "summary" && files[id].summary.Some?) || (fileType == "quiz" && files[id].quiz.Some?))
        ==> r.status == 200
    {
      if fileType != "summary" && fileType != "quiz" then
        Response(400, ErrorBody("Invalid file type"))
      else if id !in files then
        Response(404, ErrorBody("File not found"))
      else
        var filename := if fileType == "summary" then SummaryFileName(id) else QuizFileName(id);
        if Join(ProcessedFolder, filename) in disk then Response(200, Attachment(ProcessedFolder, filename))
        else Response(500, ErrorBody(NotFoundMessage))
    }

    /** GET /api/list-files: one entry per key of `processed_files`, in
        iteration order. */
    method ListFiles() returns (resp: Response)
      requires Valid()
      ensures resp.status == 200 && resp.body.ListBody?
      ensures resp.body.message == "Files retrieved successfully"
      ensures resp.body.totalFiles == |resp.body.files| == |order| == |files|
      ensures forall i :: 0 <= i < |resp.body.files| ==>
        order[i] in files && resp.body.files[i] == Describe(order[i], files[order[i]])
      ensures forall i, j :: 0 <= i < j < |resp.body.files| ==>
        resp.body.files[i].fileId != resp.body.files[j].fileId
      ensures forall id :: id in files ==>
        exists i :: 0 <= i < |resp.body.files| && resp.body.files[i].fileId == id
    {
      var filesInfo: seq<FileInfo> := [];
      var i := 0;
      while i < |order|
        invariant 0 <= i <= |order|
        invariant |filesInfo| == i
        invariant forall k :: 0 <= k < i ==>
          order[k] in files && filesInfo[k] == Describe(order[k], files[order[k]])
      {
        var fileId := order[i];
        filesInfo := filesInfo + [Describe(fileId, files[fileId])];
        i := i + 1;
      }
      DistinctCardinality(order);
      assert files.Keys == set x | x in order;
      forall id | id in files
        ensures exists i :: 0 <= i < |filesInfo| && filesInfo[i].fileId == id
      {
        var k :| 0 <= k < |order| && order[k] == id;
        assert filesInfo[k].fileId == id;
      }
      resp := Response(200, ListBody("Files retrieved successfully", filesInfo, |filesInfo|));
    }
  }
}
