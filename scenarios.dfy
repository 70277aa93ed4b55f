/** Sequences of requests against one registry: the generate-once behaviour
    and the upload, summarise, download round trip. */
module Scenarios {
  import opened Wrappers
  import opened Json
  import opened Filenames
  import opened Registry

  /** Two summary requests for the same id: once the first has produced a
      summary, the second returns the same text as cached and does not call
      the generator, whatever it would have returned. */
  method RepeatedSummary(reg: Registry, id: Id, first: Option<string>, second: Option<string>)
    returns (resp1: Response, resp2: Response, called2: Option<string>)
    requires reg.Valid()
    modifies reg
    ensures reg.Valid()
    ensures resp1.status == 200 ==>
      resp2.status == 200 && resp2.body.SummaryBody? && resp1.body.SummaryBody? &&
      resp2.body.summary == resp1.body.summary &&
      resp2.body.message == "Summary already exists" &&
      called2 == None
  {
    var called1;
    resp1, called1 := reg.GenerateSummary(id, first);
    resp2, called2 := reg.GenerateSummary(id, second);
  }

  /** The same for quizzes, as long as the second request body is readable. */
  method RepeatedQuiz(reg: Registry, id: Id, body1: Option<Json>, first: Option<Json>,
                      body2: Option<Json>, second: Option<Json>)
    returns (resp1: Response, resp2: Response, called2: Option<QuizRequest>)
    requires reg.Valid()
    modifies reg
    ensures reg.Valid()
    ensures resp1.status == 200 && NumQuestions(body2).Ok? ==>
      resp2.status == 200 && resp2.body.QuizBody? && resp1.body.QuizBody? &&
      resp2.body.quiz == resp1.body.quiz &&
      resp2.body.message == "Quiz already exists" &&
      called2 == None
  {
    var called1;
    resp1, called1 := reg.GenerateQuiz(id, body1, first);
    resp2, called2 := reg.GenerateQuiz(id, body2, second);
  }

  /** Upload a PDF under a fresh id, summarise it, then inspect and download
      the summary: the upload reports the text length, file-info reports the
      summary, and the download streams the file the summary step wrote.
      `earlier` are the files the processed folder already held. */
  method UploadSummarizeDownload(reg: Registry, fileId: Id, text: string, summary: string, earlier: set<Path>)
    returns (upload: Response, summarized: Response, info: Response, download: Response)
    requires reg.Valid() && fileId !in reg.files
    requires text != "" && summary != ""
    modifies reg
    ensures reg.Valid()
    ensures upload == Response(200, UploadBody("PDF uploaded and parsed successfully", fileId, "sample.pdf", |text|))
    ensures summarized == Response(200, SummaryBody("Summary generated successfully", fileId, summary, Some(SummaryFileName(fileId))))
    ensures info.status == 200 && info.body.InfoBody? && info.body.info.hasSummary && !info.body.info.hasQuiz
    ensures download == Response(200, Attachment(ProcessedFolder, SummaryFileName(fileId)))
    ensures Join(ProcessedFolder, SummaryFileName(fileId)) in reg.written
    ensures |reg.files| == |old(reg.files)| + 1
  {
    assert AllowedFile("sample.pdf") by {
      assert EndsWithPdfExtension("sample.pdf");
    }
    var parsed, called;
    upload, parsed := reg.Upload(Some("sample.pdf"), fileId, "sample.pdf", Some(text));
    summarized, called := reg.GenerateSummary(fileId, Some(summary));
    info := reg.GetFileInfo(fileId);
    download := reg.Download("summary", fileId, reg.written + earlier);
  }

  /** A download requested right after the upload, before any summary: the id
      is known, but when no earlier file of that name is on disk the streaming
      fails and the handler answers 500. */
  method DownloadBeforeSummary(reg: Registry, fileId: Id, text: string)
    returns (upload: Response, download: Response)
    requires reg.Valid() && fileId !in reg.files && text != ""
    modifies reg
    ensures upload.status == 200 && fileId in reg.files
    ensures Join(ProcessedFolder, SummaryFileName(fileId)) !in old(reg.written) ==>
      download == Response(500, ErrorBody(NotFoundMessage))
  {
    assert EndsWithPdfExtension("sample.pdf");
    var parsed;
    upload, parsed := reg.Upload(Some("sample.pdf"), fileId, "sample.pdf", Some(text));
    download := reg.Download("summary", fileId, reg.written);
  }
}
