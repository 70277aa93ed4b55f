# Quiz generator backend: verified model of the upload check and the artifact registry

The service accepts a PDF upload, has an external parser extract its text,
and has an external language model produce a summary and a quiz from that
text. Results are cached in the in-memory dict `processed_files` and written
to flat files for download. This project models the two parts of
`quiz-generator-api.py` that carry logic of their own:

- `allowed_file`, the filename check for uploads (module `Filenames`);
- the registry `processed_files` and the decision logic of the six handlers
  that read or update it (module `Registry`, class `Registry.Registry`).
  `upload_pdf`, `generate_summary_endpoint` and `generate_quiz_endpoint`
  are methods that change the registry. `get_file_info` and `download_file`
  are read-only functions. `list_files` is a method with a loop over the keys
  in dict iteration order.

The external collaborators are method parameters, so every branch can be
reached:

- the text `parse_pdf` returns;
- the result of the summary generator and of the quiz generator;
- the value of `uuid.uuid4()`;
- the result of `secure_filename`;
- whether the request has a `file` part, and with which filename;
- the parsed JSON body of a quiz request.

Each handler that may call an adapter also returns what it passed to it, so
that "the adapter is not called" can be stated. Three fields make up the
registry:

- `files`, the dict itself;
- `order`, its keys in insertion order. Re-assigning an existing key keeps
  its place, as in Python.
- `written`, the paths the handlers have written to disk.

Python truthiness is explicit. `HasText` treats `None` and `""` as false.
`Json.Truthy` gives Python's `bool` of a decoded JSON value. `has_summary`
and `has_quiz` test against `None` instead. `Registry.CachedIffPresent` shows
that the two tests agree on every entry the handlers can store.

Module `Scenarios` strings requests together:

- a second summary or quiz request returns the first result and does not call
  the generator;
- upload, summarise and download form a round trip.

Facts about the code that the model keeps:

- The code does not check a quiz against `quiz_format`. `generate_quiz` only
  runs `json.loads` (line 127), so any truthy JSON value is stored (lines 255,
  259).
- The cache tests at lines 200 and 245 test truthiness. Only non-empty
  summaries and truthy quizzes are ever stored (lines 210, 255), so a stored
  value is never regenerated (`CachedIffPresent`).
- The question count is read from the body (line 242) before the cache test
  (line 245). A JSON body that is not an object raises `AttributeError` on
  `.get`, and the handler answers 500 with that message even when a quiz is
  already cached.
- `{"num_questions": null}` passes `None` to the generator, not the default 20.
- A download of a file that is not on disk makes `send_from_directory` raise
  `NotFound`; the `except` at line 314 answers 500. This is what happens when
  a summary or quiz is downloaded before it has been generated.

`str.lower()` is modelled on ASCII letters only. The result is only compared
with `"pdf"`. No non-ASCII character lowers to `p`, `d` or `f` (the only
non-ASCII characters that lower to ASCII are U+212A to `k` and U+0130 to
`i` plus a combining dot), so the comparison comes out the same.

## Model

| member | source | states |
|---|---|---|
| `Filenames.RSplitLast` | quiz-generator-api.py:86 | `rsplit(sep, 1)` gives one part exactly when `sep` does not occur. Otherwise it gives two parts that rebuild the string around `sep`, and the second part contains no `sep`, so the cut is at the last occurrence. |
| `Filenames.RSplitLastUnique` | quiz-generator-api.py:86 | Any split of `s` as `a + sep + b`, where `b` contains no `sep`, is the split `rsplit` returns. |
| `Filenames.AllowedFile` | quiz-generator-api.py:84-86 | `allowed_file(f)`: a dot must occur and the text after the last dot, lowered, must be `pdf`. Its contract proves this holds if and only if `f` ends with `.` followed by p, d and f, each in either case. |
| `Filenames.PdfTailIff` | quiz-generator-api.py:86 | Both directions of that equivalence: the text after the last `.` lowers to `pdf` exactly when the name ends in `.pdf` in any letter case. |
| `Filenames.LowerChar` | quiz-generator-api.py:86 | `.lower()` on one character, for ASCII only. An upper-case letter becomes the lower-case letter at the same place in the alphabet. Every other character is kept. No upper-case ASCII letter comes out. |
| `Filenames.Lower` | quiz-generator-api.py:86 | `.lower()` on a string, for ASCII only: same length, each character lowered, and no upper-case ASCII letter left. |
| `Filenames.AllowedFileExamples` | quiz-generator-api.py:84-86 | `x.PDF`, `.pdf` and `a.b.Pdf` pass. `pdf`, `a.pdf.txt`, `report.pdfx`, the empty name and `pdf.` fail. |
| `Json.Truthy` | quiz-generator-api.py:245-255 | Python's `bool()` of a decoded JSON value, as in `if file_data["quiz"]` and `if not quiz_data`. It is false exactly for `None`, `False`, `0`, `0.0`, `""`, `[]` and `{}`. |
| `Json.TypeName` | quiz-generator-api.py:242 | The Python class name in the `AttributeError` message of `.get`. It is `dict` exactly for a JSON object, and `NoneType` exactly for `null`. |
| `Registry.HasText` | quiz-generator-api.py:168-210 | Python's truthiness of an optional string, as in `if not pdf_text`, `if file_data["summary"]` and `if not summary`. It is false exactly for `None` and `""`. |
| `Registry.UploadPath` | quiz-generator-api.py:158-159 | The stored source is under `uploads/`, followed by the id, `_` and the sanitised name. |
| `Registry.SummaryFileName` | quiz-generator-api.py:217 | The summary file name is the id followed by `_summary.txt`. Download resolves the same name (line 308). |
| `Registry.QuizFileName` | quiz-generator-api.py:262 | The quiz file name is the id followed by `_quiz.json`. Download resolves the same name (line 310). |
| `Registry.GeneratedNamesDistinct` | quiz-generator-api.py:158-310 | Generated names never collide. Different ids have different summary files and different quiz files. A summary file is never a quiz file. An uploaded source never lands in `processed/`. |
| `Registry.Describe` | quiz-generator-api.py:286-292 | The projection shared with list-files (lines 323-329): the id, the filename, the text length, and `has_summary`/`has_quiz` as "is not None". |
| `Registry.NumQuestions` | quiz-generator-api.py:242 | There are three cases. A non-JSON request gives 20. An object gives the value under `num_questions`, or 20 when that key is absent. Any other JSON value is an `AttributeError`. |
| `Registry.StoreKeepsWellFormed` | quiz-generator-api.py:172-178 | Storing a consistent record under an id keeps the registry invariant. A new id goes to the end of the iteration order. An existing id keeps its place. |
| `Registry.PreservesTransitive` | quiz-generator-api.py:172-178 | "Entries are never removed, and only an unset summary or quiz may gain a value" is transitive. |
| `Registry.PreservedAlongRun` | quiz-generator-api.py:172-259 | For any run of registry states in which each step preserves the previous one, the last state still holds every entry of the first, with the same stored summary and quiz. Every handler preserves the registry as long as each upload uses a fresh id, so a stored value survives any such run. |
| `Registry.CachedIffPresent` | quiz-generator-api.py:200 | For every entry the invariant allows, the truthiness test of the cache (lines 200 and 245) matches the `is not None` flags (lines 290-291). |
| `Registry.DistinctCardinality` | quiz-generator-api.py:331-335 | A key sequence without repeats has as many elements as its set. `total_files` is therefore the number of registry entries. |
| `Registry.Registry.constructor` | quiz-generator-api.py:82 | The registry starts empty and valid. |
| `Registry.Registry.Upload` | quiz-generator-api.py:139-185 | Checks run in order: missing `file` part, empty name, non-PDF name. Each gives 400 and touches nothing. None of them reaches the extractor. An accepted file is saved as `uploads/{id}_{name}` and parsed. An empty or failed extraction gives 500, and `files` and `order` are unchanged. Success stores the record with no summary and no quiz, and answers with the text length. A fresh id adds exactly one entry, at the end. |
| `Registry.Registry.GenerateSummary` | quiz-generator-api.py:190-227 | An unknown id gives 404 and nothing changes. A stored non-empty summary is returned with "Summary already exists", the generator is not called, and nothing changes. Otherwise the generator gets the stored text. An empty or failed result gives 500 and nothing changes. A non-empty result sets only that entry's summary, writes `processed/{id}_summary.txt`, and names that file in the answer. |
| `Registry.Registry.GenerateQuiz` | quiz-generator-api.py:232-272 | An unknown id gives 404. A JSON body that is not an object gives 500, and this check comes before the cache test. A truthy cached quiz is returned unchanged without calling the generator. Otherwise the generator gets the text and the question count. A falsy result gives 500 and nothing changes. A truthy result sets only that entry's quiz and writes `processed/{id}_quiz.json`. |
| `Registry.Registry.GetFileInfo` | quiz-generator-api.py:277-292 | Gives 404 exactly for an unknown id. Otherwise it gives the filename, the length of the stored text, and `has_summary`/`has_quiz` as "is not None". |
| `Registry.Registry.Download` | quiz-generator-api.py:297-315 | The type check comes before the id lookup: an unknown type gives 400 even for an unknown id. A valid type with an unknown id gives 404. Otherwise the file in `processed` is `{id}_summary.txt` or `{id}_quiz.json`. It is streamed with 200 when it is on disk, and gives 500 (`NotFound` caught at line 314) when it is not. Once the artifact has been generated, its file is among the paths written. So the download answers 200 whenever everything written is still found, which holds when the server runs from its own directory. |
| `Registry.Registry.ListFiles` | quiz-generator-api.py:317-335 | Gives 200 with one entry per key, in iteration order. Each entry is the same projection file-info returns. File ids do not repeat. Every key is listed. `total_files` equals the number of entries. |
| `Scenarios.RepeatedSummary` | quiz-generator-api.py:199-214 | After a successful summary request, a second one returns the same text as "already exists" and does not call the generator. |
| `Scenarios.RepeatedQuiz` | quiz-generator-api.py:244-259 | After a successful quiz request, a second one whose body is not JSON or is a JSON object returns the same quiz and does not call the generator. |
| `Scenarios.DownloadBeforeSummary` | quiz-generator-api.py:297-315 | A summary download right after an upload, with no earlier file of that name on disk, answers 500. |
| `Scenarios.UploadSummarizeDownload` | quiz-generator-api.py:139-312 | Upload of `sample.pdf` under a fresh id, then summary, file-info and download. The steps report the text length, the summary file and `has_summary`. The download answers 200 when the files written are found where the download looks for them, which holds when the server runs from its own directory. The registry grows by one. |

## Left out

- PDF extraction (`parse_pdf`, LlamaParse, `asyncio.run`, `nest_asyncio`): its result is the `extracted` parameter.
- The Gemini calls `generate_summary` and `generate_quiz`, their prompts and generation configs, and `json.loads` of the reply: their results are the `generated` parameters. The prompts would only format strings for the model.
- `uuid.uuid4` and `secure_filename`: the id and the sanitised name are parameters.
- Flask routing, `jsonify`, CORS, `MAX_CONTENT_LENGTH`, and the parsing of `request.files` and `request.json`: they are framework behaviour. They are modelled as an optional filename and an optional parsed body. A malformed JSON body is not modelled. In the source, Flask raises `BadRequest` for it, which line 274 turns into 500.
- The content of files on disk: only the set of paths written is modelled. Which files the folder holds when a download runs, including those left by earlier processes, is the `disk` parameter of `Download`.
- `Registry.Registry.Download`: files are written relative to the working directory (lines 30, 218-219, 263-264). `send_from_directory` reads them relative to the app's root path, the script's directory (line 312). The model treats the two as one place: `written` and `disk` share one namespace. So "200 after generation" holds only when the server runs from its own directory. Otherwise the source raises `NotFound` and answers 500 (line 314).
- The generic `except Exception` handlers, apart from the `AttributeError` of line 242 and the `NotFound` of line 312.
  - Neither I/O failures nor other runtime errors are modelled.
  - In the summary and quiz handlers, the entry is updated before its file is written (lines 214 and 259). A failing write would therefore answer 500 with the entry already set.
- `Registry.Registry.Upload`: "entries only evolve" is promised only for a fresh id.
  - Re-using an existing id replaces its record. The replacement has no summary and no quiz, but the old generated files are still on disk.
  - `uuid4` makes re-use practically impossible.
- The health endpoint and the startup prints: they contain no logic.
- Concurrent requests: the handlers are modelled one at a time. The unsynchronised dict is therefore not modelled.
- JSON numbers: `JFloat` holds an exact real, so floating-point rounding is not modelled. It also cannot hold the `NaN` and `Infinity` that `json.loads` accepts. A `NaN` quiz is truthy in Python and would be stored.
- Python `None` for a quiz has two encodings in the model: `None` and `Some(JNull)`. For `Some(JNull)`, `Describe` would report `hasQuiz` as true where Python says False. The registry invariant `Valid()` stores only truthy quizzes, so no reachable state holds `Some(JNull)`.
