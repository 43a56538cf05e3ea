# Pdf-ExamAi-FullStack in Dafny

A verified model of the four places in Pdf-ExamAi-FullStack that hold logic.

The AI service (Python) turns the text of an uploaded PDF into a summary or exam questions, then lays that text out as a PDF:

- **`AiEngine`** models `chunk_text`, `generate_bulk` and `process_pdf`.
  - `chunk_text` is a greedy word packer.
  - `generate_bulk` plans batches of 20 questions and calls the model once per batch.
  - `process_pdf` dispatches on the requested type.
- **`PdfGenerator`** models `generate_pdf_from_text`. It is a loop over the lines that classifies each one, cleans it, draws it and moves a cursor down the page, starting a new page when needed.

The ASP.NET backend (C#) forwards the upload to that service and keeps a copy of the result:

- **`FastApi`** models `FastApiService.GeneratePdfAsync`. It builds one multipart form, makes one POST and checks the status.
- **`Controller`** models `PdfController.Generate`. It:
  - validates the upload,
  - calls the service once,
  - writes the bytes to `<content root>/Uploads/<guid>.pdf`,
  - adds one `PdfFile` row,
  - answers with the bytes as `<type>.pdf`.

Two supporting modules hold shared definitions:

- **`Text`** holds the Python string operations the service relies on:
  - `str.split()` with Python's whitespace set, `sep.join`, `strip()`;
  - `replace(c, "")` for one character, `split("\n")`;
  - `str(int)` and its parse.
- **`AspNet`** holds the .NET pieces: bytes, `int`, `IFormFile`, exceptions and `Path.Combine` on a Unix host.

## How the model is built

Every loop of the modelled functions is a Dafny `method` with the same loop. Each method's postcondition ties its result or new state to a specification function, and the lemmas prove the promised properties about that function.

**Language model.** The OpenAI chat call is the parameter `llm: (nat, Prompt) -> string`. `llm(k, p)` is the reply to the k-th request of the run, whose message is the text of prompt `p`.

- A prompt is a value of the datatype `Prompt`: summary, quiz or bubble sheet, with content and count.
- `PromptText` renders a `Prompt` to the exact f-string of the source.
- `PromptTextInjective` proves that two different prompts never render to the same message. So indexing replies by `Prompt` loses nothing compared with indexing them by message text.

**PDF canvas.** The reportlab canvas is the class `Canvas`, whose drawing calls append to a draw log. Arabic reshaping and bidi reordering are the parameter `shape`.

**Backend state.**

- The HTTP client, the file system and the database context are classes whose methods change their fields.
- What the network answers to the k-th request is the parameter `transport`.
- `Guid.NewGuid()` and `DateTime.UtcNow` are parameters of `Generate`.
- An exception that leaves a method is an `Err` result.

**Empty engine output.** The controller as written accepts an empty byte array from the service. It writes the empty file, adds the row and returns the empty download: `Generate`'s postcondition says so for every reply, the empty one included. The repository's controller test (`backend.tests/Controllers/PdfControllerTests.cs:39-49`) expects a `BadRequest("PDF generation failed")` in that case. The controller has no such check, so the model follows the controller.

**Failed save.** The exception from `SaveChangesAsync` propagates after the file has been written, so a failed save answers with the exception even though the copy is on disk.

## Model

| member | source | states |
|---|---|---|
| AiEngine.PromptTextInjective | ai-service/service/ai_engine.py:10-59 | the summary, quiz and bubble-sheet templates never produce the same message for different (template, content, count) |
| AiEngine.SelectPrompt | ai-service/service/ai_engine.py:93-99 | succeeds exactly for the modes "quiz" and "bubblesheet" (case-sensitive), with that mode's prompt for the content and count; any other mode is the ValueError |
| AiEngine.ChunkText | ai-service/service/ai_engine.py:72-84 | the loop returns the chunks of Chunks(text.split()); no word is lost, duplicated or reordered; whitespace-only text gives no chunk; a chunk of two or more words is shorter than max_length; only the first chunk may be empty, exactly when the first word alone reaches max_length; each chunk was closed because the next word did not fit |
| AiEngine.ChunksOfText | ai-service/service/ai_engine.py:72-84 | the same six properties of the chunks of a text, for every text and max_length |
| AiEngine.ChunksProperties | ai-service/service/ai_engine.py:73-84 | the chunks of a word list: splitting them again gives the word list; empty exactly for no words; only the first can be empty, exactly when the first word is at least max_length long; multi-word chunks are short; chunks are maximal |
| AiEngine.PackKeepsWords | ai-service/service/ai_engine.py:76-81 | after any prefix of the loop, the closed groups followed by the open group are exactly the words seen, in order |
| AiEngine.PackEmptyOnlyFirst | ai-service/service/ai_engine.py:75-81 | the open group is never empty after a word; only the first closed group can be empty, exactly when the first word alone reaches max_length |
| AiEngine.PackBounded | ai-service/service/ai_engine.py:77-78 | every group of two or more words, joined with spaces, is shorter than max_length |
| AiEngine.PackGreedy | ai-service/service/ai_engine.py:77-81 | a group is closed only when adding the next word would reach max_length |
| AiEngine.FullContentKeepsWords | ai-service/service/ai_engine.py:124-126 | the content sent to the model, the chunks joined with newlines, has exactly the words of the extracted text |
| AiEngine.BatchSizes | ai-service/service/ai_engine.py:88-91 | total // 20 batches of 20 questions, then one batch of total % 20 exactly when that remainder is positive, every batch between 1 and 20 |
| AiEngine.BatchSizesCoverTotal | ai-service/service/ai_engine.py:88-117 | for a non-negative total the requested counts sum to the total, in ceil(total / 20) calls |
| AiEngine.NegativeTotalAsksForRemainder | ai-service/service/ai_engine.py:90-91 | with floor division a negative total makes no full batch and one call for the floor remainder, e.g. -5 asks for 15 questions |
| AiEngine.UnknownModeFailsLazily | ai-service/service/ai_engine.py:93-111 | an unknown mode makes no call and raises ValueError exactly when the total asks for a call; with total 0 it returns "" |
| AiEngine.KnownModeCallsPerBatch | ai-service/service/ai_engine.py:101-117 | in a known mode there is one gpt-4o-mini user request per batch, asking for that batch's number of questions in that mode |
| AiEngine.BulkTextSnoc | ai-service/service/ai_engine.py:108-117 | a full batch's reply is appended with "\n\n", the remainder's reply with nothing |
| AiEngine.GenerateBulk | ai-service/service/ai_engine.py:87-119 | the loop sends exactly the planned requests, in order, and returns the concatenated output, or the ValueError, as the specification function says |
| AiEngine.ProcessPdf | ai-service/service/ai_engine.py:122-141 | "summary" makes exactly one summary call on the chunked content and returns its reply; "quiz" and "bubblesheet" run generate_bulk with the same mode and count; any other type raises ValueError with no call |
| PdfGenerator.GeneratePdfFromText | ai-service/service/pdf_generator.py:10-59 | a fresh A4 canvas at pdf_path holds exactly the draws and page of the layout of the text, is saved, and pdf_path is returned unchanged |
| PdfGenerator.DrawLine | ai-service/service/pdf_generator.py:31-47 | the fill colour follows the check mark, the font is Arabic 14, and exactly one right-aligned draw of the cleaned, shaped line is appended |
| PdfGenerator.Canvas.SetFillColor | ai-service/service/pdf_generator.py:40-43 | the fill colour becomes the given colour; the page, font, draws and saved flag are unchanged |
| PdfGenerator.Canvas.SetFont | ai-service/service/pdf_generator.py:46 | the font becomes the given name and size; the page, fill colour, draws and saved flag are unchanged |
| PdfGenerator.Canvas.DrawRightString | ai-service/service/pdf_generator.py:47 | one draw appended at the current page, fill colour and font; nothing else changes |
| PdfGenerator.Canvas.ShowPage | ai-service/service/pdf_generator.py:54 | drawing moves on to the next page with the graphics state reset to black Helvetica 12; the draws so far are kept |
| PdfGenerator.Canvas.Save | ai-service/service/pdf_generator.py:58 | the document is marked saved; the page, graphics state and draws are unchanged |
| PdfGenerator.NonBlank | ai-service/service/pdf_generator.py:25-28 | the lines that are drawn: those that are not blank, in order |
| PdfGenerator.RunDrawsNonBlankLines | ai-service/service/pdf_generator.py:25-47 | exactly one draw per non-blank line, in input order, at x = width - 40, in the Arabic font at 14 points, green exactly when the line contains "✓", with the cleaned line as shaped text; blank lines draw nothing |
| PdfGenerator.LayoutDrawsNonBlankLines | ai-service/service/pdf_generator.py:24-47 | the same for a whole text, whose lines joined back with "\n" are the text |
| PdfGenerator.CleanLineProperties | ai-service/service/pdf_generator.py:33 | the drawn text holds no "✓", "*" or "#", neither starts nor ends with whitespace, and is empty exactly when the line holds only whitespace and those marks (such a line is still drawn, as empty text) |
| PdfGenerator.UnmarkedProperties | ai-service/service/pdf_generator.py:33 | the three replace calls remove every mark and keep every other character as often as before |
| Text.RemoveProperties | ai-service/service/pdf_generator.py:33 | replace(c, "") leaves no c and keeps every other character as often as before |
| Text.RemoveAppend | ai-service/service/pdf_generator.py:33 | replace(c, "") works piecewise, so what stays keeps its order: removing from a + b is removing from a followed by removing from b |
| PdfGenerator.RunOrdered | ai-service/service/pdf_generator.py:47-55 | each drawn line is lower on the same page than the one before it, or on a later page |
| PdfGenerator.RunWithinTop | ai-service/service/pdf_generator.py:18-55 | nothing is drawn above height - 40, and there are no more page breaks than drawn lines |
| PdfGenerator.A4PagesOf39Lines | ai-service/service/pdf_generator.py:17-55 | with no blank line, line k lands on page k // 39 at y = height - 40 - 20 * (k % 39), so every line stays inside the bottom margin |
| PdfGenerator.BlanksOnlyMoveDown | ai-service/service/pdf_generator.py:26-28 | a run of n lines whose strip() is empty ("", spaces, tabs, a lone "\r") lowers y by exactly 20 n and changes nothing else: no draw and no page break |
| PdfGenerator.BlankLinesPassTheMargin | ai-service/service/pdf_generator.py:26-55 | 39 blank lines and then a line of text on A4 draw that text on the first page at y = height - 820, below the 40-point margin |
| Text.SplitOnJoin | ai-service/service/pdf_generator.py:24 | text.split("\n") gives pieces without "\n" that joined with "\n" give back the text |
| Text.StripProperties | ai-service/service/pdf_generator.py:26 | strip() is the contiguous slice s[i..j] left after cutting only whitespace from both ends; it is empty exactly for an all-whitespace line and otherwise starts and ends with a non-whitespace character |
| Text.WordsOfJoinedWords | ai-service/service/ai_engine.py:80-83 | splitting " ".join(words) gives back the words |
| AspNet.Combine | backend/Controllers/PdfController.cs:48-52 | Path.Combine gives the first path for an empty second, the second for a rooted second, and otherwise the first followed by the second, with a "/" inserted only when the first does not already end in "/" |
| FastApi.FormParts | backend/Services/FastApiService.cs:25-34 | exactly three parts in the order "file", "type_", "question_count": the upload's stream with its file name, the type verbatim, and the count in decimal |
| FastApi.ReadFormParts | backend/Services/FastApiService.cs:25-34 | reading the form back by field name gives the DTO it came from: file bytes, file name, type and question count |
| FastApi.FormPartsInjective | backend/Services/FastApiService.cs:25-34 | different DTOs give different forms |
| FastApi.Outcome | backend/Services/FastApiService.cs:41-43 | a status in 200..299 returns the body unchanged, the empty body included; any other status throws HttpRequestException and returns no bytes; a transport failure propagates |
| FastApi.HttpClient.PostAsync | backend/Services/FastApiService.cs:36-39 | one request is logged, with no retry, and answered by the network |
| FastApi.FastApiService.GeneratePdfAsync | backend/Services/FastApiService.cs:20-44 | exactly one POST of the form to http://127.0.0.1:8000/generate-pdf, and the result the status check gives for its answer |
| Controller.StoredPathInUploads | backend/Controllers/PdfController.cs:48-52 | the copy is "<guid>.pdf" directly inside "<content root>/Uploads"; at each join a "/" is inserted only when the left part does not already end in "/" |
| Controller.StoredPathInjective | backend/Controllers/PdfController.cs:48-52 | distinct GUIDs give distinct stored paths |
| Controller.PdfDownload | backend/Controllers/PdfController.cs:68 | the answer holds the service's bytes unchanged, as application/pdf, with download name type + ".pdf" |
| Controller.FileSystem.CreateDirectory | backend/Controllers/PdfController.cs:49 | the directory exists afterwards, whether or not it existed before, and no file changes; or the call throws and nothing changes |
| Controller.FileSystem.WriteAllBytes | backend/Controllers/PdfController.cs:54 | the file at the path holds exactly the bytes afterwards, or the call throws and nothing changes |
| Controller.AppDbContext.Add | backend/Controllers/PdfController.cs:64 | the row is appended to the tracked rows and the stored table is unchanged |
| Controller.AppDbContext.SaveChanges | backend/Controllers/PdfController.cs:65 | the tracked rows are stored, or the save throws and nothing changes |
| Controller.PdfController.Generate | backend/Controllers/PdfController.cs:31-69 | no file or an empty file gives BadRequest("File required") with no service call, no file and no row. Otherwise there is exactly one service call with the same file, type and count. A service exception propagates with no file and no row. On success the reply bytes, empty included, are written to StoredPath(root, guid), one PdfFile row (file name, that path, the clock value) is added and saved, and the bytes come back as type + ".pdf". A failed save propagates after the file was written |

## Left out

- `extract_pdf_text` and PyPDF2: the extracted text is the input `text` of `ProcessPdf`.
- The OpenAI client: it is the parameter `llm`, and the reply's `choices[0].message.content` is its result. The model name "gpt-4o-mini", the role "user" and the temperature 0.6 are recorded in every request.
- A failing completion is not modelled: a network or API error of the OpenAI client, and a reply whose `message.content` is `None`. `llm` is total and always returns a string, so the `BulkResult(...).Ok?` part of `AiEngine.KnownModeCallsPerBatch` holds only because the model call cannot fail.
- reportlab: font registration, the PDF bytes and glyph metrics are not modelled. The canvas is a draw log.
- `arabic_reshaper.reshape` and `bidi.get_display`: both are the parameter `shape`.
- Floating point: the A4 size and the cursor are exact reals. Rounding of the float y is not modelled, and neither are the other reportlab page sizes.
- `ai-service/main.py`: the FastAPI endpoint that writes temporary files is not part of this model. `FastApi.ReadForm` stands in for how a receiver reads the form.
- The frontend, `backend/Program.cs`, `ai-service/schemas.py` and `PdfRepository`: these are wiring, UI or unused by the core.
- ASP.NET model binding is not modelled: the default `questionCount = 30`, a missing `type` field and the automatic validation response. `Generate` takes the bound values.
- Entity Framework: row ids, SQL and transactions are not modelled. The table is a sequence of rows, and the change tracker is a sequence of pending rows.
- File system failures are reduced to a set of refused paths. The exact .NET exception types are not modelled.
- The Python default arguments are not modelled: `process_pdf(type_="summary", question_count=30)` and `generate_bulk(mode="quiz")`. Every caller passes them explicitly, so `ProcessPdf` and `GenerateBulk` take them as plain parameters.
- async/await and concurrent requests: every call runs to completion in order.
- `AspNet.Combine`: only the Unix rules are modelled (separator '/', rooted means a leading '/'). The Windows drive and backslash rules are not.
- `Controller.IsGuidText`: models only the lower-case "D" format of `Guid.ToString()`, which is the one `$"{Guid.NewGuid()}"` produces.
