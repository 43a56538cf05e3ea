/** The backend's client of the AI service (FastApiService.GeneratePdfAsync):
    the upload, the type and the question count go out as a multipart form
    in one POST to the engine, and the reply body comes back only when the
    status is a success status.

    The HTTP client is a log of the requests it was asked to send; what the
    network answers to the k-th request is the parameter `transport`, either
    a response (status and body) or a transport failure. */
module FastApi {
  import opened Wrappers
  import opened AspNet
  import opened Text

  /** GeneratePdfDto: the upload, the output type and the question count. */
  datatype GeneratePdfDto = GeneratePdfDto(file: FormFile, type_: string, questionCount: int32)

  /** The content of one part: a stream of bytes or a string. */
  datatype PartContent = StreamContent(bytes: seq<byte>) | StringContent(text: string)

  /** One part of a multipart/form-data body: its content, its field name,
      and the file name when the part is a file. */
  datatype Part = Part(content: PartContent, name: string, fileName: Option<string>)

  const EngineUrl: string := "http://127.0.0.1:8000/generate-pdf"

  datatype HttpRequest = Post(url: string, parts: seq<Part>)

  datatype HttpResponse = HttpResponse(statusCode: int, body: seq<byte>)

  /** What the network answers to the k-th request the client sends. */
  type Transport = (nat, HttpRequest) -> Result<HttpResponse, Failure>

  /** The form the client builds: the file as a stream under "file" with the
      upload's file name, the type verbatim under "type_", and the question
      count in decimal under "question_count", in that order. */
  function FormParts(dto: GeneratePdfDto): (parts: seq<Part>)
    ensures |parts| == 3
    ensures parts[0].name == "file" && parts[1].name == "type_" && parts[2].name == "question_count"
    ensures parts[0].content == StreamContent(dto.file.contents) && parts[0].fileName == Some(dto.file.fileName)
    ensures parts[1].content == StringContent(dto.type_) && parts[1].fileName == None
    ensures parts[2].content == StringContent(IntToDecimal(dto.questionCount as int)) && parts[2].fileName == None
  {
    [ Part(StreamContent(dto.file.contents), "file", Some(dto.file.fileName)),
      Part(StringContent(dto.type_), "type_", None),
      Part(StringContent(IntToDecimal(dto.questionCount as int)), "question_count", None) ]
  }

  /** The one request GeneratePdfAsync sends for a DTO. */
  function EngineRequest(dto: GeneratePdfDto): HttpRequest
  {
    Post(EngineUrl, FormParts(dto))
  }

  // ------------------------------------------------------ reading the form

  /** The first part with the given field name, if any. */
  function FindPart(parts: seq<Part>, name: string): (r: Option<Part>)
    ensures r.Some? ==> r.value in parts && r.value.name == name
    ensures r.None? ==> forall p :: p in parts ==> p.name != name
  {
    if parts == [] then None
    else if parts[0].name == name then Some(parts[0])
    else FindPart(parts[1..], name)
  }

  /** How a receiver reads the form back by field name: a file part with a
      file name, a string "type_", and a "question_count" that parses as a
      decimal C# int. */
  function ReadForm(parts: seq<Part>): Option<GeneratePdfDto>
  {
    var file, type_, count := FindPart(parts, "file"), FindPart(parts, "type_"), FindPart(parts, "question_count");
    if && file.Some? && file.value.content.StreamContent? && file.value.fileName.Some?
       && type_.Some? && type_.value.content.StringContent?
       && count.Some? && count.value.content.StringContent?
    then
      match ParseInt(count.value.content.text)
      case Some(n) =>
        if -0x8000_0000 <= n < 0x8000_0000 then
          Some(GeneratePdfDto(FormFile(file.value.fileName.value, file.value.content.bytes), type_.value.content.text, n as int32))
        else None
      case None => None
    else None
  }

  /** The form loses nothing: reading it back by field name gives the DTO it
      was built from, file bytes, file name, type and question count. */
  lemma ReadFormParts(dto: GeneratePdfDto)
    ensures ReadForm(FormParts(dto)) == Some(dto)
  {
    var parts := FormParts(dto);
    assert FindPart(parts, "file") == Some(parts[0]);
    assert FindPart(parts, "type_") == Some(parts[1]);
    assert FindPart(parts, "question_count") == Some(parts[2]);
    IntToDecimalRoundTrip(dto.questionCount as int);
  }

  /** Different DTOs give different forms. */
  lemma FormPartsInjective(a: GeneratePdfDto, b: GeneratePdfDto)
    requires FormParts(a) == FormParts(b)
    ensures a == b
  {
    ReadFormParts(a);
    ReadFormParts(b);
  }

  // ------------------------------------------------------------ the reply

  /** EnsureSuccessStatusCode accepts exactly the statuses 200 to 299. */
  predicate IsSuccessStatus(statusCode: int)
  {
    200 <= statusCode <= 299
  }

  /** What GeneratePdfAsync makes of the network's answer: the body of a
      success response, unchanged; an HttpRequestException carrying the
      status otherwise; a transport failure passed on. */
  function Outcome(answer: Result<HttpResponse, Failure>): (r: Result<seq<byte>, Failure>)
    ensures r.Ok? <==> answer.Ok? && IsSuccessStatus(answer.value.statusCode)
    ensures r.Ok? ==> r.value == answer.value.body
    ensures answer.Ok? && !IsSuccessStatus(answer.value.statusCode) ==> r == Err(HttpRequestError(answer.value.statusCode))
    ensures answer.Err? ==> r == Err(answer.error)
  {
    match answer
    case Err(e) => Err(e)
    case Ok(response) =>
      if IsSuccessStatus(response.statusCode) then Ok(response.body)
      else Err(HttpRequestError(response.statusCode))
  }

  /** System.Net.Http.HttpClient: every request it is asked to send is
      logged, and the network answers it. */
  class HttpClient {
    const transport: Transport
    var sent: seq<HttpRequest>

    constructor(transport: Transport)
      ensures this.transport == transport && sent == []
    {
      this.transport := transport;
      sent := [];
    }

    /** PostAsync(url, content): one request, no retry. */
    method PostAsync(url: string, parts: seq<Part>) returns (answer: Result<HttpResponse, Failure>)
      modifies this
      ensures sent == old(sent) + [Post(url, parts)]
      ensures answer == transport(|old(sent)|, Post(url, parts))
    {
      answer := transport(|sent|, Post(url, parts));
      sent := sent + [Post(url, parts)];
    }
  }

  /** FastApiService, holding the HTTP client it was constructed with. */
  class FastApiService {
    const httpClient: HttpClient

    constructor(httpClient: HttpClient)
      ensures this.httpClient == httpClient
    {
      this.httpClient := httpClient;
    }

    /** GeneratePdfAsync(dto): exactly one POST of the form to the engine,
        then the body of a success response, or the exception. */
    method GeneratePdfAsync(dto: GeneratePdfDto) returns (r: Result<seq<byte>, Failure>)
      modifies httpClient
      ensures httpClient.sent == old(httpClient.sent) + [EngineRequest(dto)]
      ensures r == Outcome(httpClient.transport(|old(httpClient.sent)|, EngineRequest(dto)))
    {
      var file := dto.file;
      var content := [
        Part(StreamContent(file.contents), "file", Some(file.fileName)),
        Part(StringContent(dto.type_), "type_", None),
        Part(StringContent(IntToDecimal(dto.questionCount as int)), "question_count", None)
      ];
      var response := httpClient.PostAsync(EngineUrl, content);
      match response {
        case Err(e) =>
          r := Err(e);
        case Ok(message) =>
          if !IsSuccessStatus(message.statusCode) {
            r := Err(HttpRequestError(message.statusCode));
            return;
          }
          r := Ok(message.body);
      }
    }
  }
}
