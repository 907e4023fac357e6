/** `generate_text` (mistral/views.py:113-156) and the endpoint the
    decorators make of it.

    The language-model server is a parameter: it maps the request sent to
    it to what the server answers, either a failure to connect or
    a status code with the lines of the streamed body.  Each line is given
    as the outcome of reading it at line 143-144: an empty line, the text of
    its `response` field, or the message of the exception reading it
    raised (undecodable JSON, no `response` field, a value that is not a
    string). */
module Generation {
  import opened Http
  import opened Transform
  import opened Auth

  const ApiUrl := "http://localhost:11434/api/generate"
  const ModelName := "mistral"

  datatype Chunk = Blank | Fragment(text: string) | Malformed(error: string)

  /** The streaming POST request sent to the language-model server: the
      URL it goes to, and the model name and prompt of its JSON body. */
  datatype ApiPost = ApiPost(url: string, model: string, prompt: JsonValue)

  datatype Upstream =
    | ConnectionFailed(error: string)
    | Reply(status: nat, lines: seq<Chunk>)

  /** What the view answered, the request it sent upstream if it got that
      far, and how many lines of the stream it read. */
  datatype Trace = Trace(response: Response, sent: Option<ApiPost>, linesRead: nat)

  // ---------------------------------------------------------------------
  // Decimal rendering of the status code in the error message

  function DigitChar(d: nat): char
    requires d < 10
  {
    "0123456789"[d]
  }

  /** The decimal digits of n, as Python writes a non-negative integer. */
  function Decimal(n: nat): (r: string)
    ensures r != [] && forall i :: 0 <= i < |r| ==> '0' <= r[i] <= '9'
    ensures r[0] == '0' ==> n == 0
    decreases n
  {
    if n < 10 then [DigitChar(n)] else Decimal(n / 10) + [DigitChar(n % 10)]
  }

  /** The number a string of decimal digits denotes. */
  function DecimalValue(s: string): nat
    requires forall i :: 0 <= i < |s| ==> '0' <= s[i] <= '9'
    decreases |s|
  {
    if s == [] then 0
    else DecimalValue(s[..|s| - 1]) * 10 + ((s[|s| - 1] as int - '0' as int) as nat)
  }

  /** Reading the rendered status code gives back the code. */
  lemma {:induction false} DecimalRoundTrip(n: nat)
    ensures DecimalValue(Decimal(n)) == n
    decreases n
  {
    if n >= 10 {
      DecimalRoundTrip(n / 10);
      var r := Decimal(n);
      assert r[..|r| - 1] == Decimal(n / 10);
    }
  }

  function StatusMessage(status: nat): string {
    "API request failed with status code " + Decimal(status)
  }

  /** The message names the status: after a fixed prefix come decimal
      digits that read back as the status. */
  lemma StatusMessageCarriesStatus(status: nat)
    ensures var m, p := StatusMessage(status), "API request failed with status code ";
      p <= m && (forall i :: |p| <= i < |m| ==> '0' <= m[i] <= '9')
      && DecimalValue(m[|p|..]) == status
  {
    var p := "API request failed with status code ";
    assert StatusMessage(status)[|p|..] == Decimal(status);
    DecimalRoundTrip(status);
  }

  // ---------------------------------------------------------------------
  // Reassembling the stream

  /** `combined_response` after the loop of lines 140-144 has read `lines`:
      each non-empty line contributes its text followed by one space. */
  function Joined(lines: seq<Chunk>): string
    decreases |lines|
  {
    if lines == [] then ""
    else
      var last := lines[|lines| - 1];
      Joined(lines[..|lines| - 1]) + (if last.Fragment? then last.text + " " else "")
  }

  /** The index of the first line whose reading raises. */
  function FirstMalformed(lines: seq<Chunk>): (r: Option<nat>)
    ensures r.None? <==> forall k :: 0 <= k < |lines| ==> !lines[k].Malformed?
    ensures r.Some? ==>
              r.value < |lines| && lines[r.value].Malformed?
              && forall k :: 0 <= k < r.value ==> !lines[k].Malformed?
    decreases |lines|
  {
    if lines == [] then None
    else if lines[0].Malformed? then Some(0)
    else
      var rest := FirstMalformed(lines[1..]);
      assert forall k :: 1 <= k < |lines| ==> lines[k] == lines[1..][k - 1];
      if rest.None? then None else Some(rest.value + 1)
  }

  /** The texts of the fragments, in arrival order. */
  function Fragments(lines: seq<Chunk>): seq<string>
    decreases |lines|
  {
    if lines == [] then []
    else (if lines[0].Fragment? then [lines[0].text] else []) + Fragments(lines[1..])
  }

  /** Each text followed by one space. */
  function Spaced(texts: seq<string>): string
    decreases |texts|
  {
    if texts == [] then "" else texts[0] + " " + Spaced(texts[1..])
  }

  function Concat(texts: seq<string>): string
    decreases |texts|
  {
    if texts == [] then "" else texts[0] + Concat(texts[1..])
  }

  // ---------------------------------------------------------------------
  // The view

  /** `generate_text(request)` once the token gate has admitted it. */
  function GenerateSpec(httpMethod: string, body: Body, upstream: ApiPost -> Upstream): Trace {
    if httpMethod != "POST" then
      Trace(JsonResponse(405, ErrorBody("Only POST requests are allowed")), None, 0)
    else
      match body
      case Undecodable(error) => Trace(JsonResponse(500, ErrorBody(error)), None, 0)
      case Json(data) =>
        if !data.JObject? then Trace(JsonResponse(500, ErrorBody(NoGetMessage(data))), None, 0)
        else
          var prompt := DictGet(data.fields, "prompt");
          if Falsy(prompt) then Trace(JsonResponse(400, ErrorBody("Missing prompt")), None, 0)
          else
            var post := ApiPost(ApiUrl, ModelName, prompt.value);
            match upstream(post)
            case ConnectionFailed(error) => Trace(JsonResponse(500, ErrorBody(error)), Some(post), 0)
            case Reply(status, lines) =>
              if status != 200 then
                Trace(JsonResponse(500, ErrorBody(StatusMessage(status))), Some(post), 0)
              else
                match FirstMalformed(lines)
                case Some(m) => Trace(JsonResponse(500, ErrorBody(lines[m].error)), Some(post), m + 1)
                case None =>
                  var text := Strip(TransformText(Joined(lines)));
                  Trace(JsonResponse(200, GeneratedBody(text)), Some(post), |lines|)
  }

  /** `generate_text(request)`: the checks in order, then the loop that
      reads the streamed lines into `combined_response`. */
  method GenerateText(req: Request, upstream: ApiPost -> Upstream) returns (trace: Trace)
    ensures trace == GenerateSpec(req.httpMethod, req.body, upstream)
  {
    if req.httpMethod != "POST" {
      return Trace(JsonResponse(405, ErrorBody("Only POST requests are allowed")), None, 0);
    }
    if req.body.Undecodable? {
      return Trace(JsonResponse(500, ErrorBody(req.body.error)), None, 0);
    }
    var data := req.body.value;
    if !data.JObject? {
      return Trace(JsonResponse(500, ErrorBody(NoGetMessage(data))), None, 0);
    }
    var prompt := DictGet(data.fields, "prompt");
    if Falsy(prompt) {
      return Trace(JsonResponse(400, ErrorBody("Missing prompt")), None, 0);
    }
    var post := ApiPost(ApiUrl, ModelName, prompt.value);
    var response := upstream(post);
    if response.ConnectionFailed? {
      return Trace(JsonResponse(500, ErrorBody(response.error)), Some(post), 0);
    }
    if response.status != 200 {
      return Trace(JsonResponse(500, ErrorBody(StatusMessage(response.status))), Some(post), 0);
    }
    var lines := response.lines;
    var combined := "";
    var i := 0;
    while i < |lines|
      invariant 0 <= i <= |lines|
      invariant forall k :: 0 <= k < i ==> !lines[k].Malformed?
      invariant combined == Joined(lines[..i])
    {
      var line := lines[i];
      assert lines[..i + 1][..i] == lines[..i];
      match line {
        case Blank =>
        case Fragment(text) =>
          combined := combined + (text + " ");
        case Malformed(error) =>
          return Trace(JsonResponse(500, ErrorBody(error)), Some(post), i + 1);
      }
      i := i + 1;
    }
    assert lines[..i] == lines;
    var transformed := TransformText(combined);
    trace := Trace(JsonResponse(200, GeneratedBody(Strip(transformed))), Some(post), |lines|);
  }

  /** What the endpoint does: the token gate, then the view if admitted. */
  function EndpointSpec(header: Option<string>, decode: string -> Decoded,
                        httpMethod: string, body: Body, upstream: ApiPost -> Upstream): Trace
  {
    match Gate(header, decode)
    case Reject(response) => Trace(response, None, 0)
    case Admit(_) => GenerateSpec(httpMethod, body, upstream)
  }

  /** `csrf_exempt(token_required(generate_text))` on one request;
      `viewRan` says whether `generate_text` itself was entered. */
  method GenerateTextEndpoint(req: Request, decode: string -> Decoded, upstream: ApiPost -> Upstream)
    returns (trace: Trace, viewRan: bool)
    modifies req`userId
    ensures trace == EndpointSpec(req.authorization, decode, req.httpMethod, req.body, upstream)
    ensures viewRan <==> Gate(req.authorization, decode).Admit?
    ensures viewRan ==> req.userId == Some(Gate(req.authorization, decode).userId)
    ensures !viewRan ==> req.userId == old(req.userId)
  {
    var outcome := TokenRequired(req, decode);
    match outcome
    case Reject(response) =>
      trace, viewRan := Trace(response, None, 0), false;
    case Admit(_) =>
      trace := GenerateText(req, upstream);
      viewRan := true;
  }

  // ---------------------------------------------------------------------
  // Properties

  /** The gate comes first: without a token every method, POST or not, is
      answered 403 and nothing is sent upstream. */
  lemma MissingTokenFirst(header: Option<string>, decode: string -> Decoded,
                          httpMethod: string, body: Body, upstream: ApiPost -> Upstream)
    requires header.None? || header.value == ""
    ensures EndpointSpec(header, decode, httpMethod, body, upstream)
      == Trace(JsonResponse(403, ErrorBody(TokenMissing)), None, 0)
  {
  }

  /** Failures come in the order of the source: the method, then the body,
      then the prompt, all before the server is asked; then a failure to
      connect, which answers 500 with its message, and the status, both
      before any line is read. */
  lemma FailureOrder(httpMethod: string, body: Body, upstream: ApiPost -> Upstream)
    ensures httpMethod != "POST" ==>
      GenerateSpec(httpMethod, body, upstream)
      == Trace(JsonResponse(405, ErrorBody("Only POST requests are allowed")), None, 0)
    ensures (httpMethod == "POST" && body.Json? && body.value.JObject?
             && Falsy(DictGet(body.value.fields, "prompt"))) ==>
      GenerateSpec(httpMethod, body, upstream) == Trace(JsonResponse(400, ErrorBody("Missing prompt")), None, 0)
    ensures GenerateSpec(httpMethod, body, upstream).sent.None? <==>
      httpMethod != "POST" || !body.Json? || !body.value.JObject? || Falsy(DictGet(body.value.fields, "prompt"))
    ensures var t := GenerateSpec(httpMethod, body, upstream);
      t.sent.Some? ==>
        t.sent.value.url == "http://localhost:11434/api/generate"
        && t.sent.value.model == "mistral" && t.sent.value.prompt == body.value.fields["prompt"]
    ensures var t := GenerateSpec(httpMethod, body, upstream);
      t.sent.Some? && upstream(t.sent.value).Reply? && upstream(t.sent.value).status != 200 ==>
      t.response == JsonResponse(500, ErrorBody(StatusMessage(upstream(t.sent.value).status))) && t.linesRead == 0
    ensures var t := GenerateSpec(httpMethod, body, upstream);
      t.sent.Some? && upstream(t.sent.value).ConnectionFailed? ==>
      t == Trace(JsonResponse(500, ErrorBody(upstream(t.sent.value).error)), t.sent, 0)
  {
  }

  /** A POST whose body does not decode answers 500 with the decoder's
      message; one whose body is JSON but not an object answers 500 with
      the message of the failed `get`.  Neither reaches the server. */
  lemma BodyErrors(body: Body, upstream: ApiPost -> Upstream)
    ensures body.Undecodable? ==>
      GenerateSpec("POST", body, upstream) == Trace(JsonResponse(500, ErrorBody(body.error)), None, 0)
    ensures body.Json? && !body.value.JObject? ==>
      GenerateSpec("POST", body, upstream)
      == Trace(JsonResponse(500, ErrorBody("'" + PyTypeName(body.value) + "' object has no attribute 'get'")), None, 0)
  {
  }

  /** The view answers 200 exactly when it is a POST of a JSON object with
      a truthy prompt, the server answers 200, and every line reads; it
      has then read every line. */
  lemma SuccessIff(httpMethod: string, body: Body, upstream: ApiPost -> Upstream)
    ensures var t := GenerateSpec(httpMethod, body, upstream);
      (t.response.JsonResponse? && t.response.status == 200) <==>
        (t.sent.Some? && upstream(t.sent.value).Reply? && upstream(t.sent.value).status == 200
         && forall k :: 0 <= k < |upstream(t.sent.value).lines| ==> !upstream(t.sent.value).lines[k].Malformed?)
    ensures var t := GenerateSpec(httpMethod, body, upstream);
      t.response.JsonResponse? && t.response.status == 200 ==>
        t.linesRead == |upstream(t.sent.value).lines|
  {
  }

  /** A line that raises stops the loop: the error of the first such line is
      the answer, and no later line is read. */
  lemma StopsAtFirstMalformed(lines: seq<Chunk>, m: nat, post: ApiPost, upstream: ApiPost -> Upstream,
                              body: Body)
    requires body.Json? && body.value.JObject? && !Falsy(DictGet(body.value.fields, "prompt"))
    requires post == ApiPost(ApiUrl, ModelName, body.value.fields["prompt"])
    requires upstream(post) == Reply(200, lines)
    requires m < |lines| && lines[m].Malformed? && forall k :: 0 <= k < m ==> !lines[k].Malformed?
    ensures GenerateSpec("POST", body, upstream) == Trace(JsonResponse(500, ErrorBody(lines[m].error)), Some(post), m + 1)
  {
  }

  lemma {:induction false} JoinedAppend(a: seq<Chunk>, b: seq<Chunk>)
    ensures Joined(a + b) == Joined(a) + Joined(b)
    decreases |b|
  {
    if b == [] {
      assert a + b == a;
    } else {
      var b0 := b[..|b| - 1];
      assert (a + b)[..|a + b| - 1] == a + b0;
      JoinedAppend(a, b0);
    }
  }

  /** The loop's string is the fragments in arrival order, each followed by
      one space; empty lines add nothing. */
  lemma {:induction false} JoinedIsSpacedFragments(lines: seq<Chunk>)
    ensures Joined(lines) == Spaced(Fragments(lines))
    decreases |lines|
  {
    if lines != [] {
      var x, rest := lines[0], lines[1..];
      JoinedIsSpacedFragments(rest);
      JoinedAppend([x], rest);
      assert [x] + rest == lines;
      assert [x][..0] == [];
      assert Joined([x]) == (if x.Fragment? then x.text + " " else "");
      if x.Fragment? {
        assert Fragments(lines) == [x.text] + Fragments(rest);
        assert ([x.text] + Fragments(rest))[1..] == Fragments(rest);
      } else {
        assert Fragments(lines) == Fragments(rest);
      }
    }
  }

  lemma {:induction false} VisibleOfSpaced(texts: seq<string>)
    ensures Visible(Spaced(texts)) == Visible(Concat(texts))
    decreases |texts|
  {
    if texts != [] {
      VisibleOfSpaced(texts[1..]);
      VisibleAppend(texts[0] + " ", Spaced(texts[1..]));
      VisibleAppend(texts[0], " ");
      VisibleAppend(texts[0], Concat(texts[1..]));
      assert texts[0] + " " + Spaced(texts[1..]) == (texts[0] + " ") + Spaced(texts[1..]);
    }
  }

  /** A 200 answer is the reassembled text after `transform_text` and
      `strip()`: it has no newline, no backslash and no whitespace at
      either end, and its non-whitespace characters, in order, are the
      non-whitespace, non-backslash characters of the fragments, in arrival
      order. */
  lemma SuccessText(httpMethod: string, body: Body, upstream: ApiPost -> Upstream)
    requires var t := GenerateSpec(httpMethod, body, upstream);
      t.response.JsonResponse? && t.response.status == 200
    ensures var t := GenerateSpec(httpMethod, body, upstream);
      var lines := upstream(t.sent.value).lines;
      var text := t.response.body.response;
      t.response.body.GeneratedBody?
      && text == Strip(TransformText(Spaced(Fragments(lines))))
      && '\n' !in text && '\\' !in text
      && (text == [] || (!IsSpace(text[0]) && !IsSpace(text[|text| - 1])))
      && NonSpace(text) == Visible(Concat(Fragments(lines)))
  {
    var t := GenerateSpec(httpMethod, body, upstream);
    var lines := upstream(t.sent.value).lines;
    var joined := Joined(lines);
    JoinedIsSpacedFragments(lines);
    var transformed := TransformText(joined);
    StripKeepsAbsent(transformed, '\n');
    StripKeepsAbsent(transformed, '\\');
    StripKeepsNonSpace(transformed);
    TransformKeepsVisible(joined);
    VisibleOfSpaced(Fragments(lines));
  }
}
