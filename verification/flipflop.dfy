/** The response shaping of the FlipFlop engine (`main.py`): the user turn sent
    to the language model, the checks on its reply, the 450..500 character
    length contract, the optional image prompt, and the `/flipflop` handler that
    composes them. The language model and the image backend are parameters:
    functions from the text sent to what the call returned or raised. */
module FlipFlop {
  import opened Wrappers
  import opened PyStr

  /** The longest paragraph the handler returns when the length contract is enforced. */
  const MaxParagraph: nat := 500
  /** The shortest paragraph accepted when the length contract is enforced. */
  const MinParagraph: nat := 450

  /** The status code of every error the handler raises. */
  const BadGateway: nat := 502

  const TooShortError := HttpError(BadGateway, "Model returned text " + "shorter than 450 characters.")
  const NoChoicesError := HttpError(BadGateway, "LLM returned no choices.")
  const EmptyContentError := HttpError(BadGateway, "LLM returned empty content.")

  /** The error raised when the chat-completion call itself raises `message`:
      a 502 whose detail ends with the message and which no reply check and no
      length check can produce. */
  function LlmCallError(message: string): (e: HttpError)
    ensures e.status == BadGateway
    ensures |e.detail| > |message| && e.detail[|e.detail| - |message|..] == message
    ensures e != TooShortError && e != NoChoicesError && e != EmptyContentError
  {
    var e := HttpError(BadGateway, "LLM call failed: " + message);
    DetailsOfCheckErrors();
    assert e.detail[0] == 'L' && e.detail[4] == 'c';
    e
  }

  /** The error raised when the image backend raises `message`: a 502 whose
      detail ends with the message and which the text-generation steps
      cannot produce. */
  function ImageBackendError(message: string): (e: HttpError)
    ensures e.status == BadGateway
    ensures |e.detail| > |message| && e.detail[|e.detail| - |message|..] == message
    ensures e != TooShortError && e != NoChoicesError && e != EmptyContentError
    ensures forall m :: e != LlmCallError(m)
  {
    var e := HttpError(BadGateway, "Image backend error: " + message);
    DetailsOfCheckErrors();
    assert e.detail[0] == 'I';
    e
  }

  /** The first and fifth characters of the reply-check and length-check
      error details, which set them apart from the call errors. */
  lemma DetailsOfCheckErrors()
    ensures TooShortError.detail[0] == 'M'
    ensures NoChoicesError.detail[4] == 'r' && EmptyContentError.detail[4] == 'r'
  {
    assert TooShortError.detail == "Model returned text " + "shorter than 450 characters.";
    assert NoChoicesError.detail == "LLM returned no choices.";
    assert EmptyContentError.detail == "LLM returned empty content.";
  }

  /** The body of a `POST /flipflop` request. */
  datatype Request = Request(
    noun1: string,
    noun2: string,
    enforceLength: bool,
    requestImage: bool,
    imageStyleTail: Option<string>)

  /** The field bounds the request model enforces before the handler runs.
      They bound the user turn, stripped nouns included, to 1007 characters. */
  predicate ValidRequest(req: Request)
    ensures ValidRequest(req) ==> |UserMessage(Strip(req.noun1), Strip(req.noun2))| <= 1007
  {
    && 1 <= |req.noun1| <= 500
    && 1 <= |req.noun2| <= 500
    && (req.imageStyleTail.Some? ==> |req.imageStyleTail.value| <= 200)
  }

  /** The body of the response. */
  datatype Response = Response(
    paragraph: string,
    truncated: bool,
    imagePrompt: Option<string>,
    imageUrl: Option<string>)

  /** A chat completion as far as the handler looks at it: the message content
      of each choice, in order (`None` for a null content). */
  type Completion = seq<Option<string>>

  /** The language-model backend: the user turn in, a completion or an exception out. */
  type LanguageModel = string -> Backend<Completion>

  /** The image backend: the prompt in, an optional image URL or an exception out.
      `Returned(None)` covers both an unconfigured backend and a reply without a URL. */
  type ImageBackend = string -> Backend<Option<string>>

  // ---------------------------------------------------------------------------
  // The user turn

  /** Index of the first `c` in `s`, or `|s|` when there is none. */
  function IndexOf(s: string, c: char): (i: nat)
    ensures i <= |s|
    ensures c !in s[..i]
    ensures i < |s| ==> s[i] == c
  {
    if s == [] || s[0] == c then 0 else 1 + IndexOf(s[1..], c)
  }

  /** The user turn: the two nouns on two lines, labelled `A: ` and `B: `.
      The first noun sits at offset 3, the line break right after it, and the
      second noun fills the rest. */
  function UserMessage(noun1: string, noun2: string): (m: string)
    ensures |m| == |noun1| + |noun2| + 7
    ensures m[..3] == "A: " && m[3..3 + |noun1|] == noun1
    ensures m[3 + |noun1|] == '\n' && m[4 + |noun1|..7 + |noun1|] == "B: "
    ensures m[7 + |noun1|..] == noun2
  {
    "A: " + noun1 + "\nB: " + noun2
  }

  /** Reads the two nouns back from a user turn, splitting at the first line
      break; `None` when `m` does not have the two-line shape. */
  function ParseUserMessage(m: string): (r: Option<(string, string)>)
    ensures r.Some? ==> UserMessage(r.value.0, r.value.1) == m && '\n' !in r.value.0
  {
    if |m| < 3 || m[..3] != "A: " then None
    else
      var body := m[3..];
      var i := IndexOf(body, '\n');
      if |body| - i < 4 || body[i..i + 4] != "\nB: " then None
      else
        assert m == m[..3] + body[..i] + body[i..i + 4] + body[i + 4..];
        Some((body[..i], body[i + 4..]))
  }

  /** The user turn loses nothing: both nouns are recovered from it whenever
      the first one holds no line break. */
  lemma {:induction false} UserMessageRoundTrip(noun1: string, noun2: string)
    requires '\n' !in noun1
    ensures ParseUserMessage(UserMessage(noun1, noun2)) == Some((noun1, noun2))
  {
    var m := UserMessage(noun1, noun2);
    var body := m[3..];
    assert body == noun1 + "\nB: " + noun2;
    var i := IndexOf(body, '\n');
    assert body[|noun1|] == '\n';
    assert i == |noun1|;
    assert body[i..i + 4] == "\nB: ";
    assert body[..i] == noun1;
    assert body[i + 4..] == noun2;
  }

  /** Without the line-break condition the user turn is ambiguous: a first
      noun that holds "\nB: " gives the same turn as a different pair, and
      parsing recovers that other pair. */
  lemma UserMessageAmbiguous()
    ensures UserMessage("x\nB: y", "z") == UserMessage("x", "y\nB: z")
    ensures ParseUserMessage(UserMessage("x\nB: y", "z")) != Some(("x\nB: y", "z"))
  {
    assert '\n' in "x\nB: y" by { assert "x\nB: y"[1] == '\n'; }
  }

  // ---------------------------------------------------------------------------
  // The language-model reply

  /** `content or ""`: a null or empty content both read as the empty string. */
  function ContentOrEmpty(content: Option<string>): (s: string)
    ensures s == [] <==> content.None? || content.value == []
    ensures s != [] ==> content == Some(s)
  {
    if content.Some? then content.value else ""
  }

  /** The checks on a completion: it must have a choice, and the first
      choice's content, stripped, must not be empty. */
  function ExtractReply(choices: Completion): (r: Outcome<string>)
    ensures choices == [] ==> r == Err(NoChoicesError)
    ensures choices != [] && AllSpace(ContentOrEmpty(choices[0])) ==> r == Err(EmptyContentError)
    ensures r.Ok? <==> choices != [] && !AllSpace(ContentOrEmpty(choices[0]))
    ensures r.Ok? ==> r.value != [] && Trimmed(r.value)
    ensures r.Ok? ==> r.value == Strip(ContentOrEmpty(choices[0]))
  {
    if choices == [] then Err(NoChoicesError)
    else
      var paragraph := Strip(ContentOrEmpty(choices[0]));
      if paragraph == [] then Err(EmptyContentError) else Ok(paragraph)
  }

  /** Asks the language model for the fused paragraph of two nouns. */
  function CallFlipFlopLlm(noun1: string, noun2: string, llm: LanguageModel): (r: Outcome<string>)
    ensures llm(UserMessage(noun1, noun2)).Raised? ==>
      r == Err(LlmCallError(llm(UserMessage(noun1, noun2)).message))
    ensures llm(UserMessage(noun1, noun2)).Returned? ==>
      r == ExtractReply(llm(UserMessage(noun1, noun2)).value)
    ensures r.Ok? ==> r.value != [] && Trimmed(r.value)
    ensures r.Err? ==> r.error.status == BadGateway
  {
    match llm(UserMessage(noun1, noun2))
    case Raised(message) => Err(LlmCallError(message))
    case Returned(choices) => ExtractReply(choices)
  }

  // ---------------------------------------------------------------------------
  // The length contract

  /** The length contract. With `enforce` off the paragraph passes untouched.
      With it on, a paragraph over 500 characters is cut to its first 500 and
      flagged as truncated, and one under 450 characters is rejected. */
  function EnforceLength(paragraph: string, enforce: bool): (r: Outcome<(string, bool)>)
    ensures r.Err? <==> enforce && |paragraph| < MinParagraph
    ensures r.Err? ==> r.error == TooShortError
    ensures r.Ok? ==>
      var (text, truncated) := r.value;
      && text <= paragraph
      && (truncated <==> enforce && |paragraph| > MaxParagraph)
      && (truncated ==> |text| == MaxParagraph)
      && (!truncated ==> text == paragraph)
      && (enforce ==> MinParagraph <= |text| <= MaxParagraph)
  {
    if !enforce then Ok((paragraph, false))
    else
      var (text, truncated) :=
        if |paragraph| > MaxParagraph then (paragraph[..MaxParagraph], true) else (paragraph, false);
      if |text| < MinParagraph then Err(TooShortError) else Ok((text, truncated))
  }

  /** Enforcement is idempotent: a paragraph the contract let through is let
      through again unchanged and not truncated. */
  lemma EnforceLengthIdempotent(paragraph: string, enforce: bool)
    requires EnforceLength(paragraph, enforce).Ok?
    ensures var text := EnforceLength(paragraph, enforce).value.0;
      EnforceLength(text, enforce) == Ok((text, false))
  {
  }

  // ---------------------------------------------------------------------------
  // The image prompt

  /** Python truthiness of an optional string: present and not empty. */
  predicate Truthy(tail: Option<string>)
    ensures Truthy(tail) <==> ContentOrEmpty(tail) != []
  {
    tail.Some? && tail.value != []
  }

  /** The image prompt: the paragraph, followed by one space and the stripped
      style tail when the tail is truthy. */
  function MaybeBuildImagePrompt(paragraph: string, tail: Option<string>): (r: string)
    ensures paragraph <= r
    ensures r == paragraph <==> !Truthy(tail)
    ensures Truthy(tail) ==> r[|paragraph|] == ' ' && r[|paragraph| + 1..] == Strip(tail.value)
    ensures |r| <= |paragraph| + 1 + |ContentOrEmpty(tail)|
  {
    if Truthy(tail) then paragraph + " " + Strip(tail.value) else paragraph
  }

  /** A style tail of whitespace only is truthy, so it still adds the space. */
  lemma BlankTailAddsSpace(paragraph: string, tail: string)
    requires tail != [] && AllSpace(tail)
    ensures MaybeBuildImagePrompt(paragraph, Some(tail)) == paragraph + " "
  {
  }

  // ---------------------------------------------------------------------------
  // The handler

  /** `POST /flipflop`: asks for the paragraph of the stripped nouns, applies
      the length contract, and, only when an image is requested, builds the
      image prompt and asks the image backend for a URL. */
  function HandleFlipFlop(req: Request, llm: LanguageModel, image: ImageBackend): (r: Outcome<Response>)
    requires ValidRequest(req)
    ensures r.Err? ==> r.error.status == BadGateway
    ensures r.Ok? ==> r.value.paragraph != []
    ensures r.Ok? && req.enforceLength ==> MinParagraph <= |r.value.paragraph| <= MaxParagraph
    ensures r.Ok? && !req.enforceLength ==> !r.value.truncated && Trimmed(r.value.paragraph)
    ensures r.Ok? && r.value.truncated ==> |r.value.paragraph| == MaxParagraph
    ensures r.Ok? && !req.requestImage ==> r.value.imagePrompt == None && r.value.imageUrl == None
    ensures r.Ok? && req.requestImage ==>
      r.value.imagePrompt == Some(MaybeBuildImagePrompt(r.value.paragraph, req.imageStyleTail))
  {
    match CallFlipFlopLlm(Strip(req.noun1), Strip(req.noun2), llm)
    case Err(e) => Err(e)
    case Ok(reply) =>
      match EnforceLength(reply, req.enforceLength)
      case Err(e) => Err(e)
      case Ok((paragraph, truncated)) =>
        if !req.requestImage then Ok(Response(paragraph, truncated, None, None))
        else
          var prompt := MaybeBuildImagePrompt(paragraph, req.imageStyleTail);
          match image(prompt)
          case Raised(message) => Err(ImageBackendError(message))
          case Returned(url) => Ok(Response(paragraph, truncated, Some(prompt), url))
  }

  /** The handler's whole outcome: an error from the model call or from the
      length contract is passed on unchanged; otherwise the response carries
      the enforced paragraph and flag, and, when an image is requested, the
      image prompt and the image backend's URL, or the image error. */
  lemma HandlerReturnsEnforcedReply(req: Request, llm: LanguageModel, image: ImageBackend)
    requires ValidRequest(req)
    ensures var r := HandleFlipFlop(req, llm, image);
      var reply := CallFlipFlopLlm(Strip(req.noun1), Strip(req.noun2), llm);
      && (reply.Err? ==> r == Err(reply.error))
      && (reply.Ok? && EnforceLength(reply.value, req.enforceLength).Err? ==> r == Err(TooShortError))
      && (reply.Ok? && EnforceLength(reply.value, req.enforceLength).Ok? ==>
            var (paragraph, truncated) := EnforceLength(reply.value, req.enforceLength).value;
            var prompt := MaybeBuildImagePrompt(paragraph, req.imageStyleTail);
            && (!req.requestImage ==> r == Ok(Response(paragraph, truncated, None, None)))
            && (req.requestImage && image(prompt).Raised? ==>
                  r == Err(ImageBackendError(image(prompt).message)))
            && (req.requestImage && image(prompt).Returned? ==>
                  r == Ok(Response(paragraph, truncated, Some(prompt), image(prompt).value))))
  {
  }

  /** Without `request_image` the image backend is never consulted: the
      response does not depend on it. */
  lemma ImageBackendUnusedUnlessRequested(req: Request, llm: LanguageModel, image1: ImageBackend, image2: ImageBackend)
    requires ValidRequest(req) && !req.requestImage
    ensures HandleFlipFlop(req, llm, image1) == HandleFlipFlop(req, llm, image2)
  {
  }

  /** An exception from the image backend fails the whole request with a 502,
      even though the paragraph was already obtained. */
  lemma ImageBackendErrorIsFatal(req: Request, llm: LanguageModel, image: ImageBackend)
    requires ValidRequest(req) && req.requestImage
    ensures var reply := CallFlipFlopLlm(Strip(req.noun1), Strip(req.noun2), llm);
      reply.Ok? && EnforceLength(reply.value, req.enforceLength).Ok? ==>
        var prompt := MaybeBuildImagePrompt(EnforceLength(reply.value, req.enforceLength).value.0, req.imageStyleTail);
        image(prompt).Raised? ==> HandleFlipFlop(req, llm, image) == Err(ImageBackendError(image(prompt).message))
  {
  }

  /** Only the stripped nouns reach the model: requests whose nouns differ in
      surrounding whitespace alone send the same user turn, and so get the
      same response for the same backend replies. */
  lemma SurroundingWhitespaceOfNounsIgnored(req1: Request, req2: Request, llm: LanguageModel, image: ImageBackend)
    requires ValidRequest(req1) && ValidRequest(req2)
    requires Strip(req1.noun1) == Strip(req2.noun1) && Strip(req1.noun2) == Strip(req2.noun2)
    requires req1.enforceLength == req2.enforceLength && req1.requestImage == req2.requestImage
    requires req1.imageStyleTail == req2.imageStyleTail
    ensures UserMessage(Strip(req1.noun1), Strip(req1.noun2)) == UserMessage(Strip(req2.noun1), Strip(req2.noun2))
    ensures HandleFlipFlop(req1, llm, image) == HandleFlipFlop(req2, llm, image)
  {
  }
}
