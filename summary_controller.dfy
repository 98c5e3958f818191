/** `summarizeVideo`, the handler of POST /api/summarize, as a function from
    the request body and the two external services to the HTTP response.
    The services are oracles: `fetch` maps a video ID to what the
    transcript provider answers, `generate` maps a prompt to what the
    language-model service answers. The result also records which requests
    were sent out, so that "the call is not made" can be stated. */
module SummaryController {
  import opened Js
  import opened Strings
  import opened VideoId
  import opened Transcript

  /** The decoded request body `{ youtubeUrl, language }`, or NoBody when
      `req.body` is undefined, so that destructuring it throws. */
  datatype RequestBody = RequestBody(youtubeUrl: Value, language: Value) | NoBody

  /** The language-model reply, each level optional as `?.` reads it; a null
      entry reads like one whose fields are all missing. */
  datatype Part = Part(text: Option<string>)
  datatype Content = Content(parts: Option<seq<Part>>)
  datatype Candidate = Candidate(content: Option<Content>)
  datatype Generation = Generation(candidates: Option<seq<Candidate>>)

  /** What the POST to the language-model service produced: the decoded
      body (`geminiRes.data`, None when missing) or a thrown error. */
  datatype GeminiOutcome = GeminiReplied(data: Option<Generation>) | GeminiFailed

  /** A JSON response body; each key is present or absent. */
  datatype Body = Body(error: Option<string>, summary: Option<string>, success: Option<bool>)

  datatype Response = Response(status: nat, body: Body)

  /** The response together with the requests sent to the two services:
      the video ID given to the transcript provider and the prompt given to
      the language model, None when that call was not made. */
  datatype Exchange = Exchange(response: Response, transcriptRequest: Option<string>, summaryRequest: Option<string>)

  const UrlRequired: string := "youtubeUrl required"
  const LanguageRequired: string := "language required"
  const InvalidUrl: string := "Invalid YouTube URL"
  const TranscriptNotFound: string := "Transcript not found"
  const ServerError: string := "Server error"
  const Fallback: string := "Unable to generate summary."

  /** The fixed text of the prompt template around its two holes. */
  const PromptHead: string := "\n    Summarize the following YouTube transcript in "
  const PromptMiddle: string := ".\n    Use bullet points. Make it readable.\n\n    Transcript:\n    "
  const PromptTail: string := "\n    "

  /** `res.status(status).json({ error })`. */
  function Rejection(status: nat, message: string): (r: Response)
  {
    Response(status, Body(Some(message), None, None))
  }

  /** The catch block's `res.status(500).json({ error: "Server error", success: false })`. */
  const ServerFailure: Response := Response(500, Body(Some(ServerError), None, Some(false)))

  /** The template literal of the prompt. It holds the language and the
      whole transcript verbatim at fixed places: nothing is truncated. */
  function Prompt(language: string, transcript: string): (p: string)
    ensures |p| == |PromptHead| + |language| + |PromptMiddle| + |transcript| + |PromptTail|
    ensures p[..|PromptHead|] == PromptHead
    ensures p[|PromptHead|..|PromptHead| + |language|] == language
    ensures p[|PromptHead| + |language|..|PromptHead| + |language| + |PromptMiddle|] == PromptMiddle
    ensures p[|PromptHead| + |language| + |PromptMiddle|..|p| - |PromptTail|] == transcript
    ensures p[|p| - |PromptTail|..] == PromptTail
  {
    PromptHead + language + PromptMiddle + transcript + PromptTail
  }

  /** `geminiRes.data?.candidates?.[0]?.content?.parts?.[0]?.text`: a text
      is found only along the first candidate's first part, and it is that
      part's text. */
  function FirstPartText(data: Option<Generation>): (r: Option<string>)
    ensures r.Some? ==>
      && data.Some? && data.value.candidates.Some? && |data.value.candidates.value| > 0
      && var content := data.value.candidates.value[0].content;
         && content.Some? && content.value.parts.Some? && |content.value.parts.value| > 0
         && content.value.parts.value[0].text == r
  {
    if data.None? then None
    else
      var candidates := data.value.candidates;
      if candidates.None? || |candidates.value| == 0 then None
      else
        var content := candidates.value[0].content;
        if content.None? then None
        else
          var parts := content.value.parts;
          if parts.None? || |parts.value| == 0 then None
          else parts.value[0].text
  }

  /** A text in the first part of the first candidate is found, whatever
      the later parts and candidates hold. */
  lemma FirstPartTextFound(t: string, parts: seq<Part>, candidates: seq<Candidate>)
    ensures FirstPartText(Some(Generation(Some([Candidate(Some(Content(Some([Part(Some(t))] + parts))))] + candidates))))
         == Some(t)
  {
  }

  /** Only the first candidate is read: a reply is missing its text exactly
      when some level of the chain is missing or empty. */
  lemma FirstPartTextMissing(data: Option<Generation>)
    ensures FirstPartText(data).None? <==>
      || data.None? || data.value.candidates.None? || |data.value.candidates.value| == 0
      || data.value.candidates.value[0].content.None?
      || data.value.candidates.value[0].content.value.parts.None?
      || |data.value.candidates.value[0].content.value.parts.value| == 0
      || data.value.candidates.value[0].content.value.parts.value[0].text.None?
  {
  }

  /** `FirstPartText(data) ?? "Unable to generate summary."`. */
  function SummaryText(data: Option<Generation>): (s: string)
  {
    match FirstPartText(data)
    case Some(t) => t
    case None => Fallback
  }

  /** `??` replaces only a missing text: a found text, even "", is the
      summary, and the fallback appears only when the text is missing or is
      itself the fallback string. */
  lemma SummaryTextKeepsFoundText(data: Option<Generation>)
    ensures FirstPartText(data).Some? ==> SummaryText(data) == FirstPartText(data).value
    ensures SummaryText(data) == Fallback <==>
      FirstPartText(data).None? || FirstPartText(data) == Some(Fallback)
    ensures FirstPartText(data) == Some("") ==> SummaryText(data) == ""
  {
  }

  /** The handler. Each stage runs only when every earlier one let the
      request through. The extractor and the transcript fetch catch
      everything themselves, so when every transcript text is a string the
      try block can throw only when the body is missing, when the language
      cannot be turned into text, or when the language-model call fails. The recorded requests follow the
      pipeline: an ID is sent only when both fields are present and the ID
      is non-empty, and a prompt only when a non-empty transcript came back,
      and the prompt is the one built from that transcript. */
  function Summarize(body: RequestBody, fetch: string -> ProviderOutcome, generate: string -> GeminiOutcome): (x: Exchange)
    ensures x.transcriptRequest.Some? ==>
      && body.RequestBody?
      && Truthy(body.youtubeUrl) && Truthy(body.language)
      && ExtractVideoIdOf(body.youtubeUrl) == x.transcriptRequest
      && x.transcriptRequest.value != ""
    ensures x.summaryRequest.Some? ==>
      && x.transcriptRequest.Some?
      && var t := FetchTranscript(fetch(x.transcriptRequest.value));
         && TruthyText(t)
         && Display(body.language).Some?
         && x.summaryRequest.value == Prompt(Display(body.language).value, t.value)
  {
    match body
    case NoBody => Exchange(ServerFailure, None, None)
    case RequestBody(url, language) =>
      if !Truthy(url) then
        Exchange(Rejection(400, UrlRequired), None, None)
      else if !Truthy(language) then
        Exchange(Rejection(400, LanguageRequired), None, None)
      else
        var videoId := ExtractVideoIdOf(url);
        if !TruthyText(videoId) then
          Exchange(Rejection(400, InvalidUrl), None, None)
        else
          var transcript := FetchTranscript(fetch(videoId.value));
          if !TruthyText(transcript) then
            Exchange(Rejection(404, TranscriptNotFound), videoId, None)
          else
            match Display(language)
            case None => Exchange(ServerFailure, videoId, None)
            case Some(shown) =>
              var prompt := Prompt(shown, transcript.value);
              match generate(prompt)
              case GeminiFailed => Exchange(ServerFailure, videoId, Some(prompt))
              case GeminiReplied(data) =>
                Exchange(Response(200, Body(None, Some(SummaryText(data)), Some(true))), videoId, Some(prompt))
  }

  /** Only four outcomes exist, and the body keys follow the status: a
      summary with `success: true` exactly at 200, an error message
      otherwise, with `success: false` only at 500; a summary is never
      returned beside an error. */
  lemma ResponseShapes(body: RequestBody, fetch: string -> ProviderOutcome, generate: string -> GeminiOutcome)
    ensures var r := Summarize(body, fetch, generate).response;
      && r.status in {200, 400, 404, 500}
      && (r.body.success == Some(true) <==> r.status == 200)
      && (r.body.success == Some(false) <==> r.status == 500)
      && (r.body.summary.Some? <==> r.status == 200)
      && (r.body.error.Some? <==> r.status != 200)
  {
  }

  /** A request without a body throws at the destructuring and gets the
      generic 500; nothing is sent out. */
  lemma MissingBodyIsServerError(fetch: string -> ProviderOutcome, generate: string -> GeminiOutcome)
    ensures Summarize(NoBody, fetch, generate) == Exchange(ServerFailure, None, None)
  {
  }

  /** A falsy `youtubeUrl` is rejected first, whatever the language and
      the services would do, and nothing is sent out. */
  lemma UrlCheckedFirst(url: Value, language1: Value, language2: Value,
                        fetch1: string -> ProviderOutcome, fetch2: string -> ProviderOutcome,
                        generate1: string -> GeminiOutcome, generate2: string -> GeminiOutcome)
    requires !Truthy(url)
    ensures Summarize(RequestBody(url, language1), fetch1, generate1)
         == Summarize(RequestBody(url, language2), fetch2, generate2)
         == Exchange(Rejection(400, UrlRequired), None, None)
  {
  }

  /** With a present URL, a falsy `language` is rejected next, before the
      URL is even parsed. */
  lemma LanguageCheckedSecond(url: Value, language: Value,
                              fetch: string -> ProviderOutcome, generate: string -> GeminiOutcome)
    requires Truthy(url) && !Truthy(language)
    ensures Summarize(RequestBody(url, language), fetch, generate)
         == Exchange(Rejection(400, LanguageRequired), None, None)
  {
  }

  /** A null or empty video ID is an invalid URL, and the transcript is not
      fetched. A URL with none of the three markers, a URL that ends in its
      marker, and a non-string URL are all such cases. */
  lemma InvalidUrlSkipsFetch(url: Value, language: Value,
                             fetch: string -> ProviderOutcome, generate: string -> GeminiOutcome)
    requires Truthy(url) && Truthy(language)
    requires !TruthyText(ExtractVideoIdOf(url))
    ensures Summarize(RequestBody(url, language), fetch, generate)
         == Exchange(Rejection(400, InvalidUrl), None, None)
  {
  }

  /** A truthy non-string `youtubeUrl` (a number, an array, an object) makes
      the extractor's `includes` or `split` throw, its catch returns null,
      and the request is an invalid URL with nothing sent out. */
  lemma NonStringUrlIsInvalid(shown: Option<string>, language: Value,
                              fetch: string -> ProviderOutcome, generate: string -> GeminiOutcome)
    requires Truthy(language)
    ensures Summarize(RequestBody(Other(true, shown), language), fetch, generate)
         == Exchange(Rejection(400, InvalidUrl), None, None)
  {
  }

  /** A null or empty transcript is a 404, and the language model is not
      called. */
  lemma MissingTranscriptSkipsSummary(url: Value, language: Value,
                                      fetch: string -> ProviderOutcome, generate: string -> GeminiOutcome)
    requires Truthy(url) && Truthy(language)
    requires TruthyText(ExtractVideoIdOf(url))
    requires !TruthyText(FetchTranscript(fetch(ExtractVideoIdOf(url).value)))
    ensures Summarize(RequestBody(url, language), fetch, generate)
         == Exchange(Rejection(404, TranscriptNotFound), ExtractVideoIdOf(url), None)
  {
  }

  /** A language whose conversion to text throws ends in the generic 500
      once the transcript is there; the language model is not called. */
  lemma UnprintableLanguageIsServerError(url: Value, truthy: bool,
                                         fetch: string -> ProviderOutcome, generate: string -> GeminiOutcome)
    requires Truthy(url) && truthy
    requires TruthyText(ExtractVideoIdOf(url))
    requires TruthyText(FetchTranscript(fetch(ExtractVideoIdOf(url).value)))
    ensures Summarize(RequestBody(url, Other(truthy, None)), fetch, generate)
         == Exchange(ServerFailure, ExtractVideoIdOf(url), None)
  {
  }

  /** The success path: a request that passes the four checks and whose
      language prints sends the extracted ID, then the prompt built from
      the language and the transcript (a string language sits verbatim
      right after the prompt's fixed head); the reply decides the answer,
      200 with the `??` summary when the model answered, the generic 500
      when the call threw. */
  lemma PassingRequestIsAnswered(url: Value, language: Value,
                                 fetch: string -> ProviderOutcome, generate: string -> GeminiOutcome)
    requires Truthy(url) && Truthy(language)
    requires TruthyText(ExtractVideoIdOf(url))
    requires TruthyText(FetchTranscript(fetch(ExtractVideoIdOf(url).value)))
    requires Display(language).Some?
    ensures var x := Summarize(RequestBody(url, language), fetch, generate);
      var t := FetchTranscript(fetch(ExtractVideoIdOf(url).value)).value;
      var p := Prompt(Display(language).value, t);
      && x.transcriptRequest == ExtractVideoIdOf(url)
      && x.summaryRequest == Some(p)
      && (language.Text? ==> p[|PromptHead|..|PromptHead| + |language.s|] == language.s)
      && (generate(p).GeminiReplied? ==>
            x.response == Response(200, Body(None, Some(SummaryText(generate(p).data)), Some(true))))
      && (generate(p).GeminiFailed? ==> x.response == ServerFailure)
  {
  }

  /** Once the prompt is sent, the reply decides: a thrown error is a 500
      with no partial summary; any reply at all, malformed or not, is a 200
      whose summary is the first part's text, or the fallback only where
      that text is null or missing. A 500 without a prompt sent comes only
      from a missing body or a language that cannot be printed. */
  lemma SummarizerDecides(body: RequestBody, fetch: string -> ProviderOutcome, generate: string -> GeminiOutcome)
    ensures var x := Summarize(body, fetch, generate);
      && (x.response.status == 500 && x.summaryRequest.Some? <==>
            x.summaryRequest.Some? && generate(x.summaryRequest.value).GeminiFailed?)
      && (x.response.status == 500 && x.summaryRequest.None? ==>
            body.NoBody? || Display(body.language).None?)
      && (x.response.status == 200 <==> x.summaryRequest.Some? && generate(x.summaryRequest.value).GeminiReplied?)
      && (x.response.status == 500 ==> x.response == ServerFailure)
      && (x.response.status == 200 ==>
            var data := generate(x.summaryRequest.value).data;
            && (FirstPartText(data).Some? ==> x.response.body.summary == FirstPartText(data))
            && (FirstPartText(data).None? ==> x.response.body.summary == Some(Fallback)))
  {
  }

  /** The example of a provider that answers with an empty text and no
      tracks: the request ends in 404 and the model is not called. */
  lemma EmptyTranscriptIsNotFound(id: string, language: string, generate: string -> GeminiOutcome)
    requires id != "" && '?' !in id && !Includes(id, WatchMarker) && !Includes(id, ShortLinkMarker)
    requires language != ""
    ensures var fetch := (_: string) => Delivered(Some([Item(Some(""), None)]));
      Summarize(RequestBody(Text("https://youtu.be/" + id), Text(language)), fetch, generate)
        == Exchange(Rejection(404, TranscriptNotFound), Some(id), None)
  {
    ShortLinkId(id);
  }

  /** The example of a well-formed transcript and a reply without any
      candidate: still a 200 with `success: true`, carrying the fallback. */
  lemma NoCandidateStillSucceeds(url: Value, language: string, fetch: string -> ProviderOutcome)
    requires Truthy(url) && language != ""
    requires TruthyText(ExtractVideoIdOf(url))
    requires TruthyText(FetchTranscript(fetch(ExtractVideoIdOf(url).value)))
    ensures var generate := (_: string) => GeminiReplied(Some(Generation(Some([]))));
      Summarize(RequestBody(url, Text(language)), fetch, generate).response
        == Response(200, Body(None, Some(Fallback), Some(true)))
  {
  }
}
