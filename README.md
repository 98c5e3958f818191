# yt-summarizer backend pipeline, modelled in Dafny

The backend of yt-summarizer answers `POST /api/summarize` with body
`{ youtubeUrl, language }`. It extracts a video ID from the URL, asks a
transcript provider for that video's transcript, builds a prompt that embeds
the language and the whole transcript, asks a language-model service for a
summary, and replies with `{ summary, success: true }` or an error status.

This project models the three files that carry that logic, all as pure
functions with lemmas about them:

- `js.dfy` (module `Js`): the JavaScript notions the code relies on:
  `null`-or-value results (`Option`), the values a JSON body field may hold
  (`Value`), truthiness, and the text a template literal interpolates.
- `strings.dfy` (module `Strings`): `indexOf`/`includes`, `split` with a
  non-empty string separator (pieces between non-overlapping occurrences,
  scanned left to right), and `join`.
- `video_id.dfy` (module `VideoId`): `extractVideoId`, written as the
  source writes it, `url.split(marker)[1].split(stop)[0]` for the markers
  `"v="` (stop `&`), `"youtu.be/"` and `"/shorts/"` (stop `?`) in that
  order. It is characterised by `IsCut`: the result is the prefix of the
  text after the first marker occurrence that ends at the end, at the stop
  character, or where the marker occurs again, whichever comes first.
- `transcript.dfy` (module `Transcript`): the shaping of the transcript
  provider's reply in `fetchTranscript`. The POST is an input
  (`ProviderOutcome`: decoded body or transport failure). A throw inside the
  try block is the `Threw` outcome, and the catch turns it into null.
- `summary_controller.dfy` (module `SummaryController`): `summarizeVideo` as
  `Summarize(body, fetch, generate)`. The two services are oracle functions
  from the request sent (video ID, prompt) to the outcome. The request body
  is either the two fields or absent (`NoBody`). The result records the
  response and the requests actually sent out.

Three behaviours of the code are easy to misread, and one more is worth
spelling out:

- Rule 1 of the extractor does not only cut at the first `&`. `split("v=")[1]`
  also ends where the next `"v="` begins, so `"a?v=abcv=x&y"` gives `"abc"`.
- The extractor can return `""` (for example for `"https://youtu.be/"`). The
  controller's `!videoId` check turns that into 400 "Invalid YouTube URL".
- The summary fallback replaces only a null or missing text. An empty text is
  kept as `""`, and the reply is still a 200 with `success: true`.
- When every `text` in the provider's reply is a string or missing, a
  malformed transcript reply never produces a 500. `fetchTranscript`
  catches everything and returns null, so the request ends in 404. Under
  the same condition the handler reaches its 500 branch in three ways:
  the request has no body
  (destructuring `req.body` throws), the language cannot be converted to
  text for the prompt (for example `{"toString": 1}`), or the
  language-model call throws.

## Model

| member | source | states |
|---|---|---|
| `Js.TruthyText` | backend/controllers/summaryController.js:14-19 | the `!videoId` and `!transcript` tests on a null-or-string result are the same truthiness test as `!youtubeUrl` and `!language` on the request values (null as null, a string as a string) |
| `Strings.IndexOf` | backend/utils/extractVideoId.js:3-5 | the result is the first index at which the marker occurs, and None exactly when it occurs nowhere |
| `Strings.IncludesIff` | backend/utils/extractVideoId.js:3-5 | `includes` holds exactly when the marker occurs at some index |
| `Strings.Split` | backend/utils/extractVideoId.js:3-5 | `split` gives at least one piece, the first piece is a prefix of the input, and there are at least two pieces exactly when the separator occurs (so `[1]` exists whenever `includes` held) |
| `Strings.Join` | backend/utils/fetchTranscript.js:36 | joining no pieces gives ""; otherwise the result starts with the first piece |
| `Strings.JoinLength` | backend/utils/fetchTranscript.js:34-36 | joining n ≥ 1 texts gives the sum of their lengths plus n−1 separators; joining none gives "" |
| `Strings.SplitJoin` | backend/utils/fetchTranscript.js:34-36 | splitting a join on a one-character separator that no piece contains gives back the pieces, in order |
| `VideoId.ApplyRule` | backend/utils/extractVideoId.js:3-5 | one rule yields a piece exactly when its marker occurs in the URL |
| `VideoId.ExtractVideoId` | backend/utils/extractVideoId.js:1-10 | the result is null exactly when none of "v=", "youtu.be/", "/shorts/" occurs; for a string the catch is never taken |
| `VideoId.ApplyRuleSpec` | backend/utils/extractVideoId.js:3-5 | when the marker occurs, `split(marker)[1].split(stop)[0]` exists and is the cut of the text after the marker's first occurrence |
| `VideoId.CutIsUnique` | backend/utils/extractVideoId.js:3-5 | the cut description determines the result: two texts meeting it are equal |
| `VideoId.CutExcludesMarker` | backend/utils/extractVideoId.js:3-5 | a cut contains neither its stop character nor its marker |
| `VideoId.ExtractVideoIdSpec` | backend/utils/extractVideoId.js:3-6 | rule priority: "v=" decides whenever present, then "youtu.be/", then "/shorts/"; the result is that rule's cut (at "&" for rule 1, at "?" otherwise), a contiguous part of the URL starting right after the marker's first occurrence |
| `VideoId.ExtractedIdExcludes` | backend/utils/extractVideoId.js:3-5 | a rule-1 result holds no "&" and no "v="; a rule-2 or rule-3 result holds no "?" and not its own marker |
| `VideoId.WatchYields` | backend/utils/extractVideoId.js:3 | a URL containing "v=" yields the rule-1 cut of the text after its first occurrence |
| `VideoId.CutBeforeNextMarker` | backend/utils/extractVideoId.js:3 | a text without "&" and "v=" followed by "v=" is cut right before that "v=" |
| `VideoId.WatchCutAtNextMarker` | backend/utils/extractVideoId.js:3 | for any prefix without "v=", `pre + "v=" + id + "v=" + tail` yields exactly `id` when `id` holds neither "&" nor "v=" |
| `VideoId.RepeatedWatchMarker` | backend/utils/extractVideoId.js:3 | `"a?v=abcv=x&y"` yields `"abc"`: the piece ends at the next "v=" |
| `VideoId.BareShortLink` | backend/utils/extractVideoId.js:4 | `"https://youtu.be/"` yields the empty string, not null |
| `VideoId.ShortLinkYields` | backend/utils/extractVideoId.js:4 | a URL without "v=" that contains "youtu.be/" yields the cut of the text after it |
| `VideoId.ShortLinkId` | backend/utils/extractVideoId.js:4 | `"https://youtu.be/" + id` yields exactly `id` for every id without "?", "v=" and "youtu.be/" |
| `Transcript.ShapeItems` | backend/utils/fetchTranscript.js:16-43 | the try block throws exactly when the first item has no usable text, has a first track, and that track has no `transcript` array |
| `Transcript.FetchTranscript` | backend/utils/fetchTranscript.js:16-47 | a transport failure gives null; a non-null result comes from the first item and is either its own non-empty text or the join of its first track's segment texts |
| `Transcript.EmptyReplyIsNull` | backend/utils/fetchTranscript.js:18-21 | a null reply or an empty item list gives null |
| `Transcript.OnlyFirstItem` | backend/utils/fetchTranscript.js:23 | items after the first never change the result |
| `Transcript.TextPreferred` | backend/utils/fetchTranscript.js:26-28 | a non-empty first-item text is returned verbatim, whatever the tracks |
| `Transcript.TracksJoined` | backend/utils/fetchTranscript.js:31-39 | with no usable text and a first track, the result is its segment texts (a missing one rendered "") joined by single spaces: "" for no segments, length sum+n−1, and splitting on " " recovers the texts in segment order when none holds a space |
| `Transcript.NoTextNoTracksIsNull` | backend/utils/fetchTranscript.js:41-42 | no usable text and no tracks give null |
| `Transcript.MissingTrackTranscriptIsNull` | backend/utils/fetchTranscript.js:34 | a first track without a `transcript` array makes the try block throw, and the result is null |
| `Transcript.HelloWorld` | backend/utils/fetchTranscript.js:31-39 | segments "Hello" and "world" under an empty text give "Hello world" |
| `SummaryController.Prompt` | backend/controllers/summaryController.js:22-28 | the prompt holds the template text, the language and the whole transcript verbatim at fixed offsets; its length is theirs summed, so nothing is truncated |
| `SummaryController.FirstPartText` | backend/controllers/summaryController.js:38 | a text is found only as the first part of the first candidate's content, and it is that part's text |
| `SummaryController.FirstPartTextFound` | backend/controllers/summaryController.js:38 | a text in the first part of the first candidate is found, whatever the later parts and candidates hold |
| `SummaryController.FirstPartTextMissing` | backend/controllers/summaryController.js:38 | the text is missing exactly when some level of the `?.` chain is missing or empty |
| `SummaryController.SummaryTextKeepsFoundText` | backend/controllers/summaryController.js:37-39 | a found text, even "", is the summary; the fallback "Unable to generate summary." appears only when the text is missing or is that string itself |
| `SummaryController.Summarize` | backend/controllers/summaryController.js:5-46 | a video ID is sent to the transcript provider only after both fields passed and only if it is the non-empty extracted ID; a prompt is sent only after a non-empty transcript came back and the language printed, and it is the prompt built from that transcript and the language |
| `SummaryController.ResponseShapes` | backend/controllers/summaryController.js:9-44 | the status is one of 200, 400, 404, 500; `success: true` and a summary exactly at 200; `success: false` exactly at 500; an error message exactly when not 200 |
| `SummaryController.MissingBodyIsServerError` | backend/controllers/summaryController.js:7 | a request without a body gets the generic 500 and nothing is sent out |
| `SummaryController.UrlCheckedFirst` | backend/controllers/summaryController.js:9 | a falsy `youtubeUrl` gives 400 "youtubeUrl required" whatever the language and services, and nothing is sent out |
| `SummaryController.LanguageCheckedSecond` | backend/controllers/summaryController.js:10 | a present URL with a falsy `language` gives 400 "language required" and nothing is sent out |
| `SummaryController.InvalidUrlSkipsFetch` | backend/controllers/summaryController.js:12-15 | a null or empty video ID gives 400 "Invalid YouTube URL" and the transcript is not fetched |
| `SummaryController.NonStringUrlIsInvalid` | backend/controllers/summaryController.js:12-15 | a truthy non-string `youtubeUrl` makes the extractor return null, so the reply is 400 "Invalid YouTube URL" and nothing is sent out |
| `SummaryController.MissingTranscriptSkipsSummary` | backend/controllers/summaryController.js:17-20 | a null or empty transcript gives 404 "Transcript not found"; the ID was sent, the language model is not called |
| `SummaryController.UnprintableLanguageIsServerError` | backend/controllers/summaryController.js:22-23 | a language whose text conversion throws gives the generic 500 after the transcript came back; the language model is not called |
| `SummaryController.PassingRequestIsAnswered` | backend/controllers/summaryController.js:12-41 | a request that passes the four checks sends the extracted ID and then the prompt built from its language and transcript (a string language verbatim after the fixed head); the reply gives 200 with the `??` summary, a thrown call the generic 500 |
| `SummaryController.SummarizerDecides` | backend/controllers/summaryController.js:30-44 | once a prompt is sent, 500 exactly when the model call threw, with body `{error: "Server error", success: false}` and no summary, and 200 exactly when it answered, with the `??` summary; a 500 without a prompt comes only from a missing body or an unprintable language |
| `SummaryController.EmptyTranscriptIsNotFound` | backend/controllers/summaryController.js:12-20 | for `https://youtu.be/<id>` and a provider answering `{text: ""}` without tracks, the reply is 404 and only the ID request is sent |
| `SummaryController.NoCandidateStillSucceeds` | backend/controllers/summaryController.js:37-41 | a reply with no candidates still gives 200, `success: true`, summary "Unable to generate summary." |

## Left out

- The HTTP POSTs to the transcript provider and to the language-model service, the API keys read from the environment, and console logging. The POSTs are the oracle inputs `fetch` and `generate`. Keys and logs have no effect on the result.
- Express setup, CORS, request logging and route registration (backend/index.js, backend/routes/summaryRoutes.js): framework plumbing with no logic.
- The React views, including Result.jsx's own `getVideoId`, which rests on the browser's URL parser, and the language search filter, which rests on Unicode case folding.
- Async scheduling and concurrent requests. Requests share no state, so one request is modelled as one function application. Repeated requests give repeated, independent oracle calls; the model does not state this beyond taking the oracles as parameters.
- Provider replies whose lists are not lists of records: a non-array `data`, `tracks` or `transcript` value (a string `tracks`, say, makes `track.transcript.map` throw, and the result is null) and null entries in the item, track or segment lists (a null first item or track throws and becomes null; a null segment makes `segment.text` throw). `Transcript.FetchTranscript` takes these fields as lists of records or missing.
- String lengths are counted in Unicode characters, while JavaScript's `.length` counts UTF-16 code units, and lone surrogates cannot be written. No behaviour of the core depends on this: every marker and separator is ASCII, and a length above zero means non-empty under either count. The lengths stated in `Strings.JoinLength`, `Transcript.TracksJoined` and `SummaryController.Prompt` are character counts.
- Non-string `text` fields in either service's reply are not modelled. Every text is a string or missing. In the source, a truthy non-string first-item `text` with a `length` above zero is returned unchanged as the transcript. From there it can reach a 200 (`{"text": ["a"]}`), or the 500 branch when `${transcript}` throws (`{"text": {"length": 1, "toString": 1}}`), without the model service being called.
- A null candidate or part in the language-model reply is not a separate case. `?.` reads it like an entry whose fields are all missing, and that is how it is written here.
- How JavaScript turns a non-string `language` into text (`toString`, `valueOf`). The model takes that text, or the fact that the conversion throws, with the value (`Value.Other`).
