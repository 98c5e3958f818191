/** The response shaping of `fetchTranscript`: what the backend makes of the
    transcript provider's decoded reply. The HTTP POST itself is an input:
    either the decoded body or a transport failure. */
module Transcript {
  import opened Js
  import opened Strings

  /** One timed caption segment; only its text is used. */
  datatype Segment = Segment(text: Option<string>)

  /** A caption track; `transcript` is None when the field is missing. */
  datatype Track = Track(transcript: Option<seq<Segment>>)

  /** One entry of the provider's reply, with its optional flat text and
      optional list of tracks. */
  datatype Item = Item(text: Option<string>, tracks: Option<seq<Track>>)

  /** What the POST produced: the decoded body (`response.data`, None when
      it is null or missing), or an error thrown by the transport. */
  datatype ProviderOutcome = Delivered(data: Option<seq<Item>>) | TransportFailed

  /** Evaluation of the try block: it returns a value or throws. */
  datatype Attempt<T> = Returned(value: T) | Threw

  /** `segment.text` as `join` renders it: a missing text becomes "". */
  function SegmentText(seg: Segment): (r: string)
  {
    match seg.text
    case Some(t) => t
    case None => ""
  }

  /** `segments.map((segment) => segment.text)`, as rendered by `join`. */
  function SegmentTexts(segs: seq<Segment>): (r: seq<string>)
  {
    seq(|segs|, i requires 0 <= i < |segs| => SegmentText(segs[i]))
  }

  /** The try block after the POST: first item only; its non-empty text if
      any; else the first track's segment texts joined by single spaces;
      else null. Only a first track without a `transcript` array throws. */
  function ShapeItems(data: Option<seq<Item>>): (r: Attempt<Option<string>>)
    ensures r.Threw? <==>
      && data.Some? && |data.value| > 0
      && var item := data.value[0];
         && (item.text.None? || item.text.value == "")
         && item.tracks.Some? && |item.tracks.value| > 0
         && item.tracks.value[0].transcript.None?
  {
    if data.None? || |data.value| == 0 then Returned(None)
    else
      var item := data.value[0];
      if item.text.Some? && |item.text.value| > 0 then Returned(item.text)
      else if item.tracks.Some? && |item.tracks.value| > 0 then
        match item.tracks.value[0].transcript
        case None => Threw
        case Some(segs) => Returned(Some(Join(SegmentTexts(segs), " ")))
      else Returned(None)
  }

  /** `fetchTranscript(videoId)` once the provider has answered: every
      failure, whether of the transport or inside the try block, becomes
      null. A non-null result is the first item's own non-empty text or the
      join of its first track's segments. */
  function FetchTranscript(outcome: ProviderOutcome): (r: Option<string>)
    ensures outcome.TransportFailed? ==> r.None?
    ensures r.Some? ==>
      && outcome.Delivered? && outcome.data.Some? && |outcome.data.value| > 0
      && var item := outcome.data.value[0];
         || (item.text == r && |r.value| > 0)
         || (&& (item.text.None? || item.text.value == "")
             && item.tracks.Some? && |item.tracks.value| > 0
             && item.tracks.value[0].transcript.Some?
             && r.value == Join(SegmentTexts(item.tracks.value[0].transcript.value), " "))
  {
    match outcome
    case TransportFailed => None
    case Delivered(data) =>
      match ShapeItems(data)
      case Returned(v) => v
      case Threw => None
  }

  /** A null or empty reply yields null. */
  lemma EmptyReplyIsNull(data: Option<seq<Item>>)
    requires data.None? || data == Some([])
    ensures FetchTranscript(Delivered(data)) == None
  {
  }

  /** Only the first item is consulted: whatever follows it, the result is
      the same. */
  lemma OnlyFirstItem(first: Item, more1: seq<Item>, more2: seq<Item>)
    ensures FetchTranscript(Delivered(Some([first] + more1)))
         == FetchTranscript(Delivered(Some([first] + more2)))
  {
  }

  /** A non-empty flat text is returned verbatim and the tracks are ignored. */
  lemma TextPreferred(text: string, tracks: Option<seq<Track>>, more: seq<Item>)
    requires text != ""
    ensures FetchTranscript(Delivered(Some([Item(Some(text), tracks)] + more))) == Some(text)
  {
  }

  /** Without a usable text, the first track's segments are joined in order
      with single spaces: the length is the sum of the texts' lengths plus
      one per gap, no segments give "", and when no segment text holds a
      space, splitting on " " gives back the segment texts. */
  lemma TracksJoined(text: Option<string>, segs: seq<Segment>, others: seq<Track>, more: seq<Item>)
    requires text.None? || text == Some("")
    ensures var r := FetchTranscript(Delivered(Some([Item(text, Some([Track(Some(segs))] + others))] + more)));
      && r.Some?
      && (|segs| == 0 ==> r.value == "")
      && (|segs| > 0 ==> |r.value| == TotalLength(SegmentTexts(segs)) + |segs| - 1)
      && (|segs| > 0 && (forall i :: 0 <= i < |segs| ==> ' ' !in SegmentText(segs[i])) ==>
            Split(r.value, " ") == SegmentTexts(segs))
  {
    var texts := SegmentTexts(segs);
    JoinLength(texts, " ");
    if |segs| > 0 && (forall i :: 0 <= i < |segs| ==> ' ' !in SegmentText(segs[i])) {
      SplitJoin(texts, ' ');
    }
  }

  /** No usable text and no track gives null. */
  lemma NoTextNoTracksIsNull(text: Option<string>, tracks: Option<seq<Track>>, more: seq<Item>)
    requires text.None? || text == Some("")
    requires tracks.None? || tracks == Some([])
    ensures FetchTranscript(Delivered(Some([Item(text, tracks)] + more))) == None
  {
  }

  /** A first track lacking its `transcript` array makes the try block
      throw; the catch turns that into null. */
  lemma MissingTrackTranscriptIsNull(text: Option<string>, others: seq<Track>, more: seq<Item>)
    requires text.None? || text == Some("")
    ensures ShapeItems(Some([Item(text, Some([Track(None)] + others))] + more)) == Threw
    ensures FetchTranscript(Delivered(Some([Item(text, Some([Track(None)] + others))] + more))) == None
  {
  }

  /** The example of two segments "Hello" and "world" under an empty text. */
  lemma HelloWorld()
    ensures FetchTranscript(Delivered(Some([Item(Some(""),
              Some([Track(Some([Segment(Some("Hello")), Segment(Some("world"))]))]))])))
         == Some("Hello world")
  {
    var segs := [Segment(Some("Hello")), Segment(Some("world"))];
    var texts := SegmentTexts(segs);
    assert texts == ["Hello", "world"];
    assert texts[1..] == ["world"];
    assert Join(texts, " ") == "Hello world";
    assert ShapeItems(Some([Item(Some(""), Some([Track(Some(segs))]))])) == Returned(Some("Hello world"));
  }
}
