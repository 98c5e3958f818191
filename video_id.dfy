/** The backend's video-ID extractor: three URL shapes tried in a fixed
    order, each taking the text after the first occurrence of a marker and
    cutting it at a stop character. */
module VideoId {
  import opened Js
  import opened Strings

  const WatchMarker: string := "v="
  const ShortLinkMarker: string := "youtu.be/"
  const ShortsMarker: string := "/shorts/"

  /** One rule, `url.split(marker)[1].split(stop)[0]`. When piece 1 does not
      exist, `undefined.split` throws and the surrounding catch returns
      null: that is the None branch. */
  function ApplyRule(url: string, marker: string, stop: char): (r: Option<string>)
    requires |marker| > 0
    ensures r.Some? <==> Includes(url, marker)
  {
    var parts := Split(url, marker);
    if |parts| < 2 then None
    else Some(Split(parts[1], [stop])[0])
  }

  /** `extractVideoId(url)` for a string `url`. It returns null exactly
      when none of the three markers occurs: the catch is never taken. */
  function ExtractVideoId(url: string): (r: Option<string>)
    ensures r.None? <==>
      !Includes(url, WatchMarker) && !Includes(url, ShortLinkMarker) && !Includes(url, ShortsMarker)
  {
    if Includes(url, WatchMarker) then ApplyRule(url, WatchMarker, '&')
    else if Includes(url, ShortLinkMarker) then ApplyRule(url, ShortLinkMarker, '?')
    else if Includes(url, ShortsMarker) then ApplyRule(url, ShortsMarker, '?')
    else None
  }

  /** `extractVideoId(v)` for any request value: on a non-string, `includes`
      or `split` is not a function, and the catch returns null. */
  function ExtractVideoIdOf(v: Value): (r: Option<string>)
  {
    match v
    case Text(s) => ExtractVideoId(s)
    case _ => None
  }

  /** The text after the first occurrence of `marker` in `url`. */
  function AfterFirst(url: string, marker: string): (rest: string)
    requires |marker| > 0 && Includes(url, marker)
    ensures |rest| <= |url| - |marker|
  {
    url[IndexOf(url, marker).value + |marker|..]
  }

  /** `id` is what a rule keeps of `rest`, the text after the marker: a
      prefix of `rest` that contains no `stop` character and in which no
      further occurrence of `marker` begins, ending at the end of `rest`, at
      a `stop` character or where the next `marker` begins. */
  predicate IsCut(id: string, rest: string, marker: string, stop: char) {
    && id <= rest
    && (forall k :: 0 <= k < |id| ==> id[k] != stop)
    && (forall p :: 0 <= p < |id| ==> !MatchAt(rest, marker, p))
    && (|id| == |rest| || rest[|id|] == stop || MatchAt(rest, marker, |id|))
  }

  /** The description above leaves no choice: at most one `id` meets it. */
  lemma CutIsUnique(id1: string, id2: string, rest: string, marker: string, stop: char)
    requires IsCut(id1, rest, marker, stop) && IsCut(id2, rest, marker, stop)
    ensures id1 == id2
  {
  }

  /** A cut never contains its stop character nor its own marker. */
  lemma CutExcludesMarker(id: string, rest: string, marker: string, stop: char)
    requires |marker| > 0
    requires IsCut(id, rest, marker, stop)
    ensures stop !in id
    ensures !Includes(id, marker)
  {
    if Includes(id, marker) {
      var p := IndexOf(id, marker).value;
      assert id[p..] <= rest[p..];
      assert MatchAt(rest, marker, p);
    }
  }

  /** When the marker occurs, the rule never throws and yields the cut of
      the text after the marker's first occurrence. */
  lemma {:induction false} ApplyRuleSpec(url: string, marker: string, stop: char)
    requires |marker| > 0 && Includes(url, marker)
    ensures ApplyRule(url, marker, stop).Some?
    ensures IsCut(ApplyRule(url, marker, stop).value, AfterFirst(url, marker), marker, stop)
  {
    var i := IndexOf(url, marker).value;
    var rest := AfterFirst(url, marker);
    assert Split(url, marker) == [url[..i]] + Split(rest, marker);
    var seg := Split(rest, marker)[0];
    var id := Split(seg, [stop])[0];
    CharMatch(seg, stop);
    // seg: rest up to the next marker
    match IndexOf(rest, marker)
    case None => assert seg == rest;
    case Some(j) => assert seg == rest[..j];
    // id: seg up to the first stop
    match IndexOf(seg, [stop])
    case None =>
      assert id == seg;
    case Some(q) =>
      assert id == seg[..q];
      assert rest[q] == seg[q] == stop;
  }

  /** Rule priority and the shape of every non-null result: the first marker
      present in the order "v=", "youtu.be/", "/shorts/" decides, and the
      result is the cut of the text after that marker's first occurrence,
      at "&" for the first rule and at "?" for the other two. */
  lemma ExtractVideoIdSpec(url: string)
    ensures Includes(url, WatchMarker) ==>
      ExtractVideoId(url).Some? &&
      IsCut(ExtractVideoId(url).value, AfterFirst(url, WatchMarker), WatchMarker, '&')
    ensures !Includes(url, WatchMarker) && Includes(url, ShortLinkMarker) ==>
      ExtractVideoId(url).Some? &&
      IsCut(ExtractVideoId(url).value, AfterFirst(url, ShortLinkMarker), ShortLinkMarker, '?')
    ensures !Includes(url, WatchMarker) && !Includes(url, ShortLinkMarker) && Includes(url, ShortsMarker) ==>
      ExtractVideoId(url).Some? &&
      IsCut(ExtractVideoId(url).value, AfterFirst(url, ShortsMarker), ShortsMarker, '?')
  {
    if Includes(url, WatchMarker) {
      ApplyRuleSpec(url, WatchMarker, '&');
    } else if Includes(url, ShortLinkMarker) {
      ApplyRuleSpec(url, ShortLinkMarker, '?');
    } else if Includes(url, ShortsMarker) {
      ApplyRuleSpec(url, ShortsMarker, '?');
    }
  }

  /** What a non-null result never contains: rule 1 keeps no "&" and no
      "v="; rules 2 and 3 keep no "?" and not their own marker. */
  lemma ExtractedIdExcludes(url: string)
    requires ExtractVideoId(url).Some?
    ensures var id := ExtractVideoId(url).value;
      if Includes(url, WatchMarker) then '&' !in id && !Includes(id, WatchMarker)
      else if Includes(url, ShortLinkMarker) then '?' !in id && !Includes(id, ShortLinkMarker)
      else '?' !in id && !Includes(id, ShortsMarker)
  {
    var id := ExtractVideoId(url).value;
    ExtractVideoIdSpec(url);
    if Includes(url, WatchMarker) {
      CutExcludesMarker(id, AfterFirst(url, WatchMarker), WatchMarker, '&');
    } else if Includes(url, ShortLinkMarker) {
      CutExcludesMarker(id, AfterFirst(url, ShortLinkMarker), ShortLinkMarker, '?');
    } else {
      CutExcludesMarker(id, AfterFirst(url, ShortsMarker), ShortsMarker, '?');
    }
  }

  /** A URL containing "v=" yields the cut of the text after it. */
  lemma WatchYields(url: string, id: string)
    requires Includes(url, WatchMarker)
    requires IsCut(id, AfterFirst(url, WatchMarker), WatchMarker, '&')
    ensures ExtractVideoId(url) == Some(id)
  {
    ExtractVideoIdSpec(url);
    CutIsUnique(ExtractVideoId(url).value, id, AfterFirst(url, WatchMarker), WatchMarker, '&');
  }

  /** An `id` holding neither "&" nor "v=" is the first-rule cut of
      `id + "v=" + tail`. */
  lemma CutBeforeNextMarker(id: string, tail: string)
    requires '&' !in id && !Includes(id, WatchMarker)
    ensures IsCut(id, id + WatchMarker + tail, WatchMarker, '&')
  {
    var rest := id + WatchMarker + tail;
    assert rest[..|id|] == id;
    assert rest[|id|..] == WatchMarker + tail;
    IncludesIff(id, WatchMarker);
    forall p | 0 <= p < |id|
      ensures !MatchAt(rest, WatchMarker, p)
    {
      if p + 2 <= |id| {
        assert rest[p..][..2] == id[p..][..2];
        assert !MatchAt(id, WatchMarker, p);
      } else {
        assert rest[p..][1] == rest[|id|];
      }
    }
  }

  /** The first-rule piece ends where "v=" occurs again: after a prefix
      without "v=", an `id` holding neither "&" nor "v=" followed by a
      second "v=" is exactly what is extracted, whatever follows. */
  lemma WatchCutAtNextMarker(pre: string, id: string, tail: string)
    requires !Includes(pre, WatchMarker)
    requires '&' !in id && !Includes(id, WatchMarker)
    ensures ExtractVideoId(pre + WatchMarker + id + WatchMarker + tail) == Some(id)
  {
    var rest := id + WatchMarker + tail;
    var url := pre + WatchMarker + rest;
    assert url == pre + WatchMarker + id + WatchMarker + tail;
    assert url[..|pre|] == pre;
    assert url[|pre|..] == WatchMarker + rest;
    IncludesIff(pre, WatchMarker);
    forall j | 0 <= j < |pre|
      ensures !MatchAt(url, WatchMarker, j)
    {
      if j + 2 <= |pre| {
        assert url[j..][..2] == pre[j..][..2];
        assert !MatchAt(pre, WatchMarker, j);
      } else {
        assert url[j..][1] == url[|pre|];
      }
    }
    IndexOfFirst(url, WatchMarker, |pre|);
    assert url[|pre| + 2..] == rest;
    CutBeforeNextMarker(id, tail);
    WatchYields(url, id);
  }

  /** The first-rule piece ends at the next "v=", not only at "&". */
  lemma RepeatedWatchMarker(url: string)
    requires url == "a?v=abcv=x&y"
    ensures ExtractVideoId(url) == Some("abc")
  {
    var pre, id, tail := url[..2], url[4..7], url[9..];
    assert url == pre + WatchMarker + id + WatchMarker + tail;
    assert id == "abc";
    FirstCharAbsent(id, WatchMarker, |id|);
    FirstCharAbsent(pre, WatchMarker, |pre|);
    WatchCutAtNextMarker(pre, id, tail);
  }

  /** A URL ending in its marker yields the empty string, not null. */
  lemma BareShortLink()
    ensures ExtractVideoId("https://youtu.be/") == Some("")
  {
    var url := "https://youtu.be/";
    FirstCharAbsent(url, WatchMarker, |url|);
    assert url[8..] == ShortLinkMarker;
    FirstCharAbsent(url, ShortLinkMarker, 8);
    IndexOfFirst(url, ShortLinkMarker, 8);
    var rest := AfterFirst(url, ShortLinkMarker);
    assert |rest| == 0;
    ExtractVideoIdSpec(url);
    CutIsUnique(ExtractVideoId(url).value, "", rest, ShortLinkMarker, '?');
  }

  /** A URL without "v=" whose text after "youtu.be/" cuts to `id` yields `id`. */
  lemma ShortLinkYields(url: string, id: string)
    requires !Includes(url, WatchMarker) && Includes(url, ShortLinkMarker)
    requires IsCut(id, AfterFirst(url, ShortLinkMarker), ShortLinkMarker, '?')
    ensures ExtractVideoId(url) == Some(id)
  {
    ExtractVideoIdSpec(url);
    CutIsUnique(ExtractVideoId(url).value, id, AfterFirst(url, ShortLinkMarker), ShortLinkMarker, '?');
  }

  /** A short link followed by an ID that holds no "?" and neither
      "v=" nor "youtu.be/" yields exactly that ID. */
  lemma ShortLinkId(id: string)
    requires '?' !in id && !Includes(id, WatchMarker) && !Includes(id, ShortLinkMarker)
    ensures ExtractVideoId("https://youtu.be/" + id) == Some(id)
  {
    var head := "https://";
    var url := head + ShortLinkMarker + id;
    assert url == "https://youtu.be/" + id;
    assert url[..8] == head;
    assert url[8..] == ShortLinkMarker + id;
    assert MatchAt(url, ShortLinkMarker, 8);
    assert url[17..] == id;
    assert url[..17] == head + ShortLinkMarker;
    FirstCharAbsent(url, WatchMarker, 17);
    MatchInSuffix(url, WatchMarker, 17);
    assert !Includes(url, WatchMarker);
    FirstCharAbsent(url, ShortLinkMarker, 8);
    IndexOfFirst(url, ShortLinkMarker, 8);
    ShortLinkYields(url, id);
  }
}
