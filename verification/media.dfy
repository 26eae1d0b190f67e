/** Pure pieces of the download job: the metadata record derived from the
    extractor's info dictionary, the choice of the produced MP3 file, and the
    title and caption sent with the audio. */
module Media {
  import opened Outcomes
  import opened Text
  import opened Duration

  const FallbackTitle := "Unknown Title"
  const DegradedTitle := "MP3"
  const DefaultId := "audio"
  const Mp3Suffix := ".mp3"
  const MaxTitleLen: nat := 64
  const FileNotFound := "FileNotFoundError"

  /** The keys of the extractor's info dictionary the bot reads; a missing
      key is `None`. The duration is taken as an integer already. */
  datatype Info = Info(
    id: Option<string>,
    title: Option<string>,
    duration: Option<int>,
    thumbnail: Option<string>,
    uploader: Option<string>,
    channel: Option<string>)

  /** Immutable metadata of one video, built only by `DeriveMeta`. */
  datatype VideoMeta = VideoMeta(
    url: string,
    title: string,
    durationStr: string,
    durationSec: int,
    thumbnail: Option<string>,
    uploader: Option<string>)

  /** Python truthiness of an optional string: present and non-empty. */
  predicate Truthy(s: Option<string>) {
    s.Some? && s.value != []
  }

  /** Python's `s or fallback` for an optional string. */
  function OrElse(s: Option<string>, fallback: string): (r: string)
    ensures Truthy(s) ==> r == s.value
    ensures !Truthy(s) ==> r == fallback
  {
    if Truthy(s) then s.value else fallback
  }

  /** The metadata record of a successful probe. The title falls back to
      `Unknown Title`, a missing duration counts as 0, the uploader falls
      back to the channel (present or not), and the displayed duration is the
      rendering of the duration in seconds, which reads back as it. */
  function DeriveMeta(url: string, info: Info): (meta: VideoMeta)
    ensures meta.url == url && meta.thumbnail == info.thumbnail
    ensures meta.title != []
    ensures Truthy(info.title) ==> meta.title == info.title.value
    ensures !Truthy(info.title) ==> meta.title == FallbackTitle
    ensures info.duration.None? ==> meta.durationSec == 0
    ensures info.duration.Some? ==> meta.durationSec == info.duration.value
    ensures meta.durationStr == FmtDuration(meta.durationSec)
    ensures meta.durationStr == UnknownDuration <==> meta.durationSec <= 0
    ensures ParseDuration(meta.durationStr)
            == if meta.durationSec > 0 then Some(meta.durationSec) else None
    ensures '\n' !in meta.durationStr
    ensures Truthy(info.uploader) ==> meta.uploader == info.uploader
    ensures !Truthy(info.uploader) ==> meta.uploader == info.channel
  {
    var seconds := match info.duration case Some(d) => d case None => 0;
    FmtDurationRoundTrip(seconds);
    var shown := FmtDuration(seconds);
    assert '\n' !in shown by {
      if seconds <= 0 {
        assert shown == "Unknown";
      } else {
        assert forall i :: 0 <= i < |shown| ==> shown[i] != '\n';
      }
    }
    VideoMeta(
      url := url,
      title := OrElse(info.title, FallbackTitle),
      durationStr := shown,
      durationSec := seconds,
      thumbnail := info.thumbnail,
      uploader := if Truthy(info.uploader) then info.uploader else info.channel)
  }

  /** `get_video_meta`: a failed probe (any exception) gives no metadata. */
  function ProbeMeta(url: string, probe: Option<Info>): (meta: Option<VideoMeta>)
    ensures meta.None? <==> probe.None?
    ensures probe.Some? ==> meta == Some(DeriveMeta(url, probe.value))
  {
    match probe
    case None => None
    case Some(info) => Some(DeriveMeta(url, info))
  }

  /** The name the output template gives the MP3: the video id, or `audio`
      when the id is missing or empty, with the `.mp3` extension. */
  function Mp3Name(id: Option<string>): (name: string)
    ensures EndsWith(name, Mp3Suffix)
    ensures Truthy(id) ==> name == id.value + Mp3Suffix
    ensures !Truthy(id) ==> name == DefaultId + Mp3Suffix
  {
    var name := OrElse(id, DefaultId) + Mp3Suffix;
    assert name[|name| - |Mp3Suffix|..] == Mp3Suffix;
    name
  }

  predicate IsMp3(name: string) {
    EndsWith(name, Mp3Suffix)
  }

  /** Position of the first `*.mp3` entry of a directory listing. */
  function FirstMp3(listing: seq<string>): (k: Option<nat>)
    ensures k.None? <==> forall i :: 0 <= i < |listing| ==> !IsMp3(listing[i])
    ensures k.Some? ==> k.value < |listing| && IsMp3(listing[k.value])
    ensures k.Some? ==> forall i :: 0 <= i < k.value ==> !IsMp3(listing[i])
  {
    if listing == [] then None
    else if IsMp3(listing[0]) then Some(0)
    else
      match FirstMp3(listing[1..])
      case None => None
      case Some(k) => Some(k + 1)
  }

  /** The file `_download_mp3` returns, from the workspace listing after the
      download: the expected name when it exists, else the first `*.mp3` of
      the listing; with no MP3 at all it raises FileNotFoundError. */
  function SelectMp3(id: Option<string>, listing: seq<string>): (r: Result<string, string>)
    ensures Mp3Name(id) in listing ==> r == Ok(Mp3Name(id))
    ensures r.Ok? ==> r.value in listing && IsMp3(r.value)
    ensures Mp3Name(id) !in listing && r.Ok? ==>
      exists k :: 0 <= k < |listing| && r.value == listing[k]
                  && forall i :: 0 <= i < k ==> !IsMp3(listing[i])
    ensures r.Err? <==> forall i :: 0 <= i < |listing| ==> !IsMp3(listing[i])
    ensures r.Err? ==> r.error == FileNotFound
  {
    var expected := Mp3Name(id);
    if expected in listing then Ok(expected)
    else
      match FirstMp3(listing)
      case Some(k) => Ok(listing[k])
      case None => Err(FileNotFound)
  }

  /** The title sent with the audio: the re-probed title, or `MP3` when the
      re-probe failed, cut to 64 characters. */
  function CaptionTitle(meta: Option<VideoMeta>): (t: string)
    ensures |t| <= MaxTitleLen
    ensures meta.None? ==> t == DegradedTitle
    ensures meta.Some? ==> StartsWith(meta.value.title, t)
    ensures meta.Some? ==> (t == meta.value.title <==> |meta.value.title| <= MaxTitleLen)
    ensures meta.Some? && |meta.value.title| > MaxTitleLen ==> |t| == MaxTitleLen
  {
    Take(match meta case Some(v) => v.title case None => DegradedTitle, MaxTitleLen)
  }

  /** The duration sent with the audio: the re-probed one, or `Unknown`. */
  function CaptionDuration(meta: Option<VideoMeta>): (d: string)
    ensures meta.None? ==> d == UnknownDuration
    ensures meta.Some? ==> d == meta.value.durationStr
  {
    match meta
    case Some(v) => v.durationStr
    case None => UnknownDuration
  }

  const TitleLabel := "Title: "
  const DurationLabel := "Duration: "

  /** The audio caption: a title line and a duration line. */
  function Caption(meta: Option<VideoMeta>): string {
    TitleLabel + CaptionTitle(meta) + "\n" + DurationLabel + CaptionDuration(meta)
  }

  /** Reads a caption back: the title is everything between the title label
      and the last line break, the duration what follows the duration label
      on the last line. */
  function ParseCaption(c: string): Option<(string, string)> {
    if !StartsWith(c, TitleLabel) then None
    else
      match SplitLast(c[|TitleLabel|..], '\n')
      case None => None
      case Some(parts) =>
        if StartsWith(parts.1, DurationLabel) then Some((parts.0, parts.1[|DurationLabel|..]))
        else None
  }

  /** The two-line layout round-trips for any title and any duration free
      of line breaks. */
  lemma CaptionLayoutRoundTrip(t: string, d: string)
    ensures '\n' !in d ==> ParseCaption(TitleLabel + t + "\n" + DurationLabel + d) == Some((t, d))
  {
    if '\n' !in d {
      var c := TitleLabel + t + "\n" + DurationLabel + d;
      assert c == TitleLabel + (t + ['\n'] + (DurationLabel + d));
      assert StartsWith(c, TitleLabel);
      assert c[|TitleLabel|..] == t + ['\n'] + (DurationLabel + d);
      assert '\n' !in DurationLabel + d by {
        assert forall i :: 0 <= i < |DurationLabel| ==> DurationLabel[i] != '\n';
      }
      SplitLastAt(t, '\n', DurationLabel + d);
      assert (DurationLabel + d)[..|DurationLabel|] == DurationLabel;
      assert (DurationLabel + d)[|DurationLabel|..] == d;
    }
  }

  /** Round trip: the caption carries exactly the sent title and duration,
      even when the title itself holds line breaks (a duration never does). */
  lemma CaptionRoundTrip(meta: Option<VideoMeta>)
    requires meta.Some? ==> '\n' !in meta.value.durationStr
    ensures ParseCaption(Caption(meta)) == Some((CaptionTitle(meta), CaptionDuration(meta)))
  {
    assert '\n' !in UnknownDuration;
    CaptionLayoutRoundTrip(CaptionTitle(meta), CaptionDuration(meta));
  }

  /** The duration sent with the audio reads back as the probed duration in
      seconds when it is positive, and as nothing when it is not or when the
      re-probe failed. */
  lemma ProbedCaptionDuration(url: string, probe: Option<Info>)
    ensures var d := CaptionDuration(ProbeMeta(url, probe));
      && (probe.None? ==> d == UnknownDuration)
      && (probe.Some? ==>
            var secs := match probe.value.duration case Some(s) => s case None => 0;
            ParseDuration(d) == if secs > 0 then Some(secs) else None)
  {
  }

  /** Every caption built from a probe round-trips: the shown duration
      never holds a line break. */
  lemma ProbedCaptionRoundTrip(url: string, probe: Option<Info>)
    ensures var meta := ProbeMeta(url, probe);
      ParseCaption(Caption(meta)) == Some((CaptionTitle(meta), CaptionDuration(meta)))
  {
    CaptionRoundTrip(ProbeMeta(url, probe));
  }
}
