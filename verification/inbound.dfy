/** Data arriving with inbound events: the callback payloads the bot's inline
    buttons carry, how a payload picks its handler, and the argument of the
    `/download_mp3 <url>` command. */
module Inbound {
  import opened Outcomes
  import opened Text

  /** Longest URL part of a download payload, in characters. */
  const MaxCallbackUrlLen: nat := 170
  const DownloadPrefix := "dl|"
  const HelpData := "help"
  const StartData := "start_dl"

  /** The payload of a preview card's "Download MP3" button: the tag `dl|`
      and the stripped URL, cut to 170 characters. */
  function EncodeDownload(url: string): (data: string)
    ensures StartsWith(data, DownloadPrefix)
    ensures |data| == |DownloadPrefix|
                      + (if |Strip(url)| <= MaxCallbackUrlLen then |Strip(url)| else MaxCallbackUrlLen)
    ensures data[|DownloadPrefix|..] == Strip(url)[..|data| - |DownloadPrefix|]
  {
    var cut := Take(Strip(url), MaxCallbackUrlLen);
    assert (DownloadPrefix + cut)[|DownloadPrefix|..] == cut;
    DownloadPrefix + cut
  }

  /** The URL a download payload carries: whatever follows the first `|`,
      stripped. Without a `|` there is no URL (Python would index past the
      one-piece split). */
  function DecodeDownload(data: string): (url: Option<string>)
    ensures url.None? <==> '|' !in data
    ensures forall head, rest | data == head + ['|'] + rest && '|' !in head ::
      url == Some(Strip(rest))
  {
    SplitFirstUnique(data, '|');
    match SplitFirst(data, '|')
    case None => None
    case Some(parts) => Some(Strip(parts.1))
  }

  /** The first `|` of a tagged payload is the tag's own. */
  lemma DecodeTagged(rest: string)
    ensures DecodeDownload(DownloadPrefix + rest) == Some(Strip(rest))
  {
    assert DownloadPrefix + rest == "dl" + ['|'] + rest;
    SplitFirstAt("dl", '|', rest);
  }

  /** Round trip of the download payload: decoding gives back a prefix of the
      stripped URL of at most 170 characters, the whole of it exactly when it
      was at most 170 characters long; a longer URL comes back a strict
      prefix. */
  lemma DownloadPayloadRoundTrip(url: string)
    ensures DecodeDownload(EncodeDownload(url)).Some?
    ensures var back := DecodeDownload(EncodeDownload(url)).value;
      && |back| <= MaxCallbackUrlLen
      && StartsWith(Strip(url), back)
      && (back == Strip(url) <==> |Strip(url)| <= MaxCallbackUrlLen)
  {
    var u := Strip(url);
    var cut := Take(u, MaxCallbackUrlLen);
    DecodeTagged(cut);
    StripTake(u, MaxCallbackUrlLen);
  }

  /** Which callback handler a button payload reaches. */
  datatype Button = HelpButton | StartButton | DownloadButton(url: string) | Unhandled

  /** Handlers are tried in registration order: exact `help`, exact
      `start_dl`, then any payload starting with `dl|`. */
  function RouteCallback(data: string): (b: Button)
    ensures b == HelpButton <==> data == HelpData
    ensures b == StartButton <==> data == StartData
    ensures b.DownloadButton? <==> StartsWith(data, DownloadPrefix)
    ensures b.DownloadButton? ==> DecodeDownload(data) == Some(b.url)
  {
    RouteCallbackTags();
    if data == HelpData then HelpButton
    else if data == StartData then StartButton
    else if StartsWith(data, DownloadPrefix) then
      assert data == DownloadPrefix + data[3..];
      DecodeTagged(data[3..]);
      DownloadButton(Strip(data[|DownloadPrefix|..]))
    else Unhandled
  }

  /** The two fixed payloads are distinct and carry no download tag. */
  lemma RouteCallbackTags()
    ensures HelpData != StartData
    ensures !StartsWith(HelpData, DownloadPrefix) && !StartsWith(StartData, DownloadPrefix)
  {
    assert HelpData[0] != DownloadPrefix[0];
    assert StartData[0] != DownloadPrefix[0];
  }

  /** A preview card's download payload always reaches the download handler. */
  lemma DownloadPayloadRoutes(url: string)
    ensures RouteCallback(EncodeDownload(url)).DownloadButton?
    ensures Some(RouteCallback(EncodeDownload(url)).url) == DecodeDownload(EncodeDownload(url))
  {
  }

  /** Length of the leading run of non-whitespace characters. */
  function WordLength(s: string): (n: nat)
    ensures n <= |s|
    ensures forall i :: 0 <= i < n ==> !IsSpace(s[i])
    ensures n < |s| ==> IsSpace(s[n])
  {
    if s == [] || IsSpace(s[0]) then 0 else 1 + WordLength(s[1..])
  }

  /** Python's `s.split(maxsplit=1)`: the first whitespace-separated word and,
      if anything but whitespace follows it, the rest with its leading
      whitespace removed (trailing whitespace kept). Past the leading
      whitespace, the text is the first part, then whitespace alone (one
      part) or a non-empty run of whitespace and the second part (two
      parts). */
  function SplitOnce(s: string): (parts: seq<string>)
    ensures |parts| <= 2
    ensures parts == [] <==> AllSpace(s)
    ensures forall i :: 0 <= i < |parts| ==> parts[i] != []
    ensures |parts| >= 1 ==> forall i :: 0 <= i < |parts[0]| ==> !IsSpace(parts[0][i])
    ensures |parts| == 2 ==> !IsSpace(parts[1][0])
    ensures |parts| >= 1 ==> FirstWordIs(TrimLeft(s), parts[0])
    ensures |parts| == 1 ==> AllSpace(TrimLeft(s)[|parts[0]|..])
    ensures |parts| == 2 ==> SpaceThen(TrimLeft(s)[|parts[0]|..], parts[1])
  {
    var t := TrimLeft(s);
    if t == [] then
      assert s == s[..|s| - |t|];
      []
    else
      assert !AllSpace(s) by {
        assert s[|s| - |t|] == t[0];
      }
      var n := WordLength(t);
      SplitOnceTail(t[n..]);
      var rest := TrimLeft(t[n..]);
      if rest == [] then [t[..n]] else [t[..n], rest]
  }

  /** `w` is a prefix of `t` that ends where `t` ends or at whitespace. */
  predicate FirstWordIs(t: string, w: string) {
    |w| <= |t| && t[..|w|] == w && (|w| < |t| ==> IsSpace(t[|w|]))
  }

  /** `u` is a non-empty run of whitespace followed by `rest`. */
  predicate SpaceThen(u: string, rest: string) {
    |rest| < |u| && AllSpace(u[..|u| - |rest|]) && u[|u| - |rest|..] == rest
  }

  /** What follows the first word, once its leading whitespace is removed:
      nothing, when it is all whitespace; otherwise it ends the remainder,
      after a run of whitespace that is non-empty when the remainder starts
      with whitespace. */
  lemma SplitOnceTail(u: string)
    ensures TrimLeft(u) == [] ==> AllSpace(u)
    ensures TrimLeft(u) != [] && (u != [] && IsSpace(u[0])) ==> SpaceThen(u, TrimLeft(u))
  {
    var c := LeadingSpaces(u);
    if TrimLeft(u) == [] {
      assert c == |u|;
    } else if IsSpace(u[0]) {
      assert c >= 1;
      assert u[..|u| - |TrimLeft(u)|] == u[..c];
    }
  }

  /** The URL argument of `/download_mp3 <url>`: the stripped text after the
      command word, or empty when there is none (a missing text counts as
      empty). */
  function CommandArgument(text: Option<string>): (url: string)
    ensures IsStripped(url)
    ensures text.None? ==> url == ""
    ensures text.Some? && (forall i :: 0 <= i < |text.value| ==> !IsSpace(text.value[i])) ==> url == ""
    ensures forall cmd, sep, arg |
              && text == Some(cmd + sep + arg)
              && cmd != [] && (forall i :: 0 <= i < |cmd| ==> !IsSpace(cmd[i]))
              && sep != [] && AllSpace(sep) ::
              url == Strip(arg)
  {
    SplitOnceArguments();
    var t := match text case Some(t) => t case None => "";
    SplitOnceOfWord(t);
    assert Strip("") == "";
    Strip(SplitOnceSecond(t))
  }

  /** The second part of `split(maxsplit=1)`, empty when there is none. */
  function SplitOnceSecond(s: string): string {
    var parts := SplitOnce(s);
    if |parts| > 1 then parts[1] else ""
  }

  lemma {:induction false} WordLengthOfWord(w: string, rest: string)
    requires forall i :: 0 <= i < |w| ==> !IsSpace(w[i])
    requires rest != [] && IsSpace(rest[0])
    ensures WordLength(w + rest) == |w|
    decreases |w|
  {
    if w == [] {
      assert w + rest == rest;
    } else {
      assert (w + rest)[1..] == w[1..] + rest;
      WordLengthOfWord(w[1..], rest);
    }
  }

  /** A command word followed by whitespace and an argument splits into the
      word and the argument, up to surrounding whitespace. */
  lemma SplitOnceOf(cmd: string, sep: string, arg: string)
    requires cmd != [] && forall i :: 0 <= i < |cmd| ==> !IsSpace(cmd[i])
    requires sep != [] && AllSpace(sep)
    ensures SplitOnce(cmd + sep + arg)[0] == cmd
    ensures Strip(SplitOnceSecond(cmd + sep + arg)) == Strip(arg)
  {
    var s := cmd + sep + arg;
    assert s == cmd + (sep + arg);
    assert s[0] == cmd[0];
    LeadingSpacesIs(s, 0);
    assert TrimLeft(s) == s;
    WordLengthOfWord(cmd, sep + arg);
    assert s[..|cmd|] == cmd;
    assert s[|cmd|..] == sep + arg;
    TrimLeftOfSpaces(sep, arg);
    var rest := TrimLeft(arg);
    if rest == [] {
      assert SplitOnce(s) == [cmd];
      assert AllSpace(arg) by {
        assert arg[..|arg|] == arg;
      }
      StripPadding(arg, [], []);
      assert arg + [] + [] == arg;
      assert Strip([]) == [];
    } else {
      assert SplitOnce(s) == [cmd, rest];
      TrimLeftIdempotent(arg);
      assert Strip(rest) == Strip(arg);
    }
  }

  lemma SplitOnceArguments()
    ensures forall cmd, sep, arg |
              && cmd != [] && (forall i :: 0 <= i < |cmd| ==> !IsSpace(cmd[i]))
              && sep != [] && AllSpace(sep) ::
              Strip(SplitOnceSecond(cmd + sep + arg)) == Strip(arg)
  {
    forall cmd, sep, arg |
      && cmd != [] && (forall i :: 0 <= i < |cmd| ==> !IsSpace(cmd[i]))
      && sep != [] && AllSpace(sep)
      ensures Strip(SplitOnceSecond(cmd + sep + arg)) == Strip(arg)
    {
      SplitOnceOf(cmd, sep, arg);
    }
  }

  /** A lone word splits into itself alone. */
  lemma SplitOnceOfWord(w: string)
    ensures (forall i :: 0 <= i < |w| ==> !IsSpace(w[i])) ==> SplitOnceSecond(w) == ""
  {
    if w != [] && forall i :: 0 <= i < |w| ==> !IsSpace(w[i]) {
      LeadingSpacesIs(w, 0);
      assert TrimLeft(w) == w;
      assert WordLength(w) == |w|;
    }
  }
}
