/** The per-user conversation state and the dispatcher: one step function
    takes the process-wide "waiting for a URL" map and an inbound event to
    the new map and the reply the bot gives. */
module Conversation {
  import opened Outcomes
  import opened Text
  import opened Classifier
  import opened Inbound

  type UserId = int

  /** `waiting_for_url`: user id to "the next text is a link". A missing
      entry means not waiting. */
  type WaitingMap = map<UserId, bool>

  /** Inbound events, already sorted to the handler that receives them:
      `/start`, `/download_mp3 ...`, any other text message (in a chat of
      the given type: "private", "group", "supergroup", ...), and an inline
      button press with its callback payload. */
  datatype Event =
    | StartCommand(user: UserId)
    | DownloadCommand(user: UserId, text: Option<string>)
    | TextMessage(user: UserId, chatType: string, text: Option<string>)
    | ButtonPress(user: UserId, data: string)

  /** What the bot does in reply. `Preview(url)` runs the preview flow
      (probe, then a card with a confirm button); `StartJob(url)` runs a
      download job; `Silent` sends nothing. */
  datatype Action =
    | Welcome          // the /start text with the home keyboard
    | Usage            // "Use: /download_mp3 <youtube_url>"
    | Preview(url: string)
    | HelpText         // the help text with the home keyboard
    | AskForUrl        // "Send a YouTube URL now."
    | AskValidLink     // "Valid YouTube URL ..."
    | HomePrompt       // "Tap Download MP3." with the home keyboard
    | Silent
    | InvalidUrlAlert  // "Invalid URL." alert on the button
    | StartJob(url: string)

  datatype Reply = Reply(waiting: WaitingMap, action: Action)

  /** `waiting_for_url.get(user)` is truthy: the user has an entry, and it
      is `true`. */
  predicate IsWaiting(m: WaitingMap, u: UserId)
    ensures IsWaiting(m, u) <==> Entry(m, u) == Some(true)
  {
    u in m && m[u]
  }

  /** `dict.get`: a user's entry, if any. */
  function Entry(m: WaitingMap, u: UserId): Option<bool> {
    if u in m then Some(m[u]) else None
  }

  /** Only `true` is ever stored. */
  predicate OnlyTrueFlags(m: WaitingMap) {
    forall u :: u in m ==> m[u]
  }

  /** `m2` is `m1` for every user but `u`. */
  ghost predicate OthersKept(m1: WaitingMap, m2: WaitingMap, u: UserId) {
    forall v :: v != u ==> Entry(m2, v) == Entry(m1, v)
  }

  /** The text a text handler looks at: the message text, or empty, stripped. */
  function TextOf(text: Option<string>): string {
    Strip(match text case Some(s) => s case None => "")
  }

  /** The free-text handler. The waiting check comes first, in any chat
      type: a waiting user's text is previewed exactly when it is a link,
      which clears the flag, and otherwise the user is asked for a valid
      link and stays waiting. A user who is not waiting gets a preview
      exactly for a link in a private chat, silence in a group or
      supergroup otherwise, and the home prompt in every remaining case,
      with the map unchanged. */
  function OnText(m: WaitingMap, u: UserId, chatType: string, text: Option<string>): (r: Reply)
    ensures r.waiting == m || r.waiting == m - {u}
    ensures r.action.Preview? ==> LooksLikeYoutubeUrl(r.action.url) && IsStripped(r.action.url)
    ensures !r.action.StartJob?
    ensures var t := TextOf(text);
      && (IsWaiting(m, u) ==>
            && (r.action == Preview(t) <==> LooksLikeYoutubeUrl(t))
            && (r.action == AskValidLink <==> !LooksLikeYoutubeUrl(t))
            && (Entry(r.waiting, u).None? <==> LooksLikeYoutubeUrl(t))
            && (!LooksLikeYoutubeUrl(t) ==> r.waiting == m))
      && (!IsWaiting(m, u) ==>
            && r.waiting == m
            && (r.action == Preview(t) <==> chatType == "private" && LooksLikeYoutubeUrl(t))
            && (r.action == Silent <==>
                  !(chatType == "private" && LooksLikeYoutubeUrl(t))
                  && (chatType == "group" || chatType == "supergroup"))
            && (r.action == HomePrompt <==>
                  !(chatType == "private" && LooksLikeYoutubeUrl(t))
                  && chatType != "group" && chatType != "supergroup"))
  {
    var t := TextOf(text);
    if IsWaiting(m, u) then
      if !LooksLikeYoutubeUrl(t) then Reply(m, AskValidLink)
      else Reply(m - {u}, Preview(t))
    else if chatType == "private" && LooksLikeYoutubeUrl(t) then Reply(m, Preview(t))
    else if chatType == "group" || chatType == "supergroup" then Reply(m, Silent)
    else Reply(m, HomePrompt)
  }

  /** The button handlers, chosen by the payload: help clears the flag and
      sends the help text; `start_dl` sets the flag and asks for a URL; a
      download payload starts a job on its decoded URL exactly when that URL
      passes the classifier, and is refused with an alert otherwise, the map
      untouched; any other payload gets no reply. */
  function OnButton(m: WaitingMap, u: UserId, data: string): (r: Reply)
    ensures r.waiting == m[u := true] || r.waiting == m - {u} || r.waiting == m
    ensures r.action.StartJob? ==> LooksLikeYoutubeUrl(r.action.url) && IsStripped(r.action.url)
    ensures !r.action.Preview?
    ensures data == HelpData ==>
      r.action == HelpText && Entry(r.waiting, u).None? && OthersKept(m, r.waiting, u)
    ensures data == StartData ==>
      r.action == AskForUrl && IsWaiting(r.waiting, u) && OthersKept(m, r.waiting, u)
    ensures StartsWith(data, DownloadPrefix) ==>
      && r.waiting == m
      && DecodeDownload(data).Some?
      && (r.action == StartJob(DecodeDownload(data).value) <==> LooksLikeYoutubeUrl(DecodeDownload(data).value))
      && (r.action == InvalidUrlAlert <==> !LooksLikeYoutubeUrl(DecodeDownload(data).value))
    ensures data != HelpData && data != StartData && !StartsWith(data, DownloadPrefix) ==>
      r == Reply(m, Silent)
  {
    match RouteCallback(data)
    case HelpButton => Reply(m - {u}, HelpText)
    case StartButton => Reply(m[u := true], AskForUrl)
    case DownloadButton(url) =>
      if LooksLikeYoutubeUrl(url) then Reply(m, StartJob(url)) else Reply(m, InvalidUrlAlert)
    case Unhandled => Reply(m, Silent)
  }

  /** `/start`: the welcome, and the user is no longer waiting; no other
      user's entry changes. */
  function OnStart(m: WaitingMap, u: UserId): (r: Reply)
    ensures r.action == Welcome
    ensures Entry(r.waiting, u).None? && StateOf(r.waiting, u) == Idle
    ensures OthersKept(m, r.waiting, u)
  {
    Reply(m - {u}, Welcome)
  }

  /** `/download_mp3 <url>`: a preview of the argument when it is a link,
      the usage line otherwise; the map is left alone. For a command word,
      whitespace and an argument, the preview is of the stripped argument. */
  function OnCommand(m: WaitingMap, text: Option<string>): (r: Reply)
    ensures r.waiting == m
    ensures r.action.Preview? || r.action == Usage
    ensures r.action.Preview? ==> LooksLikeYoutubeUrl(r.action.url) && IsStripped(r.action.url)
    ensures forall cmd, sep, arg |
              && text == Some(cmd + sep + arg)
              && cmd != [] && (forall i :: 0 <= i < |cmd| ==> !IsSpace(cmd[i]))
              && sep != [] && AllSpace(sep) ::
              && (r.action == Preview(Strip(arg)) <==> LooksLikeYoutubeUrl(Strip(arg)))
              && (r.action == Usage <==> !LooksLikeYoutubeUrl(Strip(arg)))
    ensures text.None? ==> r.action == Usage
    ensures text.Some? && (forall i :: 0 <= i < |text.value| ==> !IsSpace(text.value[i])) ==>
              r.action == Usage
  {
    var url := CommandArgument(text);
    assert !LooksLikeYoutubeUrl("");
    if !LooksLikeYoutubeUrl(url) then Reply(m, Usage) else Reply(m, Preview(url))
  }

  /** One dispatcher step. What is previewed or downloaded has passed the
      classifier and is stripped. */
  function Step(m: WaitingMap, e: Event): (r: Reply)
    ensures r.action.Preview? ==> LooksLikeYoutubeUrl(r.action.url) && IsStripped(r.action.url)
    ensures r.action.StartJob? ==> LooksLikeYoutubeUrl(r.action.url) && IsStripped(r.action.url)
  {
    match e
    case StartCommand(u) => OnStart(m, u)
    case DownloadCommand(u, text) => OnCommand(m, text)
    case TextMessage(u, chatType, text) => OnText(m, u, chatType, text)
    case ButtonPress(u, data) => OnButton(m, u, data)
  }

  /** What a step does to the map: no event changes any other user's entry
      and only `true` is ever stored; the `start_dl` button arms the flag,
      `/start` and the help button clear it, and `/download_mp3` and
      download buttons never touch the map. */
  lemma StepMapEffects(m: WaitingMap, e: Event)
    ensures var n := Step(m, e).waiting;
      && n - {e.user} == m - {e.user}
      && OthersKept(m, n, e.user)
      && (OnlyTrueFlags(m) ==> OnlyTrueFlags(n))
      && (e.ButtonPress? && e.data == StartData ==> n == m[e.user := true])
      && (e.StartCommand? || (e.ButtonPress? && e.data == HelpData) ==> n == m - {e.user})
      && (e.DownloadCommand? || (e.ButtonPress? && StartsWith(e.data, DownloadPrefix)) ==> n == m)
  {
    var n := Step(m, e).waiting;
    StepKeepsOthers(m, e);
    match e
    case StartCommand(u) =>
    case DownloadCommand(u, text) =>
    case TextMessage(u, chatType, text) =>
    case ButtonPress(u, data) =>
      RouteCallbackTags();
      if data == StartData {
        assert n == m[u := true];
        assert m[u := true] - {u} == m - {u};
      } else if data == HelpData {
        assert n == m - {u};
      } else {
        assert n == m;
      }
  }

  lemma StepKeepsOthers(m: WaitingMap, e: Event)
    ensures OthersKept(m, Step(m, e).waiting, e.user)
  {
    var n := Step(m, e).waiting;
    forall v | v != e.user
      ensures Entry(n, v) == Entry(m, v)
    {
      assert n == m || n == m - {e.user} || n == m[e.user := true];
    }
  }

  /** The two-state machine per user: Idle (no truthy entry) or AwaitingLink. */
  datatype ConvState = Idle | AwaitingLink

  function StateOf(m: WaitingMap, u: UserId): ConvState {
    if IsWaiting(m, u) then AwaitingLink else Idle
  }

  /** The transitions of a user's own events: start_dl leads to AwaitingLink
      from anywhere; /start and help lead to Idle; a link text leaves
      AwaitingLink for Idle and a non-link text keeps it; /download_mp3 and
      download buttons keep the state. */
  lemma Transitions(m: WaitingMap, e: Event)
    ensures var before, after := StateOf(m, e.user), StateOf(Step(m, e).waiting, e.user);
      && (e.ButtonPress? && e.data == StartData ==> after == AwaitingLink)
      && (e.StartCommand? || (e.ButtonPress? && e.data == HelpData) ==> after == Idle)
      && (e.DownloadCommand? || (e.ButtonPress? && StartsWith(e.data, DownloadPrefix)) ==> after == before)
      && (e.TextMessage? && before == AwaitingLink ==>
            (after == Idle <==> LooksLikeYoutubeUrl(TextOf(e.text))))
      && (e.TextMessage? && before == Idle ==> after == Idle)
  {
  }

  /** Replies and the user's own next entry depend on nothing but that
      user's current entry: another user's state never influences them. */
  lemma StepIsLocal(m1: WaitingMap, m2: WaitingMap, e: Event)
    requires Entry(m1, e.user) == Entry(m2, e.user)
    ensures Step(m1, e).action == Step(m2, e).action
    ensures Entry(Step(m1, e).waiting, e.user) == Entry(Step(m2, e).waiting, e.user)
  {
    match e
    case StartCommand(u) =>
    case DownloadCommand(u, text) =>
    case TextMessage(u, chatType, text) => OnTextIsLocal(m1, m2, u, chatType, text);
    case ButtonPress(u, data) => OnButtonIsLocal(m1, m2, u, data);
  }

  lemma OnTextIsLocal(m1: WaitingMap, m2: WaitingMap, u: UserId, chatType: string, text: Option<string>)
    requires Entry(m1, u) == Entry(m2, u)
    ensures OnText(m1, u, chatType, text).action == OnText(m2, u, chatType, text).action
    ensures Entry(OnText(m1, u, chatType, text).waiting, u) == Entry(OnText(m2, u, chatType, text).waiting, u)
  {
    assert IsWaiting(m1, u) == IsWaiting(m2, u);
  }

  lemma OnButtonIsLocal(m1: WaitingMap, m2: WaitingMap, u: UserId, data: string)
    requires Entry(m1, u) == Entry(m2, u)
    ensures OnButton(m1, u, data).action == OnButton(m2, u, data).action
    ensures Entry(OnButton(m1, u, data).waiting, u) == Entry(OnButton(m2, u, data).waiting, u)
  {
  }

  /** The map after a sequence of events, processed one at a time. */
  function Run(m: WaitingMap, es: seq<Event>): (n: WaitingMap)
    ensures forall v :: (forall i :: 0 <= i < |es| ==> es[i].user != v) ==> Entry(n, v) == Entry(m, v)
    decreases |es|
  {
    if es == [] then m
    else
      StepKeepsOthers(m, es[0]);
      var n := Run(Step(m, es[0]).waiting, es[1..]);
      n
  }

  /** The events of one user, in order. */
  function EventsOf(es: seq<Event>, u: UserId): (r: seq<Event>)
    ensures |r| <= |es|
    ensures forall i :: 0 <= i < |r| ==> r[i].user == u
  {
    if es == [] then []
    else if es[0].user == u then [es[0]] + EventsOf(es[1..], u)
    else EventsOf(es[1..], u)
  }

  /** Starting from the same entry for `u`, the same events end at the same
      entry for `u`, whatever the other users' entries were. */
  lemma {:induction false} RunIsLocal(m1: WaitingMap, m2: WaitingMap, es: seq<Event>, u: UserId)
    requires Entry(m1, u) == Entry(m2, u)
    ensures Entry(Run(m1, es), u) == Entry(Run(m2, es), u)
    decreases |es|
  {
    if es != [] {
      var n1, n2 := Step(m1, es[0]).waiting, Step(m2, es[0]).waiting;
      if es[0].user == u {
        StepIsLocal(m1, m2, es[0]);
      } else {
        StepMapEffects(m1, es[0]);
        StepMapEffects(m2, es[0]);
        assert n1 - {es[0].user} == m1 - {es[0].user};
        assert n2 - {es[0].user} == m2 - {es[0].user};
        assert Entry(n1, u) == Entry(m1 - {es[0].user}, u);
        assert Entry(n2, u) == Entry(m2 - {es[0].user}, u);
      }
      RunIsLocal(n1, n2, es[1..], u);
    }
  }

  /** Per-user isolation over whole traces: a user's entry after any
      interleaving of events equals their entry after their own events
      alone. */
  lemma {:induction false} RunProjectsToUser(m: WaitingMap, es: seq<Event>, u: UserId)
    ensures Entry(Run(m, es), u) == Entry(Run(m, EventsOf(es, u)), u)
    decreases |es|
  {
    if es != [] {
      var n := Step(m, es[0]).waiting;
      if es[0].user == u {
        assert EventsOf(es, u) == [es[0]] + EventsOf(es[1..], u);
        assert ([es[0]] + EventsOf(es[1..], u))[1..] == EventsOf(es[1..], u);
        RunProjectsToUser(n, es[1..], u);
      } else {
        StepMapEffects(m, es[0]);
        assert n - {es[0].user} == m - {es[0].user};
        assert Entry(n, u) == Entry(m - {es[0].user}, u);
        RunProjectsToUser(n, es[1..], u);
        RunIsLocal(n, m, EventsOf(es[1..], u), u);
      }
    }
  }

  /** The flag invariant holds along any trace from a map that satisfies it
      (the empty map at startup does). */
  lemma {:induction false} RunKeepsOnlyTrueFlags(m: WaitingMap, es: seq<Event>)
    requires OnlyTrueFlags(m)
    ensures OnlyTrueFlags(Run(m, es))
    decreases |es|
  {
    if es != [] {
      StepMapEffects(m, es[0]);
      RunKeepsOnlyTrueFlags(Step(m, es[0]).waiting, es[1..]);
    }
  }

  /** What the button handlers make of a download payload built from a
      stripped, accepted URL. */
  lemma ConfirmOnButton(m: WaitingMap, url: string, u: UserId)
    requires LooksLikeYoutubeUrl(url) && IsStripped(url)
    ensures var r := OnButton(m, u, EncodeDownload(url));
      && r.waiting == m
      && (|url| <= MaxCallbackUrlLen ==> r.action == StartJob(url))
      && (|url| > MaxCallbackUrlLen ==>
            r.action == InvalidUrlAlert
            || (r.action.StartJob? && |r.action.url| < |url| && StartsWith(url, r.action.url)))
  {
    var data := EncodeDownload(url);
    StripStripped(url);
    DownloadPayloadRoundTrip(url);
    DownloadPayloadRoutes(url);
    RouteCallbackTags();
    assert data != HelpData && data != StartData;
    var back := RouteCallback(data).url;
    if |url| <= MaxCallbackUrlLen {
      assert back == url;
    } else {
      assert |back| < |url|;
    }
  }

  /** Preview then confirm: the download button of the card for a previewed
      URL (stripped and accepted by the classifier, as every `Preview` of
      `Step` is) starts a job on that very URL when it is at most 170
      characters long; a longer URL reaches the job cut to a strict prefix,
      or is refused as invalid. The map is untouched either way. */
  lemma ConfirmAfterPreview(m: WaitingMap, url: string, u: UserId)
    requires LooksLikeYoutubeUrl(url) && IsStripped(url)
    ensures var r := Step(m, ButtonPress(u, EncodeDownload(url)));
      && r.waiting == m
      && (|url| <= MaxCallbackUrlLen ==> r.action == StartJob(url))
      && (|url| > MaxCallbackUrlLen ==>
            r.action == InvalidUrlAlert
            || (r.action.StartJob? && |r.action.url| < |url| && StartsWith(url, r.action.url)))
  {
    StepOfButton(m, u, EncodeDownload(url));
    ConfirmOnButton(m, url, u);
  }

  /** A button press is dispatched to the button handler. */
  lemma StepOfButton(m: WaitingMap, u: UserId, data: string)
    ensures Step(m, ButtonPress(u, data)) == OnButton(m, u, data)
  {
  }
}
