# YouTube-to-MP3 Telegram bot: the decision core

The bot takes YouTube links in private chats and in groups. For each link it shows a preview card with a "Download MP3" button. Pressing that button downloads the audio, converts it and sends it back with a title and a caption. Around the Telegram and yt_dlp calls the bot follows a few rules that depend only on strings and integers. This project models those rules as pure Dafny functions and proves what they guarantee:

- **Classifier** (`Classifier`): decides whether a text looks like a YouTube link. The text is stripped and must be at least ten characters long. It must then contain `youtube.com` or `youtu.be`, in any letter case.
- **Duration** (`Duration`): how `fmt_duration` renders seconds as `Unknown`, `M:SS` or `H:MM:SS`. A reader of the rendered text takes it back to the seconds.
- **Inbound data** (`Inbound`):
  - the payload of the preview card's button, the *download tag* `dl|` followed by the URL stripped and cut to 170 characters, and its decoding;
  - how a button payload picks its handler;
  - the URL argument of `/download_mp3 <url>`.
- **Conversation** (`Conversation`): the process-wide `waiting_for_url` map. A step function takes the map and an inbound event (`/start`, `/download_mp3`, free text, a button press) to the new map and the bot's reply. Lemmas lift it to whole event traces.
- **Media** (`Media`):
  - the metadata record derived from the extractor's info dictionary;
  - the choice of the MP3 file in the download directory;
  - the title and caption sent with the audio.
- **Job** (`Job`): the handler of a confirmed download. It covers the status messages, the download permit, the temporary workspace, delivery, failure reporting and the cleanup blocks. Every external call is an uninterpreted outcome. The result is the sequence of effects performed and how the handler ended.
- **Support modules**: `Text` models Python's `str.strip` (over the code points `str.isspace` accepts), `str.split` with and without a limit, slicing and ASCII case. `Numerals` renders and reads decimal numerals. `Outcomes` holds the `Option`, `Outcome` and `Result` types.

## Model

| member | source | states |
|---|---|---|
| Text.Strip | bot_mp3.py:50 | `str.strip()`: the result has no whitespace at either end and is no longer than the input |
| Text.StripIsSlice | bot_mp3.py:50 | the stripped text is the part of the input between a leading and a trailing run of whitespace |
| Text.StripPadding | bot_mp3.py:50 | whitespace added on either side of a text does not change its strip |
| Text.StripIdempotent | bot_mp3.py:74 | stripping twice is stripping once |
| Text.StripUpToCase | bot_mp3.py:26 | two texts that differ only in letter case strip to texts that differ only in letter case |
| Text.StripTake | bot_mp3.py:74-76 | cutting a stripped text to n characters and stripping again gives a prefix of at most n characters, which is the whole text exactly when it had at most n |
| Text.Take | bot_mp3.py:75-76 | `s[:n]`: the first n characters, or the whole text when it is no longer than n |
| Text.SplitFirst | bot_mp3.py:294 | `split` at the first separator with a limit of one: no result exactly when there is no separator; otherwise the text before the first separator, which holds none, and the rest, which rejoin to the input |
| Text.SplitFirstAt | bot_mp3.py:294 | a text with no separator, then a separator, then anything, splits at that separator |
| Text.SplitFirstUnique | bot_mp3.py:294 | any split of a text into a separator-free head, a separator and a rest is the one `SplitFirst` returns |
| Classifier.SearchHost | bot_mp3.py:26 | the regex search finds a match exactly when some offset starts `youtube.com` or `youtu.be`, ignoring case |
| Classifier.LooksLikeYoutubeUrl | bot_mp3.py:47-53 | an accepted text strips to at least ten characters; any text shorter than ten is rejected |
| Classifier.LooksLikeYoutubeUrlMeans | bot_mp3.py:47-53 | accepted exactly when the stripped text has at least ten characters and holds a host marker, in both directions |
| Classifier.LinkIgnoresCase | bot_mp3.py:26 | texts that differ only in letter case get the same answer |
| Classifier.LinkIgnoresUpperCasing | bot_mp3.py:26 | ASCII upper-casing a text never changes the answer (Python's full `str.upper()`, which turns `ß` into `SS`, is not covered) |
| Classifier.LinkIgnoresPadding | bot_mp3.py:50-53 | surrounding whitespace never changes the answer |
| Classifier.BareMarkerRejected | bot_mp3.py:51-52 | `youtu.be/` holds a marker but is rejected, because it is shorter than ten characters |
| Numerals.Dec | bot_mp3.py:62-63 | `str(n)`: a non-empty run of digits, without a leading zero unless n is 0, whose decimal value is n |
| Numerals.Pad2 | bot_mp3.py:62-63 | `:02d`: two digits whose value is the number, for numbers under 100 |
| Duration.FmtDuration | bot_mp3.py:56-63 | `Unknown` exactly for non-positive durations; otherwise only digits and colons |
| Duration.ClockArithmetic | bot_mp3.py:59-60 | the two `divmod`s by 60 give minutes and seconds under 60 that reassemble to the duration; the hour is non-zero exactly from 3600 on |
| Duration.FmtDurationFields | bot_mp3.py:59-63 | under an hour, `M:SS` with M = d div 60 and SS = d mod 60; from an hour on, `H:MM:SS` with a non-zero hour and two-digit fields under 60 |
| Duration.FmtDurationRoundTrip | bot_mp3.py:56-63 | reading the rendered text back gives the duration for d > 0 and nothing for `Unknown` |
| Duration.FmtDurationExamples | bot_mp3.py:56-63 | 0 renders as `Unknown`, 65 as `1:05`, 3661 as `1:01:01` |
| Inbound.EncodeDownload | bot_mp3.py:73-79 | the payload is the download tag followed by the stripped URL, kept whole when it has at most 170 characters and cut to exactly its first 170 otherwise |
| Inbound.DecodeDownload | bot_mp3.py:294 | no URL exactly when the payload has no vertical bar; otherwise the URL is the stripped text after the first bar |
| Inbound.DecodeTagged | bot_mp3.py:294 | the bar of the download tag is the one the decoder splits at |
| Inbound.DownloadPayloadRoundTrip | bot_mp3.py:73-79 | decoding the payload (line 294) gives a prefix of the stripped URL, at most 170 characters long; it is the whole stripped URL exactly when that is at most 170 characters |
| Inbound.RouteCallback | bot_mp3.py:292 | `help` and `start_dl` reach their handlers by exact match (lines 240 and 256); the download handler gets exactly the payloads starting with the download tag, with their decoded URL |
| Inbound.RouteCallbackTags | bot_mp3.py:240-292 | the two fixed payloads differ and neither starts with the download tag, so the handler chosen does not depend on the order the handlers are tried |
| Inbound.DownloadPayloadRoutes | bot_mp3.py:292-294 | a preview card's payload always reaches the download handler with its decoded URL |
| Inbound.SplitOnce | bot_mp3.py:222 | `split(maxsplit=1)`: no parts exactly for all-whitespace text; otherwise, past the leading whitespace, the first part is the first whitespace-free word, followed by whitespace alone (one part) or a non-empty run of whitespace and the second part, which starts with a non-whitespace character (two parts) |
| Inbound.CommandArgument | bot_mp3.py:222-223 | the argument is stripped; it is empty for a missing text or a lone word; after a command word and whitespace it is exactly the stripped rest of the text |
| Conversation.OnStart | bot_mp3.py:209-217 | `/start` replies with the welcome; afterwards the sender has no entry and is idle, and no other user's entry changes |
| Conversation.OnCommand | bot_mp3.py:220-237 | `/download_mp3` leaves the map alone and replies with a preview or the usage line; for a command word, whitespace and an argument it previews the stripped argument exactly when that passes the classifier, and sends the usage line exactly when it does not; a missing text or a bare command word gets the usage line |
| Conversation.OnText | bot_mp3.py:263-289 | both directions of the free-text rules. A waiting user gets a preview of the stripped text exactly for a link, and then loses the entry; otherwise the user gets "Valid YouTube URL" and keeps the flag, in any chat type. A user who is not waiting keeps the map and gets a preview exactly for a link in a private chat, silence in groups and supergroups, and the home prompt otherwise. Free text never starts a job |
| Conversation.OnButton | bot_mp3.py:240-297 | help sends the help text and removes the presser's entry; `start_dl` asks for a URL and sets the flag, other users untouched; a download payload leaves the map alone and starts a job on its decoded URL exactly when that URL passes the classifier, with the invalid-URL alert otherwise; any other payload gets no reply; a button never previews |
| Conversation.Step | bot_mp3.py:209-297 | whatever any event previews or downloads is stripped and has passed the classifier |
| Conversation.IsWaiting | bot_mp3.py:266 | `waiting_for_url.get(user)` is truthy exactly when the user's entry is `true` |
| Conversation.StepMapEffects | bot_mp3.py:209-297 | no event changes another user's entry; only `true` is ever stored; `start_dl` sets the flag; `/start` and help remove it; `/download_mp3` and download buttons leave the map untouched |
| Conversation.Transitions | bot_mp3.py:209-276 | the per-user Idle/AwaitingLink machine: `start_dl` leads to AwaitingLink; `/start` and help lead to Idle; a waiting user leaves AwaitingLink exactly on a link; `/download_mp3` and download buttons keep the state |
| Conversation.StepIsLocal | bot_mp3.py:209-297 | the reply and the user's next entry depend only on the user's current entry |
| Conversation.Run | bot_mp3.py:34 | the map after a trace, one event at a time: a user with no event in the trace keeps the entry they had |
| Conversation.RunIsLocal | bot_mp3.py:34 | the same events from the same entry for a user end at the same entry for that user |
| Conversation.RunProjectsToUser | bot_mp3.py:34 | a user's entry after any trace is the entry after that user's own events alone |
| Conversation.RunKeepsOnlyTrueFlags | bot_mp3.py:258 | along any trace the map holds only `true` flags |
| Conversation.ConfirmOnButton | bot_mp3.py:292-299 | the button of a card for an accepted, stripped URL starts a job on that URL when it is at most 170 characters; a longer one reaches the job cut to a strict prefix, or is refused as invalid; the map is untouched |
| Conversation.ConfirmAfterPreview | bot_mp3.py:292-299 | the same through the dispatcher: previewing then confirming downloads the previewed URL when it has at most 170 characters; a longer URL reaches the job as a strict prefix, or is refused |
| Media.DeriveMeta | bot_mp3.py:134-151 | the title falls back to `Unknown Title`; a missing duration is 0; the uploader falls back to the channel; the thumbnail and URL are carried over; the shown duration is `fmt_duration` of the seconds (line 144): `Unknown` exactly for non-positive seconds, and otherwise a text that reads back as the seconds |
| Media.Mp3Name | bot_mp3.py:121-122 | the expected file name is `<id>.mp3`, or `audio.mp3` when the id is missing or empty |
| Media.FirstMp3 | bot_mp3.py:127-129 | the first `*.mp3` entry of the listing, and none exactly when the listing holds no MP3 |
| Media.SelectMp3 | bot_mp3.py:121-131 | the expected name when it is in the listing, otherwise the first MP3 of the listing; FileNotFoundError exactly when the listing holds no MP3 |
| Media.CaptionTitle | bot_mp3.py:307 | the sent title is a prefix of the probed title, at most 64 characters long, and the whole title exactly when that fits; `MP3` when the re-probe failed |
| Media.ProbedCaptionDuration | bot_mp3.py:308 | the sent duration is `Unknown` when the re-probe failed, and otherwise reads back as the probed duration in seconds when that is positive and as nothing when it is not |
| Media.CaptionRoundTrip | bot_mp3.py:310 | the caption `Title: …\nDuration: …` reads back as exactly the sent title and duration, even when the title holds line breaks |
| Media.ProbedCaptionRoundTrip | bot_mp3.py:134-151 | every caption built from a re-probe reads back as its title and duration, since a shown duration never holds a line break |
| Job.Fetch | bot_mp3.py:119-131 | a fetched file is an MP3 of the download directory; fetching fails exactly when the download raised or the directory holds no MP3, and then with FileNotFoundError or the download's own exception |
| Job.RunJob | bot_mp3.py:299-331 | the handler always answers the button first; a delivered job had no failing step and a successful answer and status message; a reported failure is the first failing step, and its edit went through |
| Job.NoMakeScoped | bot_mp3.py:155 | a run that never creates a workspace never has one |
| Job.Bracketed | bot_mp3.py:302-331 | the permit brackets the run: the workspace exists only while the permit is held, and none is left at the release |
| Job.WorkspaceNeverLeftBehind | bot_mp3.py:302-331 | with `download_mp3_file` (lines 154-161): on every path of the modelled outcomes no workspace is left after the handler, and at no point does one exist outside the permit |
| Job.CleanedInExcept | bot_mp3.py:157-161 | a failed download or selection removes the workspace in `download_mp3_file`'s except branch |
| Job.CleanedInFinally | bot_mp3.py:305-331 | after a fetched file, the `finally` block removes the workspace, whether sending, deleting the status or nothing fails |
| Job.WorkspaceRemovedOnce | bot_mp3.py:302-331 | at most one workspace is created, exactly when the steps before it succeed. Each one is removed exactly once: by the except branch when the fetch fails, by `finally` otherwise |
| Job.PermitBracket | bot_mp3.py:299-302 | the permit is acquired at most once, exactly when the answer and the status message succeed. It is released as many times as acquired, and the release is the last effect |
| Job.FailureIsReported | bot_mp3.py:299-328 | delivered exactly when nothing fails, and then no error edit is made. After the first failure, the status is edited to `Download failed: <exception>` and that error is reported, unless the edit itself raises. A failed answer or status message escapes the handler |
| Job.ReprobeNeverFailsJob | bot_mp3.py:306 | how the handler ends does not depend on the re-probe |
| Job.DeliveredWithCaption | bot_mp3.py:306-318 | a delivered job sent the audio with the caption title (at most 64 characters, `MP3` and `Unknown` without a re-probe) and the caption |

## Left out

- Telegram transport: sending, editing and deleting messages, photos, callback answers and keyboards. Their outcomes are parameters (`Job.World`), and a reply is an `Action` constructor. The thumbnail and photo-fallback paths of the preview reply (`send_preview_reply`) and the card text (`card_text`) are not part of this model. The preview flow is the `Preview(url)` action.
- Event dispatch by the Telegram library: events arrive already sorted to their handler (`Conversation.Event`).
- yt_dlp extraction and FFmpeg conversion: foreign calls. Their results are an info record or an exception (`Media.Info`, `Job.World.download`).
- The `asyncio.Semaphore` bound of three concurrent downloads and `asyncio.to_thread`: concurrency. The sequential model only brackets one job with an acquire and a release. It does not claim the global bound.
- The real filesystem: `mkdtemp`, `rmtree`, `Path.exists` and the order `glob` lists files in. The workspace is an abstract created/removed effect. The download directory is a sequence of names in listing order.
- Logging, the polling loop and `main`.
- Unicode: `strip` uses the fixed set of code points `str.isspace` accepts. Case-insensitive matching is ASCII lower-casing, which is exact for the pattern's letters.
- `int()` of a float duration: the info record carries the duration as an integer already.
- Other commands and the waiting state: only `/start` and the help button remove a user's entry. `/download_mp3` never touches the map. Any other command reaches the free-text handler like any text, so a waiting user keeps the flag and gets "Valid YouTube URL". This follows the handlers as written.
- Payload size: the cut is 170 characters, as the code slices a `str`, not 170 bytes of the encoded payload.
- Classifier.LooksLikeYoutubeUrl: its own contract gives only the length bounds. The full equivalence with "long enough and mentions a host" is stated by `Classifier.LooksLikeYoutubeUrlMeans`, so the existential stays out of every caller's context.
- Text.Strip: its own contract gives only that the result has no surrounding whitespace and is no longer than the input. That the result is exactly the middle of the input between its leading and trailing whitespace is stated by `Text.StripIsSlice`, so the slice facts stay out of the many proofs that use `Strip`.
- Duration.FmtDuration: its own contract gives only `Unknown` for non-positive durations and digits and colons otherwise. The `M:SS` and `H:MM:SS` fields are stated by `Duration.FmtDurationFields`, and the reading back by `Duration.FmtDurationRoundTrip`, which are lemmas about the function.
- Job.WorkspaceNeverLeftBehind: only failures that are `Exception`s are modelled. An `asyncio.CancelledError` (a `BaseException`) raised while awaiting the download passes the `except Exception` of `download_mp3_file`, leaves `tmp_root` unset and so leaves the directory made by `mkdtemp` behind. Cancellation is part of the concurrency that is not modelled, so the model does not cover this path.
- Media.Caption: the caption's layout has no contract of its own. What it carries is stated by `Media.CaptionRoundTrip`, so the parser stays out of every job proof that builds a caption.
- Job.Failed: the failure branch has no contract of its own. What it does is stated about whole runs by `Job.FailureIsReported`, `Job.PermitBracket` and `Job.WorkspaceRemovedOnce`.
