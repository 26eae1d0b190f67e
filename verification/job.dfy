/** One confirmed download, as the download button's handler runs it: status
    messages, the permit bracket, the temporary workspace, the download and
    MP3 selection, the re-probe, delivery, failure reporting and cleanup.
    Every external call is an uninterpreted outcome drawn from a `World`; the
    result is the sequence of effects performed and how the handler ended. */
module Job {
  import opened Outcomes
  import opened Media

  /** What the download step leaves behind: the id from the extractor's info
      and the names in the workspace directory afterwards. */
  datatype Downloaded = Downloaded(id: Option<string>, listing: seq<string>)

  /** The outcome of each external call, exceptions named by type. */
  datatype World = World(
    answer: Outcome<string>,               // answering the button with "Starting…"
    status: Outcome<string>,               // sending the "Downloading…" status
    workspace: Outcome<string>,            // creating the temporary directory
    download: Result<Downloaded, string>,  // extraction and conversion into it
    reprobe: Option<Info>,                 // the metadata probe after the download
    sendAudio: Outcome<string>,            // opening and sending the MP3
    deleteStatus: Outcome<string>,         // deleting the status message
    editStatus: Outcome<string>)           // the failure edit of the status message

  /** Which block removes the workspace. */
  datatype Remover = ExceptBranch | FinallyBlock

  datatype Effect =
    | AnswerStarting
    | SendStatus
    | Acquire
    | MakeWorkspace
    | RemoveWorkspace(remover: Remover)
    | SendAudio(title: string, caption: string)
    | DeleteStatus
    | EditStatus(text: string)
    | Release

  /** How the handler ends: audio delivered, a failure reported in the status
      message, or an exception escaping the handler. */
  datatype Ending = Delivered | Reported(error: string) | Raised(error: string)

  datatype JobRun = JobRun(effects: seq<Effect>, ending: Ending)

  const FailurePrefix := "Download failed: "

  /** The download step with MP3 selection: an exception from either. */
  function Fetch(w: World): (r: Result<string, string>)
    ensures w.download.Err? ==> r == Err(w.download.error)
    ensures w.download.Ok? ==> r == SelectMp3(w.download.value.id, w.download.value.listing)
    ensures r.Ok? ==> w.download.Ok? && r.value in w.download.value.listing && IsMp3(r.value)
    ensures r.Err? <==> w.download.Err?
                        || forall i :: 0 <= i < |w.download.value.listing| ==> !IsMp3(w.download.value.listing[i])
    ensures r.Err? && w.download.Ok? ==> r.error == FileNotFound
  {
    match w.download
    case Err(e) => Err(e)
    case Ok(d) => SelectMp3(d.id, d.listing)
  }

  /** The exception the guarded block raises, if any: the first failing step
      among workspace creation, fetching, sending and deleting the status.
      The re-probe is not among them: it never raises. */
  function FirstFailure(w: World): Option<string> {
    if w.workspace.Fail? then Some(w.workspace.error)
    else if Fetch(w).Err? then Some(Fetch(w).error)
    else if w.sendAudio.Fail? then Some(w.sendAudio.error)
    else if w.deleteStatus.Fail? then Some(w.deleteStatus.error)
    else None
  }

  /** Whether the workspace exists after the given effects. */
  function WorkspaceLive(effects: seq<Effect>): bool {
    if effects == [] then false
    else
      match effects[|effects| - 1]
      case MakeWorkspace => true
      case RemoveWorkspace(_) => false
      case _ => WorkspaceLive(effects[..|effects| - 1])
  }

  /** Whether a download permit is held after the given effects. */
  predicate HoldsPermit(effects: seq<Effect>) {
    Acquire in effects && Release !in effects
  }

  /** The workspace exists only while the permit is held: at no point of
      the run is it observable outside the permit bracket. */
  predicate WorkspaceScoped(effects: seq<Effect>) {
    forall k :: 0 <= k <= |effects| && WorkspaceLive(effects[..k]) ==> HoldsPermit(effects[..k])
  }

  /** The failure branch: the status edit naming the exception, then the
      `finally` cleanup, then the permit release. The edit itself may raise;
      cleanup and release happen all the same and the edit's exception
      escapes the handler. */
  function Failed(done: seq<Effect>, e: string, cleanup: seq<Effect>, w: World): (r: JobRun)
  {
    JobRun(done + [EditStatus(FailurePrefix + e)] + cleanup + [Release],
           if w.editStatus.Pass? then Reported(e) else Raised(w.editStatus.error))
  }

  /** The handler for a confirmed, valid URL. The answer and status message
      come before the permit; inside it, the workspace is recorded for the
      `finally` block only once the download returned a file. */
  function RunJob(url: string, w: World): (r: JobRun)
    ensures |r.effects| >= 1 && r.effects[0] == AnswerStarting
    ensures r.ending == Delivered ==> w.answer.Pass? && w.status.Pass? && FirstFailure(w).None?
    ensures r.ending.Reported? ==> FirstFailure(w) == Some(r.ending.error) && w.editStatus.Pass?
  {
    if w.answer.Fail? then JobRun([AnswerStarting], Raised(w.answer.error))
    else if w.status.Fail? then JobRun([AnswerStarting, SendStatus], Raised(w.status.error))
    else
      var started := [AnswerStarting, SendStatus, Acquire];
      match w.workspace
      case Fail(e) => Failed(started, e, [], w)
      case Pass =>
        match Fetch(w)
        case Err(e) => Failed(started + [MakeWorkspace, RemoveWorkspace(ExceptBranch)], e, [], w)
        case Ok(_) =>
          var meta := ProbeMeta(url, w.reprobe);
          var sent := started + [MakeWorkspace, SendAudio(CaptionTitle(meta), Caption(meta))];
          var cleanup := [RemoveWorkspace(FinallyBlock)];
          match w.sendAudio
          case Fail(e) => Failed(sent, e, cleanup, w)
          case Pass =>
            match w.deleteStatus
            case Fail(e) => Failed(sent + [DeleteStatus], e, cleanup, w)
            case Pass => JobRun(sent + [DeleteStatus] + cleanup + [Release], Delivered)
  }

  lemma {:induction false} NoMakeNotLive(s: seq<Effect>)
    requires MakeWorkspace !in s
    ensures !WorkspaceLive(s)
    decreases |s|
  {
    if s != [] {
      assert MakeWorkspace !in s[..|s| - 1];
      NoMakeNotLive(s[..|s| - 1]);
    }
  }

  /** A run that never makes a workspace keeps it scoped trivially. */
  lemma NoMakeScoped(s: seq<Effect>)
    requires MakeWorkspace !in s
    ensures WorkspaceScoped(s) && !WorkspaceLive(s)
  {
    forall k | 0 <= k <= |s|
      ensures !WorkspaceLive(s[..k])
    {
      assert MakeWorkspace !in s[..k];
      NoMakeNotLive(s[..k]);
    }
    NoMakeNotLive(s);
  }

  /** A run bracketed by one acquire and one release, with no workspace
      before the acquire and none left when the release comes, keeps the
      workspace within the permit. */
  lemma Bracketed(p: seq<Effect>, m: seq<Effect>)
    requires Acquire !in p && Release !in p && MakeWorkspace !in p
    requires Release !in m
    requires !WorkspaceLive(p + [Acquire] + m)
    ensures WorkspaceScoped(p + [Acquire] + m + [Release])
    ensures !WorkspaceLive(p + [Acquire] + m + [Release])
  {
    var s := p + [Acquire] + m + [Release];
    assert s[..|s| - 1] == p + [Acquire] + m;
    forall k | 0 <= k < |s| && WorkspaceLive(s[..k])
      ensures HoldsPermit(s[..k])
    {
      if k <= |p| {
        assert s[..k] == p[..k];
        assert MakeWorkspace !in p[..k];
        NoMakeNotLive(p[..k]);
      } else {
        var q := p + [Acquire] + m;
        assert s[..k] == q[..k];
        assert q[..k][|p|] == Acquire;
        assert Release !in q;
        assert forall x :: x in q[..k] ==> x in q;
      }
    }
    assert s[..|s|] == s;
  }

  /** No path leaves the workspace behind, and the workspace is never
      observable outside the permit bracket. */
  lemma WorkspaceNeverLeftBehind(url: string, w: World)
    ensures !WorkspaceLive(RunJob(url, w).effects)
    ensures WorkspaceScoped(RunJob(url, w).effects)
  {
    if w.answer.Fail? || w.status.Fail? || w.workspace.Fail? {
      NoMakeScoped(RunJob(url, w).effects);
    } else if Fetch(w).Err? {
      CleanedInExcept(url, w);
    } else {
      CleanedInFinally(url, w);
    }
  }

  lemma CleanedInExcept(url: string, w: World)
    requires w.answer.Pass? && w.status.Pass? && w.workspace.Pass? && Fetch(w).Err?
    ensures !WorkspaceLive(RunJob(url, w).effects)
    ensures WorkspaceScoped(RunJob(url, w).effects)
  {
    var p := [AnswerStarting, SendStatus];
    var m := [MakeWorkspace, RemoveWorkspace(ExceptBranch), EditStatus(FailurePrefix + Fetch(w).error)];
    assert RunJob(url, w).effects == p + [Acquire] + m + [Release];
    assert (p + [Acquire] + m)[..|p| + 3] == p + [Acquire] + m[..2];
    Bracketed(p, m);
  }

  lemma CleanedInFinally(url: string, w: World)
    requires w.answer.Pass? && w.status.Pass? && w.workspace.Pass? && Fetch(w).Ok?
    ensures !WorkspaceLive(RunJob(url, w).effects)
    ensures WorkspaceScoped(RunJob(url, w).effects)
  {
    if w.sendAudio.Fail? {
      CleanedAfterSendFailed(url, w);
    } else if w.deleteStatus.Fail? {
      CleanedAfterDeleteFailed(url, w);
    } else {
      CleanedAfterDelivery(url, w);
    }
  }

  lemma CleanedAfterSendFailed(url: string, w: World)
    requires w.answer.Pass? && w.status.Pass? && w.workspace.Pass? && Fetch(w).Ok?
    requires w.sendAudio.Fail?
    ensures !WorkspaceLive(RunJob(url, w).effects) && WorkspaceScoped(RunJob(url, w).effects)
  {
    var e := RunJob(url, w).effects;
    SendFailedTrace(url, w);
    FinallyShape(e, [AnswerStarting, SendStatus], [MakeWorkspace, e[4], e[5]]);
  }

  lemma CleanedAfterDeleteFailed(url: string, w: World)
    requires w.answer.Pass? && w.status.Pass? && w.workspace.Pass? && Fetch(w).Ok?
    requires w.sendAudio.Pass? && w.deleteStatus.Fail?
    ensures !WorkspaceLive(RunJob(url, w).effects) && WorkspaceScoped(RunJob(url, w).effects)
  {
    var e := RunJob(url, w).effects;
    DeleteFailedTrace(url, w);
    FinallyShape(e, [AnswerStarting, SendStatus], [MakeWorkspace, e[4], DeleteStatus, e[6]]);
  }

  lemma CleanedAfterDelivery(url: string, w: World)
    requires w.answer.Pass? && w.status.Pass? && w.workspace.Pass? && Fetch(w).Ok?
    requires w.sendAudio.Pass? && w.deleteStatus.Pass?
    ensures !WorkspaceLive(RunJob(url, w).effects) && WorkspaceScoped(RunJob(url, w).effects)
  {
    var e := RunJob(url, w).effects;
    DeliveredTrace(url, w);
    FinallyShape(e, [AnswerStarting, SendStatus], [MakeWorkspace, e[4], DeleteStatus]);
  }

  lemma FinallyShape(e: seq<Effect>, p: seq<Effect>, m: seq<Effect>)
    requires p == [AnswerStarting, SendStatus] && |m| >= 2 && m[0] == MakeWorkspace && m[1].SendAudio?
    requires forall i :: 2 <= i < |m| ==> m[i].EditStatus? || m[i] == DeleteStatus
    requires e == p + [Acquire] + m + [RemoveWorkspace(FinallyBlock), Release]
    ensures !WorkspaceLive(e) && WorkspaceScoped(e)
  {
    assert e == p + [Acquire] + m + [RemoveWorkspace(FinallyBlock)] + [Release];
    assert Release !in m by {
      forall i | 0 <= i < |m| ensures m[i] != Release {
      }
    }
    RemovedInFinally(p, m);
  }

  /** The shape of the runs that reach the `finally` block with a workspace. */
  lemma RemovedInFinally(p: seq<Effect>, m: seq<Effect>)
    requires Acquire !in p && Release !in p && MakeWorkspace !in p
    requires Release !in m
    ensures var s := p + [Acquire] + m + [RemoveWorkspace(FinallyBlock)] + [Release];
      WorkspaceScoped(s) && !WorkspaceLive(s)
  {
    var m' := m + [RemoveWorkspace(FinallyBlock)];
    var q := p + [Acquire] + m';
    assert q == p + [Acquire] + m + [RemoveWorkspace(FinallyBlock)];
    assert !WorkspaceLive(q) by {
      assert q[|q| - 1] == RemoveWorkspace(FinallyBlock);
    }
    Bracketed(p, m');
  }

  /** How many times `x` occurs in `e`. */
  function Count(e: seq<Effect>, x: Effect): nat {
    if e == [] then 0 else (if e[0] == x then 1 else 0) + Count(e[1..], x)
  }

  lemma {:induction false} CountAbsent(e: seq<Effect>, x: Effect)
    requires x !in e
    ensures Count(e, x) == 0
  {
    if e != [] {
      assert x !in e[1..];
      CountAbsent(e[1..], x);
    }
  }

  /** `x` occurs in `e` at index `k` and nowhere else. */
  predicate OnlyAt(e: seq<Effect>, k: nat, x: Effect) {
    k < |e| && e[k] == x && forall i :: 0 <= i < |e| && i != k ==> e[i] != x
  }

  lemma {:induction false} CountOnlyAt(e: seq<Effect>, k: nat, x: Effect)
    requires OnlyAt(e, k, x)
    ensures Count(e, x) == 1
  {
    if k == 0 {
      assert x !in e[1..];
      CountAbsent(e[1..], x);
    } else {
      assert OnlyAt(e[1..], k - 1, x);
      CountOnlyAt(e[1..], k - 1, x);
    }
  }

  /** How often a run makes and removes the workspace and takes and returns
      the permit. */
  predicate Tally(e: seq<Effect>, make: nat, except: nat, fin: nat, permits: nat) {
    && Count(e, MakeWorkspace) == make
    && Count(e, RemoveWorkspace(ExceptBranch)) == except
    && Count(e, RemoveWorkspace(FinallyBlock)) == fin
    && Count(e, Acquire) == permits && Count(e, Release) == permits
  }

  /** The three runs that got as far as sending the audio, with the send
      and the failure edit left as opaque slots so that the caption does not
      weigh on the proofs about the rest. */
  lemma SendFailedTrace(url: string, w: World)
    requires w.answer.Pass? && w.status.Pass? && w.workspace.Pass? && Fetch(w).Ok?
    requires w.sendAudio.Fail?
    ensures var e := RunJob(url, w).effects;
      && |e| == 8 && e[4].SendAudio? && e[5] == EditStatus(FailurePrefix + w.sendAudio.error)
      && e == [AnswerStarting, SendStatus, Acquire, MakeWorkspace, e[4], e[5], RemoveWorkspace(FinallyBlock), Release]
  {
    var meta := ProbeMeta(url, w.reprobe);
    var sent := SendAudio(CaptionTitle(meta), Caption(meta));
    assert RunJob(url, w).effects == [AnswerStarting, SendStatus, Acquire] + [MakeWorkspace, sent]
             + [EditStatus(FailurePrefix + w.sendAudio.error)] + [RemoveWorkspace(FinallyBlock)] + [Release];
  }

  lemma DeleteFailedTrace(url: string, w: World)
    requires w.answer.Pass? && w.status.Pass? && w.workspace.Pass? && Fetch(w).Ok?
    requires w.sendAudio.Pass? && w.deleteStatus.Fail?
    ensures var e := RunJob(url, w).effects;
      && |e| == 9 && e[4].SendAudio? && e[6] == EditStatus(FailurePrefix + w.deleteStatus.error)
      && e == [AnswerStarting, SendStatus, Acquire, MakeWorkspace, e[4], DeleteStatus, e[6],
               RemoveWorkspace(FinallyBlock), Release]
  {
    var meta := ProbeMeta(url, w.reprobe);
    var sent := SendAudio(CaptionTitle(meta), Caption(meta));
    assert RunJob(url, w).effects == [AnswerStarting, SendStatus, Acquire] + [MakeWorkspace, sent] + [DeleteStatus]
             + [EditStatus(FailurePrefix + w.deleteStatus.error)] + [RemoveWorkspace(FinallyBlock)] + [Release];
  }

  lemma DeliveredTrace(url: string, w: World)
    requires w.answer.Pass? && w.status.Pass? && w.workspace.Pass? && Fetch(w).Ok?
    requires w.sendAudio.Pass? && w.deleteStatus.Pass?
    ensures var e := RunJob(url, w).effects;
      && |e| == 8 && e[4].SendAudio?
      && e == [AnswerStarting, SendStatus, Acquire, MakeWorkspace, e[4], DeleteStatus,
               RemoveWorkspace(FinallyBlock), Release]
  {
    var meta := ProbeMeta(url, w.reprobe);
    var sent := SendAudio(CaptionTitle(meta), Caption(meta));
    assert RunJob(url, w).effects == [AnswerStarting, SendStatus, Acquire] + [MakeWorkspace, sent] + [DeleteStatus]
             + [RemoveWorkspace(FinallyBlock)] + [Release];
  }

  lemma TallySendFailed(sent: Effect, edit: Effect)
    requires sent.SendAudio? && edit.EditStatus?
    ensures Tally([AnswerStarting, SendStatus, Acquire, MakeWorkspace, sent, edit,
                   RemoveWorkspace(FinallyBlock), Release], 1, 0, 1, 1)
  {
    var e := [AnswerStarting, SendStatus, Acquire, MakeWorkspace, sent, edit,
              RemoveWorkspace(FinallyBlock), Release];
    CountOnlyAt(e, 3, MakeWorkspace);
    CountAbsent(e, RemoveWorkspace(ExceptBranch));
    CountOnlyAt(e, 6, RemoveWorkspace(FinallyBlock));
    CountOnlyAt(e, 2, Acquire);
    CountOnlyAt(e, 7, Release);
  }

  lemma TallyDeleteFailed(sent: Effect, edit: Effect)
    requires sent.SendAudio? && edit.EditStatus?
    ensures Tally([AnswerStarting, SendStatus, Acquire, MakeWorkspace, sent, DeleteStatus, edit,
                   RemoveWorkspace(FinallyBlock), Release], 1, 0, 1, 1)
  {
    var e := [AnswerStarting, SendStatus, Acquire, MakeWorkspace, sent, DeleteStatus, edit,
              RemoveWorkspace(FinallyBlock), Release];
    CountOnlyAt(e, 3, MakeWorkspace);
    CountAbsent(e, RemoveWorkspace(ExceptBranch));
    CountOnlyAt(e, 7, RemoveWorkspace(FinallyBlock));
    CountOnlyAt(e, 2, Acquire);
    CountOnlyAt(e, 8, Release);
  }

  lemma TallyDelivered(sent: Effect)
    requires sent.SendAudio?
    ensures var e := [AnswerStarting, SendStatus, Acquire, MakeWorkspace, sent, DeleteStatus,
                      RemoveWorkspace(FinallyBlock), Release];
      Tally(e, 1, 0, 1, 1) && forall i :: 0 <= i < |e| ==> !e[i].EditStatus?
  {
    var e := [AnswerStarting, SendStatus, Acquire, MakeWorkspace, sent, DeleteStatus,
              RemoveWorkspace(FinallyBlock), Release];
    CountOnlyAt(e, 3, MakeWorkspace);
    CountAbsent(e, RemoveWorkspace(ExceptBranch));
    CountOnlyAt(e, 6, RemoveWorkspace(FinallyBlock));
    CountOnlyAt(e, 2, Acquire);
    CountOnlyAt(e, 7, Release);
  }

  lemma TallyNoPermit(e: seq<Effect>)
    requires e == [AnswerStarting] || e == [AnswerStarting, SendStatus]
    ensures Tally(e, 0, 0, 0, 0)
  {
    CountAbsent(e, MakeWorkspace);
    CountAbsent(e, RemoveWorkspace(ExceptBranch));
    CountAbsent(e, RemoveWorkspace(FinallyBlock));
    CountAbsent(e, Acquire);
    CountAbsent(e, Release);
  }

  lemma TallyNoWorkspace(edit: Effect)
    requires edit.EditStatus?
    ensures Tally([AnswerStarting, SendStatus, Acquire, edit, Release], 0, 0, 0, 1)
  {
    var e := [AnswerStarting, SendStatus, Acquire, edit, Release];
    CountAbsent(e, MakeWorkspace);
    CountAbsent(e, RemoveWorkspace(ExceptBranch));
    CountAbsent(e, RemoveWorkspace(FinallyBlock));
    CountOnlyAt(e, 2, Acquire);
    CountOnlyAt(e, 4, Release);
  }

  lemma TallyFetchFailed(edit: Effect)
    requires edit.EditStatus?
    ensures Tally([AnswerStarting, SendStatus, Acquire, MakeWorkspace, RemoveWorkspace(ExceptBranch),
                   edit, Release], 1, 1, 0, 1)
  {
    var e := [AnswerStarting, SendStatus, Acquire, MakeWorkspace, RemoveWorkspace(ExceptBranch),
              edit, Release];
    CountOnlyAt(e, 3, MakeWorkspace);
    CountOnlyAt(e, 4, RemoveWorkspace(ExceptBranch));
    CountAbsent(e, RemoveWorkspace(FinallyBlock));
    CountOnlyAt(e, 2, Acquire);
    CountOnlyAt(e, 6, Release);
  }

  /** The workspace is made at most once, exactly when the button was
      answered, the status sent and the directory created, and removed
      exactly as often as it is made: by the except branch when the download
      or the MP3 selection raised, by the `finally` block otherwise. */
  predicate RemovalsAccounted(e: seq<Effect>, w: World) {
    && Count(e, MakeWorkspace) <= 1
    && (Count(e, MakeWorkspace) == 1 <==> w.answer.Pass? && w.status.Pass? && w.workspace.Pass?)
    && Count(e, MakeWorkspace)
       == Count(e, RemoveWorkspace(ExceptBranch)) + Count(e, RemoveWorkspace(FinallyBlock))
    && (Fetch(w).Err? ==> Count(e, RemoveWorkspace(FinallyBlock)) == 0)
    && (Fetch(w).Ok? ==> Count(e, RemoveWorkspace(ExceptBranch)) == 0)
  }

  /** The permit is taken at most once, exactly when the button was answered
      and the status message went out, and released as the very last effect
      of every run that took it. */
  predicate PermitReleasedLast(e: seq<Effect>, w: World) {
    && Count(e, Acquire) == Count(e, Release) <= 1
    && (Count(e, Acquire) == 1 <==> w.answer.Pass? && w.status.Pass?)
    && (Count(e, Acquire) == 1 ==> e[|e| - 1] == Release)
  }

  /** Delivery happens exactly when every step passes, and then no failure
      edit is made; otherwise the first failing step's exception is named in
      the `Download failed: <type>` edit, and the handler ends reporting it
      unless the edit itself raises. Failures before the permit (answering
      the button, sending the status) escape the handler unreported. */
  predicate FailureAccounted(r: JobRun, w: World) {
    && (r.ending == Delivered <==> w.answer.Pass? && w.status.Pass? && FirstFailure(w).None?)
    && (r.ending == Delivered ==> forall i :: 0 <= i < |r.effects| ==> !r.effects[i].EditStatus?)
    && (w.answer.Pass? && w.status.Pass? && FirstFailure(w).Some? ==>
          && EditStatus(FailurePrefix + FirstFailure(w).value) in r.effects
          && r.ending == (if w.editStatus.Pass? then Reported(FirstFailure(w).value)
                          else Raised(w.editStatus.error)))
    && (w.answer.Fail? ==> r.ending == Raised(w.answer.error))
    && (w.answer.Pass? && w.status.Fail? ==> r.ending == Raised(w.status.error))
  }

  /** The three accounts, one path of the handler at a time. */
  predicate Accounted(url: string, w: World) {
    && RemovalsAccounted(RunJob(url, w).effects, w)
    && PermitReleasedLast(RunJob(url, w).effects, w)
    && FailureAccounted(RunJob(url, w), w)
  }

  lemma EarlyPath(url: string, w: World)
    requires w.answer.Fail? || w.status.Fail?
    ensures Accounted(url, w)
  {
    TallyNoPermit(RunJob(url, w).effects);
  }

  lemma WorkspaceFailedPath(url: string, w: World)
    requires w.answer.Pass? && w.status.Pass? && w.workspace.Fail?
    ensures Accounted(url, w)
  {
    var edit := EditStatus(FailurePrefix + w.workspace.error);
    assert RunJob(url, w).effects == [AnswerStarting, SendStatus, Acquire, edit, Release];
    TallyNoWorkspace(edit);
  }

  lemma FetchFailedPath(url: string, w: World)
    requires w.answer.Pass? && w.status.Pass? && w.workspace.Pass? && Fetch(w).Err?
    ensures Accounted(url, w)
  {
    var edit := EditStatus(FailurePrefix + Fetch(w).error);
    assert RunJob(url, w).effects == [AnswerStarting, SendStatus, Acquire, MakeWorkspace,
                                      RemoveWorkspace(ExceptBranch), edit, Release];
    TallyFetchFailed(edit);
  }

  lemma SendFailedPath(url: string, w: World)
    requires w.answer.Pass? && w.status.Pass? && w.workspace.Pass? && Fetch(w).Ok?
    requires w.sendAudio.Fail?
    ensures Accounted(url, w)
  {
    var e := RunJob(url, w).effects;
    SendFailedTrace(url, w);
    TallySendFailed(e[4], e[5]);
  }

  lemma DeleteFailedPath(url: string, w: World)
    requires w.answer.Pass? && w.status.Pass? && w.workspace.Pass? && Fetch(w).Ok?
    requires w.sendAudio.Pass? && w.deleteStatus.Fail?
    ensures Accounted(url, w)
  {
    var e := RunJob(url, w).effects;
    DeleteFailedTrace(url, w);
    TallyDeleteFailed(e[4], e[6]);
  }

  lemma DeliveredPath(url: string, w: World)
    requires w.answer.Pass? && w.status.Pass? && w.workspace.Pass? && Fetch(w).Ok?
    requires w.sendAudio.Pass? && w.deleteStatus.Pass?
    ensures Accounted(url, w)
  {
    var e := RunJob(url, w).effects;
    DeliveredTrace(url, w);
    TallyDelivered(e[4]);
  }

  lemma EveryPathAccounted(url: string, w: World)
    ensures Accounted(url, w)
  {
    if w.answer.Fail? || w.status.Fail? {
      EarlyPath(url, w);
    } else if w.workspace.Fail? {
      WorkspaceFailedPath(url, w);
    } else if Fetch(w).Err? {
      FetchFailedPath(url, w);
    } else if w.sendAudio.Fail? {
      SendFailedPath(url, w);
    } else if w.deleteStatus.Fail? {
      DeleteFailedPath(url, w);
    } else {
      DeliveredPath(url, w);
    }
  }

  lemma WorkspaceRemovedOnce(url: string, w: World)
    ensures RemovalsAccounted(RunJob(url, w).effects, w)
  {
    EveryPathAccounted(url, w);
  }

  lemma PermitBracket(url: string, w: World)
    ensures PermitReleasedLast(RunJob(url, w).effects, w)
  {
    EveryPathAccounted(url, w);
  }

  lemma FailureIsReported(url: string, w: World)
    ensures FailureAccounted(RunJob(url, w), w)
  {
    EveryPathAccounted(url, w);
  }

  /** A failed re-probe never fails the job: how the handler ends does not
      depend on the re-probe at all, only the title and caption do. */
  lemma ReprobeNeverFailsJob(url: string, w: World, probe: Option<Info>)
    ensures RunJob(url, w.(reprobe := probe)).ending == RunJob(url, w).ending
  {
    var v := w.(reprobe := probe);
    assert v.answer == w.answer && v.status == w.status && v.workspace == w.workspace;
    assert v.sendAudio == w.sendAudio && v.deleteStatus == w.deleteStatus && v.editStatus == w.editStatus;
    assert Fetch(v) == Fetch(w);
  }

  /** A delivered job sent the audio with the caption title (at most 64
      characters, `MP3` when the re-probe failed) and the caption built from
      the re-probe. */
  lemma DeliveredWithCaption(url: string, w: World)
    requires RunJob(url, w).ending == Delivered
    ensures var meta := ProbeMeta(url, w.reprobe);
      && SendAudio(CaptionTitle(meta), Caption(meta)) in RunJob(url, w).effects
      && |CaptionTitle(meta)| <= MaxTitleLen
      && (w.reprobe.None? ==> CaptionTitle(meta) == DegradedTitle
                              && CaptionDuration(meta) == "Unknown")
  {
    assert w.workspace.Pass? && Fetch(w).Ok? && w.sendAudio.Pass? && w.deleteStatus.Pass?;
    DeliveredSends(url, w);
  }

  lemma DeliveredSends(url: string, w: World)
    requires w.answer.Pass? && w.status.Pass? && w.workspace.Pass? && Fetch(w).Ok?
    requires w.sendAudio.Pass? && w.deleteStatus.Pass?
    ensures var meta := ProbeMeta(url, w.reprobe);
      SendAudio(CaptionTitle(meta), Caption(meta)) in RunJob(url, w).effects
  {
    var meta := ProbeMeta(url, w.reprobe);
    var sent := SendAudio(CaptionTitle(meta), Caption(meta));
    assert RunJob(url, w).effects == [AnswerStarting, SendStatus, Acquire] + [MakeWorkspace, sent] + [DeleteStatus]
             + [RemoveWorkspace(FinallyBlock)] + [Release];
    assert RunJob(url, w).effects[4] == sent;
  }
}
