/** The download worker (`DownloadWorker`): its control flags, the commands
    the front-end issues, the progress callback, `stop`, and one iteration of
    `_worker_loop` as a pure step. The thread, the lock and the sleeps are left
    out; what other threads do while the worker blocks is given as the list of
    commands applied during that phase, and the results of link resolution
    and of the download are inputs. */
module Worker {
  import opened Wrappers
  import opened DownloadQueue

  datatype WorkerState = WorkerState(q: State, running: bool, paused: bool, cancelCurrent: bool)

  /** What the front-end can ask of the worker while it blocks. */
  datatype Command = Pause | Resume | CancelAndRequeue | CancelAndRemove

  /** `pause`: sets the paused flag; nothing else changes. */
  function DoPause(w: WorkerState): (r: WorkerState)
    ensures r.paused && r.q == w.q && r.cancelCurrent == w.cancelCurrent && r.running == w.running
  {
    w.(paused := true)
  }

  /** `resume`: clears the paused flag; nothing else changes. */
  function DoResume(w: WorkerState): (r: WorkerState)
    ensures !r.paused && r.q == w.q && r.cancelCurrent == w.cancelCurrent && r.running == w.running
  {
    w.(paused := false)
  }

  /** `cancel_and_requeue_current`: with a current download, raises the
      cancel flag and pauses the worker; without one, answers false and changes nothing. */
  function DoCancelAndRequeue(w: WorkerState): (r: (WorkerState, bool))
    ensures w.q.current.None? ==> r == (w, false)
    ensures w.q.current.Some? ==> r.1 && r.0 == w.(cancelCurrent := true, paused := true)
  {
    if w.q.current.Some? then (w.(cancelCurrent := true, paused := true), true) else (w, false)
  }

  /** `cancel_and_remove_current`: with a current download, raises the cancel
      flag and marks the download for removal, leaving `paused` as it was. */
  function DoCancelAndRemove(w: WorkerState): (r: (WorkerState, bool))
    ensures w.q.current.None? ==> r == (w, false)
    ensures w.q.current.Some? ==> r.1 && r.0.cancelCurrent && r.0.paused == w.paused
    ensures w.q.current.Some? ==> r.0.q.current == Some(w.q.current.value.(remove := true))
    ensures r.0.q.queue == w.q.queue && r.0.q.history == w.q.history
  {
    match w.q.current
    case None => (w, false)
    case Some(c) => (w.(cancelCurrent := true, q := w.q.(current := Some(c.(remove := true)))), true)
  }

  /** The two cancel commands differ only in pausing versus marking for removal. */
  lemma CancelCommandsDiffer(w: WorkerState)
    requires w.q.current.Some? && !w.paused
    ensures DoCancelAndRequeue(w).0.paused && !DoCancelAndRemove(w).0.paused
    ensures DoCancelAndRequeue(w).0.q.current == w.q.current
    ensures DoCancelAndRemove(w).0.q.current.value.remove
    ensures DoCancelAndRequeue(w).0.cancelCurrent && DoCancelAndRemove(w).0.cancelCurrent
  {
  }

  function Apply(w: WorkerState, c: Command): WorkerState {
    match c
    case Pause => DoPause(w)
    case Resume => DoResume(w)
    case CancelAndRequeue => DoCancelAndRequeue(w).0
    case CancelAndRemove => DoCancelAndRemove(w).0
  }

  /** Applies the front-end's commands in order. They never touch the queue,
      the history or the identity of the current item. */
  function ApplyAll(w: WorkerState, cs: seq<Command>): (r: WorkerState)
    ensures r.q.queue == w.q.queue && r.q.history == w.q.history && r.running == w.running
    ensures r.q.current.None? <==> w.q.current.None?
    ensures w.q.current.Some? ==> r.q.current.value.item == w.q.current.value.item
    ensures w.q.current.Some? ==> r.q.current.value.(remove := false) == w.q.current.value.(remove := false)
    decreases |cs|
  {
    if |cs| == 0 then w else ApplyAll(Apply(w, cs[0]), cs[1..])
  }

  /** What the progress callback receives: a probe or a progress update. */
  datatype ProgressArg = CheckOnly | Update(p: Progress)

  /** `progress_callback`: answers false exactly when the cancel flag is set,
      and only then leaves the progress untouched; an update is stored on the
      current download when there is one. */
  function ProgressCallback(w: WorkerState, arg: ProgressArg): (r: (bool, WorkerState))
    ensures r.0 <==> !w.cancelCurrent
    ensures w.cancelCurrent || arg.CheckOnly? || w.q.current.None? ==> r.1 == w
    ensures !w.cancelCurrent && arg.Update? && w.q.current.Some? ==>
      r.1.q.current == Some(w.q.current.value.(progress := Some(arg.p)))
    ensures r.1.q.queue == w.q.queue && r.1.q.history == w.q.history && r.1.paused == w.paused
  {
    if w.cancelCurrent then (false, w)
    else match arg
      case CheckOnly => (true, w)
      case Update(p) =>
        match w.q.current
        case None => (true, w)
        case Some(c) => (true, w.(q := w.q.(current := Some(c.(progress := Some(p))))))
  }

  /** `stop`: the worker stops running and an active download goes back to the
      head of the queue as `queued`. */
  function Stop(w: WorkerState): (r: WorkerState)
    ensures !r.running && r.q.current.None? && r.q.history == w.q.history
    ensures w.q.current.None? ==> r.q.queue == w.q.queue
    ensures w.q.current.Some? ==> (|r.q.queue| == |w.q.queue| + 1 && r.q.queue[1..] == w.q.queue
      && r.q.queue[0].md5 == w.q.current.value.item.md5 && r.q.queue[0].status == Queued)
  {
    w.(running := false, q := RequeueCurrent(w.q))
  }

  /** Outcome of `get_download_links` for the dequeued md5. */
  datatype Fetch = FetchRaised(message: string) | Fetched(filename: string, links: nat)

  /** Outcome of the `download` call. */
  datatype Download = DownloadRaised(message: string) | Returned(success: bool, usedFast: bool, filepath: Option<string>)

  /** Inputs of one loop iteration: the two blocking calls' results and the
      commands other threads issue while each of them runs. */
  datatype StepEnv = StepEnv(fetch: Fetch, duringFetch: seq<Command>, download: Download, duringDownload: seq<Command>)

  /** Takes the next item and makes it the current download, status
      `downloading`, before any link resolution starts. */
  function BeginItem(w: WorkerState, now: string): (r: (WorkerState, QueueItem))
    requires |w.q.queue| > 0
    ensures r.1 == w.q.queue[0]
    ensures r.0.q.queue == w.q.queue[1..] && r.0.q.history == w.q.history
    ensures r.0.q.current == Some(Current(r.1.(status := Downloading), now, None, None, false))
    ensures r.0.paused == w.paused && r.0.cancelCurrent == w.cancelCurrent && r.0.running == w.running
  {
    var (q1, item) := GetNext(w.q);
    var cur := Current(item.value.(status := Downloading), now, None, None, false);
    (w.(q := q1.(current := Some(cur))), item.value)
  }

  /** Gives up on the current item after a cancel: dropped without any history
      when it is marked for removal, requeued otherwise; the cancel flag is reset. */
  function EndCancelled(w: WorkerState): (r: WorkerState)
    requires w.q.current.Some?
    ensures !r.cancelCurrent && r.paused == w.paused && r.q.current.None? && r.q.history == w.q.history
    ensures w.q.current.value.remove ==> r.q.queue == w.q.queue
    ensures !w.q.current.value.remove ==> r.q == RequeueCurrent(w.q)
  {
    if w.q.current.value.remove then w.(q := w.q.(current := None), cancelCurrent := false)
    else w.(q := RequeueCurrent(w.q), cancelCurrent := false)
  }

  function Requeue(w: WorkerState): (r: WorkerState)
    ensures r.q == RequeueCurrent(w.q) && r.paused == w.paused && r.cancelCurrent == w.cancelCurrent
  {
    w.(q := RequeueCurrent(w.q))
  }

  /** The iteration after link resolution failed: a paused worker requeues
      the item, otherwise exactly one failure record is written. */
  function AfterFetchFailure(w: WorkerState, item: QueueItem, message: string, now: string): (r: WorkerState)
    requires w.q.current.Some?
    ensures w.paused ==> r.q == RequeueCurrent(w.q)
    ensures !w.paused ==> (|r.q.history| == |w.q.history| + 1 && r.q.history[..|w.q.history|] == w.q.history
      && r.q.history[|w.q.history|].md5 == item.md5 && !r.q.history[|w.q.history|].success)
    ensures r.q.current.None?
  {
    if w.paused then Requeue(w)
    else
      w.(q := MarkComplete(w.q, item.md5, false, None, Some("Failed to fetch download info: " + message), false, now))
  }

  /** The iteration after the download call came back. */
  function AfterDownload(w: WorkerState, item: QueueItem, d: Download, now: string): (r: WorkerState)
    requires w.q.current.Some?
    ensures d.Returned? ==> !r.cancelCurrent
    ensures d.Returned? && w.paused ==> r.q == RequeueCurrent(w.q)
    ensures d.Returned? && !w.paused ==> (|r.q.history| == |w.q.history| + 1
      && r.q.history[..|w.q.history|] == w.q.history
      && r.q.history[|w.q.history|].md5 == item.md5 && r.q.history[|w.q.history|].success == d.success
      && r.q.history[|w.q.history|].usedFastDownload == (d.success && d.usedFast))
    ensures d.DownloadRaised? && w.cancelCurrent ==> r == EndCancelled(w)
    ensures d.DownloadRaised? && !w.cancelCurrent && w.paused ==> r.q == RequeueCurrent(w.q)
    ensures d.DownloadRaised? && !w.cancelCurrent && !w.paused ==> (|r.q.history| == |w.q.history| + 1
      && r.q.history[|w.q.history|].md5 == item.md5 && !r.q.history[|w.q.history|].success)
    ensures r.q.current.None?
  {
    match d
    case Returned(success, usedFast, path) =>
      var w' := w.(cancelCurrent := false);
      if w'.paused then Requeue(w')
      else if success then w'.(q := MarkComplete(w'.q, item.md5, true, path, None, usedFast, now))
      else w'.(q := MarkComplete(w'.q, item.md5, false, None, Some("Download failed"), false, now))
    case DownloadRaised(message) =>
      if w.cancelCurrent then EndCancelled(w)
      else if w.paused then Requeue(w)
      else w.(q := MarkComplete(w.q, item.md5, false, None, Some(message), false, now))
  }

  /** The iteration after links were resolved: record the filename, then check
      pause, then cancel, then run the download. */
  function AfterFetch(w: WorkerState, item: QueueItem, filename: string, env: StepEnv, now: string): (r: WorkerState)
    requires w.q.current.Some?
    ensures w.paused ==> r.q.history == w.q.history && r.q.queue == RequeueCurrent(w.q).queue
    ensures !w.paused && w.cancelCurrent ==> !r.cancelCurrent && r.q.history == w.q.history
    ensures !w.paused && w.cancelCurrent && w.q.current.value.remove ==> r.q.queue == w.q.queue
    ensures r.q.current.None?
  {
    var c := w.q.current.value;
    var w1 := w.(q := w.q.(current := Some(c.(filename := Some(filename), progress := Some(Progress(0, 0))))));
    if w1.paused then Requeue(w1)
    else if w1.cancelCurrent then EndCancelled(w1)
    else AfterDownload(ApplyAll(w1, env.duringDownload), item, env.download, now)
  }

  /** One iteration of `_worker_loop` while running. */
  function Step(w: WorkerState, env: StepEnv, now: string): (r: WorkerState)
    ensures w.paused ==> r == w
    ensures |w.q.queue| == 0 ==> r == w
    ensures !w.paused && |w.q.queue| > 0 ==> r.q.current.None?
    ensures |r.q.history| <= |w.q.history| + 1
  {
    if w.paused || |w.q.queue| == 0 then w
    else
      var (w1, item) := BeginItem(w, now);
      var w2 := ApplyAll(w1, env.duringFetch);
      match env.fetch
      case FetchRaised(message) => AfterFetchFailure(w2, item, message, now)
      case Fetched(filename, _) =>
        assert w2.q.history == w.q.history;
        AfterFetch(w2, item, filename, env, now)
  }

  /** An item taken by an iteration ends up in exactly one place: back at
      the head of the queue, as the newest history record, or (only when it
      was marked for removal) nowhere. */
  lemma {:induction false} StepAccountsForItem(w: WorkerState, env: StepEnv, now: string)
    requires !w.paused && |w.q.queue| > 0
    ensures var r := Step(w, env, now);
      || (|r.q.queue| == |w.q.queue| && r.q.queue[0].md5 == w.q.queue[0].md5 && r.q.queue[1..] == w.q.queue[1..]
          && r.q.history == w.q.history)
      || (r.q.queue == w.q.queue[1..] && |r.q.history| == |w.q.history| + 1
          && r.q.history[|w.q.history|].md5 == w.q.queue[0].md5)
      || (r.q.queue == w.q.queue[1..] && r.q.history == w.q.history)
  {
    var (w1, item) := BeginItem(w, now);
    var w2 := ApplyAll(w1, env.duringFetch);
    match env.fetch
    case FetchRaised(message) =>
    case Fetched(filename, _) =>
      var c := w2.q.current.value;
      var w3 := w2.(q := w2.q.(current := Some(c.(filename := Some(filename), progress := Some(Progress(0, 0))))));
      if !w3.paused && !w3.cancelCurrent {
        var w4 := ApplyAll(w3, env.duringDownload);
        assert w4.q.current.value.item == item.(status := Downloading);
      }
  }

  /** A pause requested while the transfer runs sends the item back to the
      head of the queue and writes no history. */
  lemma PauseDuringDownloadRequeues(w: WorkerState, env: StepEnv, now: string)
    requires !w.paused && !w.cancelCurrent && |w.q.queue| > 0
    requires env.fetch.Fetched? && |env.duringFetch| == 0
    requires env.download.Returned? && env.duringDownload == [Pause]
    ensures Step(w, env, now).q.history == w.q.history
    ensures Step(w, env, now).q.queue[0] == w.q.queue[0].(status := Queued)
    ensures Step(w, env, now).q.queue[1..] == w.q.queue[1..]
  {
    var (w1, item) := BeginItem(w, now);
    assert ApplyAll(w1, env.duringFetch) == w1;
    var c := w1.q.current.value;
    var w3 := w1.(q := w1.q.(current := Some(c.(filename := Some(env.fetch.filename), progress := Some(Progress(0, 0))))));
    assert [Pause][1..] == [];
    assert ApplyAll(w3, env.duringDownload) == DoPause(w3);
  }
}
