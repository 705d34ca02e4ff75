/** The download queue (`DownloadQueue`): a FIFO list of queued items, at most
    one current download and an append-only history. Every operation is a pure
    transition on `State`; the lock and the JSON file are left out, the
    on-disk form is the `SavedFile` value that `Save` produces. */
module DownloadQueue {
  import opened Wrappers
  import opened Seqs

  datatype Status = Queued | Downloading

  datatype QueueItem = QueueItem(
    md5: string,
    title: string,
    source: Option<string>,
    addedAt: Option<string>,
    status: Status,
    subfolder: Option<string>)

  /** Byte counts the worker shows while an item transfers. */
  datatype Progress = Progress(totalSize: nat, downloaded: nat)

  /** The current download: the dequeued item plus the worker's live fields. */
  datatype Current = Current(
    item: QueueItem,
    startedAt: string,
    filename: Option<string>,
    progress: Option<Progress>,
    remove: bool)

  datatype HistoryRecord = HistoryRecord(
    md5: string,
    title: string,
    completedAt: string,
    success: bool,
    filepath: Option<string>,
    error: Option<string>,
    usedFastDownload: bool)

  datatype State = State(queue: seq<QueueItem>, current: Option<Current>, history: seq<HistoryRecord>)

  /** Result of an operation that answers `(ok, message)`. */
  datatype Reply = Reply(state: State, ok: bool, message: string)

  /** Number of history entries `add` looks at for a recent success. */
  const RecentWindow: nat := 50

  /** Number of history entries `get_status` reports. */
  const StatusWindow: nat := 10

  predicate InQueue(q: seq<QueueItem>, md5: string) {
    exists i :: 0 <= i < |q| && q[i].md5 == md5
  }

  predicate IsCurrent(s: State, md5: string) {
    s.current.Some? && s.current.value.item.md5 == md5
  }

  /** A successful record for `md5` at index `i` lies within the last `RecentWindow` entries. */
  predicate RecentSuccessAt(h: seq<HistoryRecord>, md5: string, i: int) {
    |h| - RecentWindow <= i && 0 <= i < |h| && h[i].md5 == md5 && h[i].success
  }

  /** Python's `h[-n:]` for `n > 0`. */
  function Last<T>(h: seq<T>, n: nat): (r: seq<T>)
    requires n > 0
    ensures |r| == if n < |h| then n else |h|
    ensures r == h[|h| - |r|..]
  {
    if n < |h| then h[|h| - n..] else h
  }

  function NewItem(md5: string, title: Option<string>, source: Option<string>, now: string): QueueItem {
    var t := if title.Some? && title.value != "" then title.value else "Unknown";
    QueueItem(md5, t, source, Some(now), Queued, None)
  }

  /** `add`: rejects an md5 that is queued, downloading, or successfully
      downloaded within the last 50 history entries; otherwise appends it. */
  function Add(s: State, md5: string, title: Option<string>, source: Option<string>, now: string): (r: Reply)
    ensures InQueue(s.queue, md5) ==> r == Reply(s, false, "Already in queue")
    ensures !InQueue(s.queue, md5) && IsCurrent(s, md5) ==> r == Reply(s, false, "Currently downloading")
    ensures !InQueue(s.queue, md5) && !IsCurrent(s, md5) ==>
      ((exists i :: RecentSuccessAt(s.history, md5, i)) <==> r == Reply(s, false, "Recently downloaded"))
    ensures r.ok <==> !InQueue(s.queue, md5) && !IsCurrent(s, md5) && forall i :: !RecentSuccessAt(s.history, md5, i)
    ensures r.ok ==> r.message == "Added to queue"
    ensures r.ok ==> |r.state.queue| == |s.queue| + 1 && r.state.queue[..|s.queue|] == s.queue
    ensures r.ok ==> var item := r.state.queue[|s.queue|];
      item.md5 == md5 && item.status == Queued && item.source == source && item.addedAt == Some(now)
      && (title.None? || title == Some("") ==> item.title == "Unknown")
      && (title.Some? && title.value != "" ==> item.title == title.value)
    ensures r.ok ==> r.state.history == s.history && r.state.current == s.current
  {
    if exists i | 0 <= i < |s.queue| :: s.queue[i].md5 == md5 then
      Reply(s, false, "Already in queue")
    else if s.current.Some? && s.current.value.item.md5 == md5 then
      Reply(s, false, "Currently downloading")
    else if exists i | 0 <= i < |s.history| :: RecentSuccessAt(s.history, md5, i) then
      Reply(s, false, "Recently downloaded")
    else
      Reply(State(s.queue + [NewItem(md5, title, source, now)], s.current, s.history), true, "Added to queue")
  }

  /** Adding the same md5 twice: the second call is refused as already queued. */
  lemma AddTwiceRejected(s: State, md5: string, title: Option<string>, source: Option<string>, now: string)
    requires Add(s, md5, title, source, now).ok
    ensures Add(Add(s, md5, title, source, now).state, md5, title, source, now)
            == Reply(Add(s, md5, title, source, now).state, false, "Already in queue")
  {
    var s' := Add(s, md5, title, source, now).state;
    assert s'.queue[|s.queue|].md5 == md5;
  }

  /** A failed history record never blocks a new `add`, and neither does a
      success that has more than 50 newer records after it. */
  lemma OldOrFailedRecordsDoNotBlock(s: State, md5: string, title: Option<string>, source: Option<string>, now: string)
    requires !InQueue(s.queue, md5) && !IsCurrent(s, md5)
    requires forall i :: 0 <= i < |s.history| && s.history[i].md5 == md5 && s.history[i].success
               ==> i < |s.history| - RecentWindow
    ensures Add(s, md5, title, source, now).ok
  {
  }

  /** `get_next`: pops the head of the queue (FIFO); an empty queue gives
      `None` and no change. */
  function GetNext(s: State): (r: (State, Option<QueueItem>))
    ensures |s.queue| == 0 ==> r == (s, None)
    ensures |s.queue| > 0 ==> r.1 == Some(s.queue[0]) && [s.queue[0]] + r.0.queue == s.queue
    ensures r.0.current == s.current && r.0.history == s.history
  {
    if |s.queue| > 0 then (s.(queue := s.queue[1..]), Some(s.queue[0])) else (s, None)
  }

  /** Items leave the queue in the order they were added. */
  lemma {:induction false} FifoOrder(s: State, md5: string, title: Option<string>, source: Option<string>, now: string)
    requires |s.queue| > 0
    requires Add(s, md5, title, source, now).ok
    ensures GetNext(Add(s, md5, title, source, now).state).1 == GetNext(s).1
    ensures GetNext(Add(s, md5, title, source, now).state).0.queue
            == GetNext(s).0.queue + [Add(s, md5, title, source, now).state.queue[|s.queue|]]
  {
    var q' := Add(s, md5, title, source, now).state.queue;
    assert q'[1..] == s.queue[1..] + [q'[|s.queue|]];
  }

  /** `mark_complete`: records the outcome and clears the current download. */
  function MarkComplete(s: State, md5: string, success: bool, filepath: Option<string>, error: Option<string>,
                        usedFastDownload: bool, now: string): (r: State)
    ensures |r.history| == |s.history| + 1 && r.history[..|s.history|] == s.history
    ensures var rec := r.history[|s.history|];
      rec.md5 == md5 && rec.success == success && rec.error == error && rec.usedFastDownload == usedFastDownload
      && rec.title == (if s.current.Some? then s.current.value.item.title else "Unknown")
      && (rec.filepath.Some? <==> filepath.Some? && filepath.value != "")
    ensures r.current == None && r.queue == s.queue
  {
    var title := if s.current.Some? then s.current.value.item.title else "Unknown";
    var path := if filepath.Some? && filepath.value != "" then filepath else None;
    var rec := HistoryRecord(md5, title, now, success, path, error, usedFastDownload);
    State(s.queue, None, s.history + [rec])
  }

  function Reverse<T>(xs: seq<T>): (r: seq<T>)
    ensures |r| == |xs|
    ensures forall i :: 0 <= i < |xs| ==> r[i] == xs[|xs| - 1 - i]
  {
    if |xs| == 0 then [] else Reverse(xs[1..]) + [xs[0]]
  }

  datatype StatusView = StatusView(current: Option<Current>, queue: seq<QueueItem>, queueSize: nat,
                                   recentHistory: seq<HistoryRecord>)

  /** `get_status`: the queue, its size and the ten newest history records, newest first. */
  function GetStatus(s: State): (r: StatusView)
    ensures r.current == s.current && r.queue == s.queue && r.queueSize == |s.queue|
    ensures |r.recentHistory| == if |s.history| < StatusWindow then |s.history| else StatusWindow
    ensures forall i :: 0 <= i < |r.recentHistory| ==> r.recentHistory[i] == s.history[|s.history| - 1 - i]
  {
    StatusView(s.current, s.queue, |s.queue|, Reverse(Last(s.history, StatusWindow)))
  }

  /** The items of `q` whose md5 is `md5`, in order. */
  function ItemsOf(q: seq<QueueItem>, md5: string): seq<QueueItem> {
    if |q| == 0 then [] else (if q[0].md5 == md5 then [q[0]] else []) + ItemsOf(q[1..], md5)
  }

  function DropMd5(q: seq<QueueItem>, md5: string): seq<QueueItem> {
    if |q| == 0 then [] else (if q[0].md5 != md5 then [q[0]] else []) + DropMd5(q[1..], md5)
  }

  /** Dropping one md5 leaves every other md5's items, in order. */
  lemma {:induction false} DropMd5KeepsOthers(q: seq<QueueItem>, md5: string, m: string)
    ensures ItemsOf(DropMd5(q, md5), m) == if m == md5 then [] else ItemsOf(q, m)
  {
    if |q| > 0 {
      DropMd5KeepsOthers(q[1..], md5, m);
      var d := DropMd5(q, md5);
      var d' := DropMd5(q[1..], md5);
      if q[0].md5 != md5 {
        assert d == [q[0]] + d';
        assert d[1..] == d';
      } else {
        assert d == d';
      }
    }
  }

  /** Dropping one md5 removes exactly as many items as that md5 had. */
  lemma {:induction false} DropMd5Length(q: seq<QueueItem>, md5: string)
    ensures |DropMd5(q, md5)| + |ItemsOf(q, md5)| == |q|
  {
    if |q| > 0 {
      DropMd5Length(q[1..], md5);
    }
  }

  /** An md5 has items in the queue exactly when it is queued. */
  lemma {:induction false} ItemsOfNonEmpty(q: seq<QueueItem>, md5: string)
    ensures |ItemsOf(q, md5)| > 0 <==> InQueue(q, md5)
  {
    if |q| > 0 {
      ItemsOfNonEmpty(q[1..], md5);
      if InQueue(q[1..], md5) {
        var i :| 0 <= i < |q[1..]| && q[1..][i].md5 == md5;
        assert q[i + 1].md5 == md5;
      }
      if InQueue(q, md5) && q[0].md5 != md5 {
        var i :| 0 <= i < |q| && q[i].md5 == md5;
        assert q[1..][i - 1].md5 == md5;
      }
    }
  }

  /** `remove_from_queue`: drops every item with the md5 and reports whether any was there. */
  function RemoveFromQueue(s: State, md5: string): (r: (State, bool))
    ensures r.1 <==> InQueue(s.queue, md5)
    ensures !InQueue(r.0.queue, md5)
    ensures forall m :: m != md5 ==> ItemsOf(r.0.queue, m) == ItemsOf(s.queue, m)
    ensures |r.0.queue| + |ItemsOf(s.queue, md5)| == |s.queue|
    ensures r.0.current == s.current && r.0.history == s.history
  {
    var q := DropMd5(s.queue, md5);
    forall m ensures ItemsOf(q, m) == if m == md5 then [] else ItemsOf(s.queue, m) {
      DropMd5KeepsOthers(s.queue, md5, m);
    }
    DropMd5Length(s.queue, md5);
    ItemsOfNonEmpty(s.queue, md5);
    ItemsOfNonEmpty(q, md5);
    (s.(queue := q), |q| != |s.queue|)
  }

  /** `clear_queue`: empties the queue and returns how many items it held. */
  function ClearQueue(s: State): (r: (State, nat))
    ensures r.1 == |s.queue| && r.0.queue == []
    ensures r.0.current == s.current && r.0.history == s.history
  {
    (s.(queue := []), |s.queue|)
  }

  /** `clear_history`: empties the history and returns how many records it held. */
  function ClearHistory(s: State): (r: (State, nat))
    ensures r.1 == |s.history| && r.0.history == []
    ensures r.0.current == s.current && r.0.queue == s.queue
  {
    (s.(history := []), |s.history|)
  }

  /** Index of the first failed record for `md5`, scanning from `from`. */
  function FirstFailed(h: seq<HistoryRecord>, md5: string, from: nat): (r: Option<nat>)
    requires from <= |h|
    ensures r.Some? ==> from <= r.value < |h| && h[r.value].md5 == md5 && !h[r.value].success
    ensures r.Some? ==> forall j :: from <= j < r.value ==> !(h[j].md5 == md5 && !h[j].success)
    ensures r.None? ==> forall j :: from <= j < |h| ==> !(h[j].md5 == md5 && !h[j].success)
    decreases |h| - from
  {
    if from == |h| then None
    else if h[from].md5 == md5 && !h[from].success then Some(from)
    else FirstFailed(h, md5, from + 1)
  }

  /** Whether a history record is for another md5. */
  function OtherThan(md5: string): HistoryRecord -> bool {
    (rec: HistoryRecord) => rec.md5 != md5
  }

  /** The records for other md5s, in their order and with their repetitions. */
  function DropRecords(h: seq<HistoryRecord>, md5: string): (r: seq<HistoryRecord>)
    ensures r == Filter(h, OtherThan(md5))
    ensures forall i :: 0 <= i < |r| ==> r[i].md5 != md5
    ensures forall rec :: rec in r <==> rec in h && rec.md5 != md5
  {
    if |h| == 0 then [] else (if h[0].md5 != md5 then [h[0]] else []) + DropRecords(h[1..], md5)
  }

  /** `retry_failed`: needs a failed record for the md5; then drops every
      record for that md5 (successes too) and queues one retry item. */
  function RetryFailed(s: State, md5: string, now: string): (r: Reply)
    ensures (forall i :: 0 <= i < |s.history| ==> !(s.history[i].md5 == md5 && !s.history[i].success))
            <==> r == Reply(s, false, "Item not found in failed history")
    ensures r.ok ==> r.message == "Added to queue for retry"
    ensures r.ok ==> forall rec :: rec in r.state.history <==> rec in s.history && rec.md5 != md5
    ensures r.ok ==> r.state.history == Filter(s.history, OtherThan(md5))
    ensures r.ok ==> |r.state.queue| == |s.queue| + 1 && r.state.queue[..|s.queue|] == s.queue
    ensures r.ok ==> var item := r.state.queue[|s.queue|];
      item.md5 == md5 && item.source == Some("retry") && item.status == Queued
      && exists i :: 0 <= i < |s.history| && s.history[i].md5 == md5 && !s.history[i].success
                     && item.title == s.history[i].title
                     && forall j :: 0 <= j < i ==> !(s.history[j].md5 == md5 && !s.history[j].success)
    ensures r.ok ==> r.state.current == s.current
  {
    match FirstFailed(s.history, md5, 0)
    case None => Reply(s, false, "Item not found in failed history")
    case Some(i) =>
      var item := QueueItem(md5, s.history[i].title, Some("retry"), Some(now), Queued, None);
      Reply(State(s.queue + [item], s.current, DropRecords(s.history, md5)), true, "Added to queue for retry")
  }

  /** After a retry the md5 is queued, so adding it again is refused. */
  lemma RetryThenAddRejected(s: State, md5: string, now: string, title: Option<string>, source: Option<string>)
    requires RetryFailed(s, md5, now).ok
    ensures !Add(RetryFailed(s, md5, now).state, md5, title, source, now).ok
  {
    var s' := RetryFailed(s, md5, now).state;
    assert s'.queue[|s.queue|].md5 == md5;
  }

  /** `requeue_current`, as the worker's `stop` performs it: the current item
      goes back to the head of the queue as `queued`, keeping md5, title,
      source, added-at and subfolder, and the current slot is cleared. */
  function RequeueCurrent(s: State): (r: State)
    ensures s.current.None? ==> r == s
    ensures s.current.Some? ==> |r.queue| == |s.queue| + 1 && r.queue[1..] == s.queue
    ensures s.current.Some? ==> var it := s.current.value.item;
      r.queue[0] == QueueItem(it.md5, it.title, it.source, it.addedAt, Queued, it.subfolder)
    ensures r.current == None && r.history == s.history
  {
    match s.current
    case None => s
    case Some(c) =>
      var it := c.item;
      State([it.(status := Queued)] + s.queue, None, s.history)
  }

  /** A requeued item is the next one `get_next` hands out. */
  lemma RequeuedComesFirst(s: State)
    requires s.current.Some?
    ensures GetNext(RequeueCurrent(s)).1.Some?
    ensures GetNext(RequeueCurrent(s)).1.value.md5 == s.current.value.item.md5
    ensures GetNext(RequeueCurrent(s)).0.queue == s.queue
  {
  }

  /** The persisted form: the full queue and a possibly truncated history. */
  datatype SavedFile = SavedFile(queue: seq<QueueItem>, history: seq<HistoryRecord>)

  /** Python's `h[-k:]` for any integer `k`. */
  function PySuffix<T>(h: seq<T>, k: int): seq<T> {
    if k > 0 then (if k < |h| then h[|h| - k..] else h)
    else if k == 0 then h
    else (if -k < |h| then h[-k..] else [])
  }

  /** History written by `save`: all of it when `max_history` is 0, else `history[-max_history:]`. */
  function SavedHistory(h: seq<HistoryRecord>, maxHistory: int): (r: seq<HistoryRecord>)
    ensures maxHistory == 0 ==> r == h
    ensures maxHistory > 0 ==> |r| == (if maxHistory < |h| then maxHistory else |h|)
    ensures maxHistory > 0 ==> r == h[|h| - |r|..]
    ensures maxHistory < 0 ==> |r| == (if -maxHistory < |h| then |h| + maxHistory else 0)
    ensures maxHistory < 0 ==> r == h[|h| - |r|..]
  {
    if maxHistory == 0 then h else PySuffix(h, maxHistory)
  }

  /** `save`: the whole queue and the kept history. */
  function Save(s: State, maxHistory: int): (f: SavedFile)
    ensures f.queue == s.queue
    ensures f.history == SavedHistory(s.history, maxHistory)
  {
    SavedFile(s.queue, SavedHistory(s.history, maxHistory))
  }

  /** `load`: a missing or unreadable file leaves the empty lists in place. */
  function Load(f: Option<SavedFile>): (s: State)
    ensures s.current == None
    ensures f.None? ==> s.queue == [] && s.history == []
  {
    match f
    case None => State([], None, [])
    case Some(file) => State(file.queue, None, file.history)
  }

  /** Saving then loading gives back the queue and the newest `max_history`
      records (all of them for 0), oldest first. */
  lemma SaveLoadRoundTrip(s: State, maxHistory: nat)
    ensures Load(Some(Save(s, maxHistory))).queue == s.queue
    ensures maxHistory == 0 ==> Load(Some(Save(s, maxHistory))).history == s.history
    ensures maxHistory > 0 ==> Load(Some(Save(s, maxHistory))).history == Last(s.history, maxHistory)
  {
  }
}
