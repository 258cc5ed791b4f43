/**
 One draft layer under concurrent use: any number of tasks running `with_data_modify`, any
 number of readers holding snapshots, and anyone editing, applying or discarding the draft.

 A run is a sequence of atomic steps in any order.  Pointers are real addresses: a freed
 address may come back, and a step that would touch a freed cell has no successor.
 `log` and `applies` record the history for the statements; no step reads them.
 */
module DraftProtocol {
  import opened Common
  import opened DraftCell

  datatype Outcome = Succeeded | EditFailed | LockFailed

  /** Where a task stands inside `with_data_modify`. */
  datatype Pc<+T> =
    | FastTry                    // first compare-exchange
    | Yielded                    // gave the scheduler one turn
    | Retry(woken: bool)         // compare-exchange with a `notified()` future in hand
    | AboutToPark                // lost it; about to poll the future
    | Parked                     // queued in the notifier
    | Acquired                   // holds the permit
    | Editing(original: Ptr, local: T, commitsSeen: nat, appliesSeen: nat)
    | Closing(original: Ptr, outcome: Outcome)  // still holds the original pointer
    | Dropping(outcome: Outcome)                // about to clear the flag
    | Notifying(outcome: Outcome)               // flag cleared, about to notify
    | Done(outcome: Outcome)
  {
    /** Holds the permit. */
    predicate Holder() {
      Acquired? || Editing? || Closing? || Dropping?
    }

    /** Holds a counted pointer to `p`. */
    predicate Holds(p: Ptr) {
      (Editing? || Closing?) && original == p
    }

    predicate HasOutcome(o: Outcome) {
      (Closing? || Dropping? || Notifying? || Done?) && outcome == o
    }

    /** Steps this task can still take without being woken, plus those its release can cause. */
    function Weight(): nat {
      match this
      case FastTry => 10
      case Yielded => 9
      case Retry(_) => 8
      case AboutToPark => 7
      case Parked => 6
      case Acquired => 7
      case Editing(_, _, _, _) => 6
      case Closing(_, _) => 5
      case Dropping(_) => 4
      case Notifying(_) => 3
      case Done(_) => 0
    }
  }

  /** A pointer some caller holds, with the value it showed when it was handed out. */
  datatype Snapshot<+T> = Snapshot(ptr: Ptr, seen: T)

  datatype Commit<+T> =
    | Replaced(task: TaskId, before: T, after: T)
    | Applied(before: T, after: T)

  datatype System<+T> = System(
    shared: Shared<T>,
    tasks: seq<Pc<T>>,
    readers: seq<Option<Snapshot<T>>>,
    log: seq<Commit<T>>,
    applies: nat
  ) {
    function Committed(): T
      requires shared.Valid()
    {
      shared.heap[shared.committed].value
    }
  }

  datatype Step<!T> =
    | Spawn
    | Run(task: TaskId, at: Ptr)
    | DataArc
    | LatestArc
    | DropReader(reader: nat)
    | EditDraft(f: T -> T, into: Ptr)
    | Apply
    | Discard

  function Init<T>(value: T, at: Ptr): System<T> {
    System(Shared(map[at := Cell(value, 1)], at, None, false, false, []), [], [], [], 0)
  }

  /** A compare-exchange on the permit flag. */
  function TryPermit<T>(s: System<T>, t: TaskId, lost: Pc<T>): System<T>
    requires t < |s.tasks|
  {
    if s.shared.modifying then s.(tasks := s.tasks[t := lost])
    else s.(shared := s.shared.(modifying := true), tasks := s.tasks[t := Acquired])
  }

  /** The closing section of `with_data_modify`, reached when the asynchronous edit returns. */
  function Finish<T>(edit: (TaskId, T) -> Option<T>, s: System<T>, t: TaskId, at: Ptr): Option<System<T>>
    requires t < |s.tasks| && s.tasks[t].Editing? && s.shared.Valid()
  {
    var pc := s.tasks[t];
    match edit(t, pc.local)
    case None => Some(s.(tasks := s.tasks[t := Closing(pc.original, EditFailed)]))
    case Some(value) =>
      if s.shared.committed != pc.original then
        Some(s.(tasks := s.tasks[t := Closing(pc.original, LockFailed)]))
      else if at in s.shared.heap then None
      else
        Some(s.(shared := s.shared.Replace(value, at),
                tasks := s.tasks[t := Closing(pc.original, Succeeded)],
                log := s.log + [Replaced(t, s.Committed(), value)]))
  }

  function RunTask<T>(edit: (TaskId, T) -> Option<T>, s: System<T>, t: TaskId, at: Ptr): Option<System<T>>
    requires t < |s.tasks|
  {
    var sh := s.shared;
    match s.tasks[t]
    case FastTry => Some(TryPermit(s, t, Yielded))
    case Yielded => Some(s.(tasks := s.tasks[t := Retry(false)]))
    case Retry(_) => Some(TryPermit(s, t, AboutToPark))
    case AboutToPark =>
      Some(s.(shared := sh.PollNotified(t),
              tasks := s.tasks[t := if sh.storedPermit then Retry(true) else Parked]))
    case Parked => None
    case Acquired =>
      if !sh.Valid() then None else
        Some(s.(shared := sh.(heap := Retain(sh.heap, sh.committed)),
                tasks := s.tasks[t := Editing(sh.committed, s.Committed(), |s.log|, s.applies)]))
    case Editing(_, _, _, _) => if !sh.Valid() then None else Finish(edit, s, t, at)
    case Closing(original, outcome) =>
      if original !in sh.heap then None else
        Some(s.(shared := sh.(heap := Release(sh.heap, original)), tasks := s.tasks[t := Dropping(outcome)]))
    case Dropping(outcome) =>
      Some(s.(shared := sh.(modifying := false), tasks := s.tasks[t := Notifying(outcome)]))
    case Notifying(outcome) =>
      var finished := s.tasks[t := Done(outcome)];
      Some(s.(shared := sh.NotifyOne(),
              tasks := if sh.waiters != [] && sh.waiters[0] < |s.tasks|
                       then finished[sh.waiters[0] := Retry(true)] else finished))
    case Done(_) => None
  }

  function Hand<T>(s: System<T>, p: Ptr): System<T>
    requires p in s.shared.heap
  {
    s.(shared := s.shared.(heap := Retain(s.shared.heap, p)),
       readers := s.readers + [Some(Snapshot(p, s.shared.heap[p].value))])
  }

  /** One atomic step; `None` when it cannot be taken. */
  function Next<T>(edit: (TaskId, T) -> Option<T>, s: System<T>, step: Step<T>): Option<System<T>> {
    var sh := s.shared;
    match step
    case Spawn => Some(s.(tasks := s.tasks + [FastTry]))
    case Run(t, at) => if t < |s.tasks| then RunTask(edit, s, t, at) else None
    case DataArc => if sh.Valid() then Some(Hand(s, sh.committed)) else None
    case LatestArc => if sh.Valid() then Some(Hand(s, sh.Latest())) else None
    case DropReader(r) =>
      if r < |s.readers| && s.readers[r].Some? && s.readers[r].value.ptr in sh.heap then
        Some(s.(shared := sh.(heap := Release(sh.heap, s.readers[r].value.ptr)),
                readers := s.readers[r := None]))
      else None
    case EditDraft(f, at) =>
      if sh.Valid() && at !in sh.heap then Some(s.(shared := sh.EditDraft(f, at))) else None
    case Apply =>
      if !sh.Valid() then None
      else if sh.draft.None? then Some(s)
      else
        Some(s.(shared := sh.Apply(),
                log := s.log + [Applied(s.Committed(), sh.heap[sh.draft.value].value)],
                applies := s.applies + 1))
    case Discard => if sh.Valid() then Some(s.(shared := sh.Discard())) else None
  }

  /** A whole run; `None` when some step could not be taken. */
  function Exec<T>(edit: (TaskId, T) -> Option<T>, s: System<T>, steps: seq<Step<T>>): Option<System<T>>
    decreases |steps|
  {
    if steps == [] then Some(s)
    else
      match Next(edit, s, steps[0])
      case None => None
      case Some(next) => Exec(edit, next, steps[1..])
  }

  // ---------------------------------------------------------------- reference counts

  function Bit(b: bool): nat { if b then 1 else 0 }

  function TaskRefs<T>(tasks: seq<Pc<T>>, p: Ptr): nat {
    if tasks == [] then 0 else TaskRefs(tasks[..|tasks| - 1], p) + Bit(tasks[|tasks| - 1].Holds(p))
  }

  predicate ReaderHolds<T>(r: Option<Snapshot<T>>, p: Ptr) {
    r.Some? && r.value.ptr == p
  }

  function ReaderRefs<T>(readers: seq<Option<Snapshot<T>>>, p: Ptr): nat {
    if readers == [] then 0
    else ReaderRefs(readers[..|readers| - 1], p) + Bit(ReaderHolds(readers[|readers| - 1], p))
  }

  /** The number of counted pointers to `p` that exist anywhere. */
  function Holders<T>(s: System<T>, p: Ptr): nat {
    Bit(s.shared.committed == p) + Bit(s.shared.draft == Some(p)) + TaskRefs(s.tasks, p) + ReaderRefs(s.readers, p)
  }

  lemma {:induction false} TaskRefsUpdate<T>(tasks: seq<Pc<T>>, t: nat, pc: Pc<T>, p: Ptr)
    requires t < |tasks|
    ensures TaskRefs(tasks[t := pc], p) + Bit(tasks[t].Holds(p)) == TaskRefs(tasks, p) + Bit(pc.Holds(p))
  {
    var n := |tasks| - 1;
    if t < n {
      TaskRefsUpdate(tasks[..n], t, pc, p);
      assert tasks[t := pc][..n] == tasks[..n][t := pc];
    } else {
      assert tasks[t := pc][..n] == tasks[..n];
    }
  }

  lemma {:induction false} ReaderRefsUpdate<T>(readers: seq<Option<Snapshot<T>>>, r: nat, p: Ptr)
    requires r < |readers|
    ensures ReaderRefs(readers[r := None], p) + Bit(ReaderHolds(readers[r], p)) == ReaderRefs(readers, p)
  {
    var n := |readers| - 1;
    if r < n {
      ReaderRefsUpdate(readers[..n], r, p);
      assert readers[r := None][..n] == readers[..n][r := None];
    } else {
      assert readers[r := None][..n] == readers[..n];
    }
  }

  lemma {:induction false} SomeTaskHolds<T>(tasks: seq<Pc<T>>, t: nat, p: Ptr)
    requires t < |tasks| && tasks[t].Holds(p)
    ensures TaskRefs(tasks, p) >= 1
  {
    if t < |tasks| - 1 {
      SomeTaskHolds(tasks[..|tasks| - 1], t, p);
    }
  }

  lemma {:induction false} NoTaskHolds<T>(tasks: seq<Pc<T>>, p: Ptr)
    requires forall t :: 0 <= t < |tasks| ==> !tasks[t].Holds(p)
    ensures TaskRefs(tasks, p) == 0
  {
    if tasks != [] {
      NoTaskHolds(tasks[..|tasks| - 1], p);
    }
  }

  lemma {:induction false} SomeReaderHolds<T>(readers: seq<Option<Snapshot<T>>>, r: nat, p: Ptr)
    requires r < |readers| && ReaderHolds(readers[r], p)
    ensures ReaderRefs(readers, p) >= 1
  {
    if r < |readers| - 1 {
      SomeReaderHolds(readers[..|readers| - 1], r, p);
    }
  }

  /** Every live cell counts its holders exactly, and nothing else is live. */
  ghost predicate CountsExact<T>(s: System<T>) {
    && (forall p: Ptr :: Refs(s.shared.heap, p) == Holders(s, p))
    && (forall p: Ptr :: p in s.shared.heap ==> s.shared.heap[p].refs >= 1)
  }

  /** With exact counts no held pointer dangles. */
  lemma HeldIsLive<T>(s: System<T>)
    requires CountsExact(s)
    ensures s.shared.Valid()
    ensures forall t :: 0 <= t < |s.tasks| && (s.tasks[t].Editing? || s.tasks[t].Closing?) ==>
                          s.tasks[t].original in s.shared.heap
    ensures forall r :: 0 <= r < |s.readers| && s.readers[r].Some? ==> s.readers[r].value.ptr in s.shared.heap
  {
    assert Refs(s.shared.heap, s.shared.committed) == Holders(s, s.shared.committed);
    if s.shared.draft.Some? {
      assert Refs(s.shared.heap, s.shared.draft.value) == Holders(s, s.shared.draft.value);
    }
    forall t | 0 <= t < |s.tasks| && (s.tasks[t].Editing? || s.tasks[t].Closing?)
      ensures s.tasks[t].original in s.shared.heap
    {
      SomeTaskHolds(s.tasks, t, s.tasks[t].original);
      assert Refs(s.shared.heap, s.tasks[t].original) == Holders(s, s.tasks[t].original);
    }
    forall r | 0 <= r < |s.readers| && s.readers[r].Some?
      ensures s.readers[r].value.ptr in s.shared.heap
    {
      SomeReaderHolds(s.readers, r, s.readers[r].value.ptr);
      assert Refs(s.shared.heap, s.readers[r].value.ptr) == Holders(s, s.readers[r].value.ptr);
    }
  }

  // ---------------------------------------------------------------- the invariant

  /** The draft cell is neither the committed cell nor one a task compares against. */
  ghost predicate DraftSeparate<T>(s: System<T>) {
    s.shared.draft.Some? ==>
      && s.shared.draft.value != s.shared.committed
      && forall t :: 0 <= t < |s.tasks| ==> !s.tasks[t].Holds(s.shared.draft.value)
  }

  /** Every snapshot still shows the value it showed when it was handed out. */
  ghost predicate SnapshotsFrozen<T>(s: System<T>) {
    forall r :: 0 <= r < |s.readers| && s.readers[r].Some? ==>
                  && s.readers[r].value.ptr in s.shared.heap
                  && s.shared.heap[s.readers[r].value.ptr].value == s.readers[r].value.seen
  }

  /**
   What a task inside its asynchronous edit knows.  Its pointer equals the committed pointer
   exactly when nothing was committed since it read, and only `apply` can have committed.
   */
  ghost predicate EditKnows<T>(s: System<T>, pc: Pc<T>) {
    pc.Editing? ==>
      && pc.original in s.shared.heap
      && s.shared.heap[pc.original].value == pc.local
      && pc.commitsSeen <= |s.log|
      && (s.shared.committed == pc.original <==> pc.commitsSeen == |s.log|)
      && |s.log| - pc.commitsSeen == s.applies - pc.appliesSeen
  }

  ghost predicate EditsTracked<T>(s: System<T>) {
    forall t :: 0 <= t < |s.tasks| ==> EditKnows(s, s.tasks[t])
  }

  /** At most one task holds the permit, and the flag says whether one does. */
  ghost predicate PermitExclusive<T>(s: System<T>) {
    && (forall t, u :: 0 <= t < |s.tasks| && 0 <= u < |s.tasks| && s.tasks[t].Holder() && s.tasks[u].Holder() ==> t == u)
    && (s.shared.modifying <==> exists t :: 0 <= t < |s.tasks| && s.tasks[t].Holder())
  }

  /** The queue holds each parked task once, and a permit is stored only when it is empty. */
  ghost predicate NotifierSound<T>(s: System<T>) {
    var w := s.shared.waiters;
    && (forall i, j :: 0 <= i < j < |w| ==> w[i] != w[j])
    && (forall i :: 0 <= i < |w| ==> w[i] < |s.tasks| && s.tasks[w[i]] == Parked)
    && (forall t: nat :: t < |s.tasks| && s.tasks[t] == Parked ==> t in w)
    && (s.shared.storedPermit ==> w == [])
  }

  /** A task is waiting, or has lost the race and is about to. */
  ghost predicate SomeoneWaits<T>(s: System<T>) {
    exists t :: 0 <= t < |s.tasks| && (s.tasks[t].AboutToPark? || s.tasks[t].Parked?)
  }

  /** Somebody or something will still wake a waiter. */
  ghost predicate WakeupPending<T>(s: System<T>) {
    || s.shared.modifying
    || s.shared.storedPermit
    || (exists t :: 0 <= t < |s.tasks| && s.tasks[t].Notifying?)
    || (exists t :: 0 <= t < |s.tasks| && s.tasks[t] == Retry(true))
  }

  ghost predicate NoLostWakeup<T>(s: System<T>) {
    SomeoneWaits(s) ==> WakeupPending(s)
  }

  /** The committed value after the logged commits, starting from `initial`. */
  function LastCommitted<T>(initial: T, log: seq<Commit<T>>): T {
    if log == [] then initial else log[|log| - 1].after
  }

  /**
   The log is a serial history: each commit starts from the value the one before it left, each
   `with_data_modify` commit is its edit applied to exactly that value, and a task has at most
   one entry.
   */
  ghost predicate Serial<T>(edit: (TaskId, T) -> Option<T>, initial: T, log: seq<Commit<T>>) {
    && (forall i :: 0 <= i < |log| ==> log[i].before == LastCommitted(initial, log[..i]))
    && (forall i :: 0 <= i < |log| && log[i].Replaced? ==> edit(log[i].task, log[i].before) == Some(log[i].after))
    && (forall i, j :: 0 <= i < j < |log| && log[i].Replaced? && log[j].Replaced? ==> log[i].task != log[j].task)
  }

  /** A task is in the log exactly when it reports success. */
  ghost predicate LogMatchesOutcomes<T>(s: System<T>) {
    && (forall i :: 0 <= i < |s.log| && s.log[i].Replaced? ==>
                      s.log[i].task < |s.tasks| && s.tasks[s.log[i].task].HasOutcome(Succeeded))
    && (forall t :: 0 <= t < |s.tasks| && s.tasks[t].HasOutcome(Succeeded) ==> Logged(s.log, t))
  }

  ghost predicate Logged<T>(log: seq<Commit<T>>, t: TaskId) {
    exists i :: 0 <= i < |log| && log[i].Replaced? && log[i].task == t
  }

  ghost predicate HistoryTrue<T>(edit: (TaskId, T) -> Option<T>, initial: T, s: System<T>) {
    && s.shared.Valid()
    && s.Committed() == LastCommitted(initial, s.log)
    && Serial(edit, initial, s.log)
    && LogMatchesOutcomes(s)
  }

  ghost predicate Inv<T>(edit: (TaskId, T) -> Option<T>, initial: T, s: System<T>) {
    && CountsExact(s)
    && DraftSeparate(s)
    && SnapshotsFrozen(s)
    && EditsTracked(s)
    && PermitExclusive(s)
    && NotifierSound(s)
    && NoLostWakeup(s)
    && HistoryTrue(edit, initial, s)
  }

  // ---------------------------------------------------------------- preservation

  ghost predicate Positive<T>(heap: Heap<T>) {
    forall p: Ptr :: p in heap ==> heap[p].refs >= 1
  }

  lemma RetainRefs<T>(heap: Heap<T>, q: Ptr, p: Ptr)
    requires q in heap && Positive(heap)
    ensures Refs(Retain(heap, q), p) == Refs(heap, p) + Bit(p == q)
    ensures Positive(Retain(heap, q))
  {}

  lemma ReleaseRefs<T>(heap: Heap<T>, q: Ptr, p: Ptr)
    requires q in heap && Positive(heap)
    ensures Refs(Release(heap, q), p) == Refs(heap, p) - Bit(p == q)
    ensures Positive(Release(heap, q))
  {}

  lemma AllocateRefs<T>(heap: Heap<T>, at: Ptr, value: T, p: Ptr)
    requires at !in heap && Positive(heap)
    ensures Refs(Allocate(heap, at, value), p) == Refs(heap, p) + Bit(p == at)
    ensures Positive(Allocate(heap, at, value))
  {}

  /** How editing the draft moves one count: only the draft slot's pointer changes. */
  lemma EditDraftRefs<T>(sh: Shared<T>, f: T -> T, at: Ptr, p: Ptr)
    requires sh.Valid() && at !in sh.heap && Positive(sh.heap)
    ensures var sh' := sh.EditDraft(f, at);
            && Positive(sh'.heap)
            && Refs(sh'.heap, p) + Bit(sh.draft == Some(p)) == Refs(sh.heap, p) + Bit(sh'.draft == Some(p))
  {
    var cloned := if sh.draft.Some? then sh.heap else Retain(sh.heap, sh.committed);
    RetainRefs(sh.heap, sh.committed, p);
    if cloned[sh.Latest()].refs != 1 {
      ReleaseRefs(cloned, sh.Latest(), p);
      AllocateRefs(Release(cloned, sh.Latest()), at, f(cloned[sh.Latest()].value), p);
    }
  }

  lemma ReplaceRefs<T>(sh: Shared<T>, value: T, at: Ptr, p: Ptr)
    requires sh.Valid() && at !in sh.heap && Positive(sh.heap)
    ensures var sh' := sh.Replace(value, at);
            && Positive(sh'.heap)
            && Refs(sh'.heap, p) + Bit(sh.committed == p) == Refs(sh.heap, p) + Bit(sh'.committed == p)
  {
    AllocateRefs(sh.heap, at, value, p);
    ReleaseRefs(Allocate(sh.heap, at, value), sh.committed, p);
  }

  lemma CountsKept<T>(edit: (TaskId, T) -> Option<T>, s: System<T>, step: Step<T>)
    requires CountsExact(s) && NotifierSound(s) && Next(edit, s, step).Some?
    ensures CountsExact(Next(edit, s, step).value)
  {
    var s' := Next(edit, s, step).value;
    forall p: Ptr
      ensures Refs(s'.shared.heap, p) == Holders(s', p)
      ensures p in s'.shared.heap ==> s'.shared.heap[p].refs >= 1
    {
      assert CountAt(s, p);
      match step
      case Run(t, at) =>
        if s.tasks[t].Editing? {
          FinishCounts(edit, s, t, at, p);
        } else if s.tasks[t].Acquired? || s.tasks[t].Closing? {
          PointerCounts(edit, s, t, at, p);
        } else if s.tasks[t].Notifying? {
          NotifyCounts(edit, s, t, at, p);
        } else {
          PermitCounts(edit, s, t, at, p);
        }
      case EditDraft(f, at) =>
        EditDraftRefs(s.shared, f, at, p);
      case Apply =>
        SlotCounts(s, p);
      case Discard =>
        SlotCounts(s, p);
      case Spawn =>
        assert s'.tasks[..|s.tasks|] == s.tasks;
      case _ =>
        ReaderCounts(edit, s, step, p);
    }
  }

  ghost predicate CountAt<T>(s: System<T>, p: Ptr) {
    Positive(s.shared.heap) && Refs(s.shared.heap, p) == Holders(s, p)
  }

  lemma SlotCounts<T>(s: System<T>, p: Ptr)
    requires s.shared.Valid() && CountAt(s, p)
    ensures CountAt(s.(shared := s.shared.Apply()), p)
    ensures CountAt(s.(shared := s.shared.Discard()), p)
  {
    ReleaseRefs(s.shared.heap, s.shared.committed, p);
    if s.shared.draft.Some? {
      ReleaseRefs(s.shared.heap, s.shared.draft.value, p);
    }
  }

  lemma ReaderCounts<T>(edit: (TaskId, T) -> Option<T>, s: System<T>, step: Step<T>, p: Ptr)
    requires step.DataArc? || step.LatestArc? || step.DropReader?
    requires Next(edit, s, step).Some? && CountAt(s, p)
    ensures CountAt(Next(edit, s, step).value, p)
  {
    if step.DropReader? {
      ReaderRefsUpdate(s.readers, step.reader, p);
      ReleaseRefs(s.shared.heap, s.readers[step.reader].value.ptr, p);
    } else {
      HandCounts(s, if step.DataArc? then s.shared.committed else s.shared.Latest(), p);
    }
  }

  lemma HandCounts<T>(s: System<T>, q: Ptr, p: Ptr)
    requires q in s.shared.heap && CountAt(s, p)
    ensures CountAt(Hand(s, q), p)
  {
    RetainRefs(s.shared.heap, q, p);
    assert Hand(s, q).readers[..|s.readers|] == s.readers;
  }

  /** The task's steps that take or drop its pointer to the snapshot it read. */
  lemma PointerCounts<T>(edit: (TaskId, T) -> Option<T>, s: System<T>, t: TaskId, at: Ptr, p: Ptr)
    requires t < |s.tasks| && RunTask(edit, s, t, at).Some? && CountAt(s, p)
    requires s.tasks[t].Acquired? || s.tasks[t].Closing?
    ensures CountAt(RunTask(edit, s, t, at).value, p)
  {
    var s' := RunTask(edit, s, t, at).value;
    TaskRefsUpdate(s.tasks, t, s'.tasks[t], p);
    if s.tasks[t].Acquired? {
      RetainRefs(s.shared.heap, s.shared.committed, p);
    } else {
      ReleaseRefs(s.shared.heap, s.tasks[t].original, p);
    }
  }

  lemma NotifyCounts<T>(edit: (TaskId, T) -> Option<T>, s: System<T>, t: TaskId, at: Ptr, p: Ptr)
    requires NotifierSound(s) && t < |s.tasks| && s.tasks[t].Notifying? && CountAt(s, p)
    ensures CountAt(RunTask(edit, s, t, at).value, p)
  {
    var finished := s.tasks[t := Done(s.tasks[t].outcome)];
    TaskRefsUpdate(s.tasks, t, finished[t], p);
    if s.shared.waiters != [] {
      TaskRefsUpdate(finished, s.shared.waiters[0], Retry(true), p);
    }
  }

  /** The steps that only touch the flag and the notifier. */
  lemma PermitCounts<T>(edit: (TaskId, T) -> Option<T>, s: System<T>, t: TaskId, at: Ptr, p: Ptr)
    requires t < |s.tasks| && RunTask(edit, s, t, at).Some? && CountAt(s, p)
    requires s.tasks[t].FastTry? || s.tasks[t].Yielded? || s.tasks[t].Retry? || s.tasks[t].AboutToPark? || s.tasks[t].Dropping?
    ensures CountAt(RunTask(edit, s, t, at).value, p)
  {
    var s' := RunTask(edit, s, t, at).value;
    TaskRefsUpdate(s.tasks, t, s'.tasks[t], p);
    assert s'.tasks == s.tasks[t := s'.tasks[t]];
  }

  lemma FinishCounts<T>(edit: (TaskId, T) -> Option<T>, s: System<T>, t: TaskId, at: Ptr, p: Ptr)
    requires t < |s.tasks| && s.tasks[t].Editing? && s.shared.Valid()
    requires Finish(edit, s, t, at).Some? && CountAt(s, p)
    ensures CountAt(Finish(edit, s, t, at).value, p)
  {
    var pc := s.tasks[t];
    var result := edit(t, pc.local);
    if result.None? {
      TaskRefsUpdate(s.tasks, t, Closing(pc.original, EditFailed), p);
    } else if s.shared.committed != pc.original {
      TaskRefsUpdate(s.tasks, t, Closing(pc.original, LockFailed), p);
    } else {
      TaskRefsUpdate(s.tasks, t, Closing(pc.original, Succeeded), p);
      ReplaceRefs(s.shared, result.value, at, p);
    }
  }

  /** A cell that survives a step keeps its value unless the draft was its only holder. */
  lemma ValueKept<T>(edit: (TaskId, T) -> Option<T>, s: System<T>, step: Step<T>, p: Ptr)
    requires CountsExact(s) && Next(edit, s, step).Some?
    requires p in s.shared.heap && p in Next(edit, s, step).value.shared.heap
    requires step.EditDraft? && s.shared.draft == Some(p) ==> s.shared.heap[p].refs > 1
    ensures Next(edit, s, step).value.shared.heap[p].value == s.shared.heap[p].value
  {
    HeldIsLive(s);
    assert Refs(s.shared.heap, p) == Holders(s, p);
    if step.EditDraft? {
    } else if step.Run? {
      assert RunTask(edit, s, step.task, step.at).Some?;
    }
  }

  lemma SnapshotsKept<T>(edit: (TaskId, T) -> Option<T>, s: System<T>, step: Step<T>)
    requires CountsExact(s) && NotifierSound(s) && SnapshotsFrozen(s)
    requires Next(edit, s, step).Some?
    ensures SnapshotsFrozen(Next(edit, s, step).value)
  {
    var s' := Next(edit, s, step).value;
    CountsKept(edit, s, step);
    HeldIsLive(s');
    forall r | 0 <= r < |s'.readers| && s'.readers[r].Some?
      ensures s'.shared.heap[s'.readers[r].value.ptr].value == s'.readers[r].value.seen
    {
      if r < |s.readers| {
        var p := s.readers[r].value.ptr;
        SomeReaderHolds(s.readers, r, p);
        assert Refs(s.shared.heap, p) == Holders(s, p);
        ValueKept(edit, s, step, p);
      }
    }
  }

  lemma DraftSeparateKept<T>(edit: (TaskId, T) -> Option<T>, s: System<T>, step: Step<T>)
    requires CountsExact(s) && NotifierSound(s) && DraftSeparate(s)
    requires Next(edit, s, step).Some?
    ensures DraftSeparate(Next(edit, s, step).value)
  {
    HeldIsLive(s);
    if step.EditDraft? {
      assert Refs(s.shared.heap, s.shared.committed) == Holders(s, s.shared.committed);
    } else if step.Run? {
      DraftSeparateRun(edit, s, step.task, step.at);
    }
  }

  lemma DraftSeparateRun<T>(edit: (TaskId, T) -> Option<T>, s: System<T>, t: TaskId, at: Ptr)
    requires s.shared.Valid() && NotifierSound(s) && DraftSeparate(s)
    requires t < |s.tasks| && RunTask(edit, s, t, at).Some?
    ensures DraftSeparate(RunTask(edit, s, t, at).value)
  {
    var s' := RunTask(edit, s, t, at).value;
    assert s'.shared.draft == s.shared.draft;
    if s.shared.draft.Some? {
      var d := s.shared.draft.value;
      forall u | 0 <= u < |s'.tasks| ensures !s'.tasks[u].Holds(d) {
        assert !s.tasks[u].Holds(d);
        assert !s.tasks[t].Holds(d);
      }
    }
  }

  /** What a step may do to the committed slot: nothing, or one logged commit. */
  ghost predicate CommitEffect<T>(edit: (TaskId, T) -> Option<T>, s: System<T>, step: Step<T>, s': System<T>)
    requires s.shared.Valid() && s'.shared.Valid()
  {
    if s'.log == s.log then
      && s'.shared.committed == s.shared.committed
      && s'.Committed() == s.Committed()
      && s'.applies == s.applies
    else
      && |s'.log| == |s.log| + 1
      && s'.log[..|s.log|] == s.log
      && s'.shared.committed != s.shared.committed
      && var c := s'.log[|s.log|];
      && c.before == s.Committed()
      && c.after == s'.Committed()
      && match c
         case Applied(_, _) => step.Apply? && s.shared.draft == Some(s'.shared.committed) && s'.applies == s.applies + 1
         case Replaced(t, _, _) =>
           && step.Run? && step.task == t < |s.tasks| && s'.applies == s.applies
           && s.tasks[t].Editing? && s.tasks[t].original == s.shared.committed
           && edit(t, s.tasks[t].local) == Some(c.after)
           && s'.tasks == s.tasks[t := Closing(s.tasks[t].original, Succeeded)]
  }

  lemma CommitStep<T>(edit: (TaskId, T) -> Option<T>, s: System<T>, step: Step<T>)
    requires CountsExact(s) && NotifierSound(s) && DraftSeparate(s)
    requires Next(edit, s, step).Some?
    ensures s.shared.Valid() && Next(edit, s, step).value.shared.Valid()
    ensures CommitEffect(edit, s, step, Next(edit, s, step).value)
  {
    var s' := Next(edit, s, step).value;
    HeldIsLive(s);
    CountsKept(edit, s, step);
    HeldIsLive(s');
    if s'.log == s.log {
      CommitsAreLogged(edit, s, step);
      ValueKept(edit, s, step, s.shared.committed);
    } else if step.Run? {
      assert s.tasks[step.task].Editing?;
    }
  }

  lemma CommitsAreLogged<T>(edit: (TaskId, T) -> Option<T>, s: System<T>, step: Step<T>)
    requires Next(edit, s, step).Some?
    ensures var s' := Next(edit, s, step).value;
            s'.shared.committed != s.shared.committed || s'.applies != s.applies ==> |s'.log| == |s.log| + 1
  {}

  lemma EditsKept<T>(edit: (TaskId, T) -> Option<T>, s: System<T>, step: Step<T>)
    requires CountsExact(s) && NotifierSound(s) && DraftSeparate(s) && PermitExclusive(s) && EditsTracked(s)
    requires Next(edit, s, step).Some?
    ensures EditsTracked(Next(edit, s, step).value)
  {
    var s' := Next(edit, s, step).value;
    CommitStep(edit, s, step);
    CountsKept(edit, s, step);
    HeldIsLive(s');
    forall t | 0 <= t < |s'.tasks|
      ensures EditKnows(s', s'.tasks[t])
    {
      if s'.tasks[t].Editing? {
        if t < |s.tasks| && s.tasks[t].Editing? {
          assert EditKnows(s, s.tasks[t]);
          EditingStays(edit, s, step, t);
          var p := s.tasks[t].original;
          assert s.tasks[t].Holds(p);
          assert s.shared.draft != Some(p);
          ValueKept(edit, s, step, p);
        } else {
          FreshEdit(edit, s, step, t);
        }
      }
    }
  }

  /** A task that is editing before and after a step was not the one that moved. */
  lemma EditingStays<T>(edit: (TaskId, T) -> Option<T>, s: System<T>, step: Step<T>, t: nat)
    requires NotifierSound(s) && Next(edit, s, step).Some?
    requires t < |s.tasks| && s.tasks[t].Editing? && Next(edit, s, step).value.tasks[t].Editing?
    ensures Next(edit, s, step).value.tasks[t] == s.tasks[t]
    ensures !(step.Run? && step.task == t)
  {}

  lemma FreshEdit<T>(edit: (TaskId, T) -> Option<T>, s: System<T>, step: Step<T>, t: nat)
    requires s.shared.Valid() && NotifierSound(s) && Next(edit, s, step).Some?
    requires t < |Next(edit, s, step).value.tasks| && Next(edit, s, step).value.tasks[t].Editing?
    requires t < |s.tasks| ==> !s.tasks[t].Editing?
    ensures EditKnows(Next(edit, s, step).value, Next(edit, s, step).value.tasks[t])
  {
    assert step.Run? && step.task == t && s.tasks[t].Acquired?;
  }

  lemma HistoryKept<T>(edit: (TaskId, T) -> Option<T>, initial: T, s: System<T>, step: Step<T>)
    requires CountsExact(s) && NotifierSound(s) && DraftSeparate(s) && EditsTracked(s)
    requires HistoryTrue(edit, initial, s)
    requires Next(edit, s, step).Some?
    ensures HistoryTrue(edit, initial, Next(edit, s, step).value)
  {
    var s' := Next(edit, s, step).value;
    CommitStep(edit, s, step);
    SerialKept(edit, initial, s, step);
    OutcomesKept(edit, s, step);
  }

  lemma SerialKept<T>(edit: (TaskId, T) -> Option<T>, initial: T, s: System<T>, step: Step<T>)
    requires s.shared.Valid() && HistoryTrue(edit, initial, s) && EditsTracked(s)
    requires Next(edit, s, step).Some?
    requires Next(edit, s, step).value.shared.Valid()
    requires CommitEffect(edit, s, step, Next(edit, s, step).value)
    ensures Serial(edit, initial, Next(edit, s, step).value.log)
    ensures Next(edit, s, step).value.Committed() == LastCommitted(initial, Next(edit, s, step).value.log)
  {
    var s' := Next(edit, s, step).value;
    if s'.log != s.log {
      var c := s'.log[|s.log|];
      assert s'.log == s.log + [c];
      if c.Replaced? {
        assert EditKnows(s, s.tasks[c.task]);
        assert !s.tasks[c.task].HasOutcome(Succeeded);
      }
      SerialSnoc(edit, initial, s.log, c);
    }
  }

  lemma SerialSnoc<T>(edit: (TaskId, T) -> Option<T>, initial: T, log: seq<Commit<T>>, c: Commit<T>)
    requires Serial(edit, initial, log) && c.before == LastCommitted(initial, log)
    requires c.Replaced? ==> edit(c.task, c.before) == Some(c.after)
    requires c.Replaced? ==> forall i :: 0 <= i < |log| && log[i].Replaced? ==> log[i].task != c.task
    ensures Serial(edit, initial, log + [c])
  {
    forall i | 0 <= i <= |log|
      ensures (log + [c])[i].before == LastCommitted(initial, (log + [c])[..i])
    {
      assert (log + [c])[..i] == log[..i];
      assert i == |log| ==> log[..i] == log;
    }
  }

  lemma OutcomesKept<T>(edit: (TaskId, T) -> Option<T>, s: System<T>, step: Step<T>)
    requires s.shared.Valid() && NotifierSound(s) && LogMatchesOutcomes(s)
    requires Next(edit, s, step).Some?
    requires Next(edit, s, step).value.shared.Valid()
    requires CommitEffect(edit, s, step, Next(edit, s, step).value)
    ensures LogMatchesOutcomes(Next(edit, s, step).value)
  {
    var s' := Next(edit, s, step).value;
    forall i | 0 <= i < |s'.log| && s'.log[i].Replaced?
      ensures s'.log[i].task < |s'.tasks| && s'.tasks[s'.log[i].task].HasOutcome(Succeeded)
    {
      if i < |s.log| {
        assert s'.log[i] == s.log[i];
        OutcomeStays(edit, s, step, s.log[i].task);
      }
    }
    forall t | 0 <= t < |s'.tasks| && s'.tasks[t].HasOutcome(Succeeded)
      ensures Logged(s'.log, t)
    {
      if t < |s.tasks| && s.tasks[t].HasOutcome(Succeeded) {
        var i :| 0 <= i < |s.log| && s.log[i].Replaced? && s.log[i].task == t;
        assert s'.log[i] == s.log[i];
      } else {
        FreshSuccess(edit, s, step, t);
        assert s'.log[|s.log|].task == t;
      }
    }
  }

  lemma OutcomeStays<T>(edit: (TaskId, T) -> Option<T>, s: System<T>, step: Step<T>, t: nat)
    requires NotifierSound(s) && Next(edit, s, step).Some?
    requires t < |s.tasks| && s.tasks[t].HasOutcome(Succeeded)
    ensures t < |Next(edit, s, step).value.tasks|
    ensures Next(edit, s, step).value.tasks[t].HasOutcome(Succeeded)
  {}

  lemma FreshSuccess<T>(edit: (TaskId, T) -> Option<T>, s: System<T>, step: Step<T>, t: nat)
    requires s.shared.Valid() && NotifierSound(s) && Next(edit, s, step).Some?
    requires t < |Next(edit, s, step).value.tasks|
    requires Next(edit, s, step).value.tasks[t].HasOutcome(Succeeded)
    requires t < |s.tasks| ==> !s.tasks[t].HasOutcome(Succeeded)
    ensures |Next(edit, s, step).value.log| == |s.log| + 1
    ensures Next(edit, s, step).value.log[|s.log|].Replaced?
    ensures Next(edit, s, step).value.log[|s.log|].task == t
  {
    assert step.Run? && step.task == t && s.tasks[t].Editing?;
  }

  lemma PermitKept<T>(edit: (TaskId, T) -> Option<T>, s: System<T>, step: Step<T>)
    requires NotifierSound(s) && PermitExclusive(s)
    requires Next(edit, s, step).Some?
    ensures PermitExclusive(Next(edit, s, step).value)
  {
    var s' := Next(edit, s, step).value;
    if step.Run? {
      PermitMoves(edit, s, step.task, step.at);
      PermitHandedOver(s, s', step.task);
    } else {
      assert forall u :: 0 <= u < |s.tasks| ==> s'.tasks[u] == s.tasks[u];
      assert forall u :: |s.tasks| <= u < |s'.tasks| ==> !s'.tasks[u].Holder();
    }
  }

  /** A task's step takes the permit, gives it up, or leaves it where it is. */
  ghost predicate PermitMove<T>(s: System<T>, s': System<T>, t: TaskId)
    requires t < |s.tasks| == |s'.tasks|
  {
    var had, has := s.tasks[t].Holder(), s'.tasks[t].Holder();
    || (had == has && s'.shared.modifying == s.shared.modifying)
    || (!had && has && !s.shared.modifying && s'.shared.modifying)
    || (had && !has && !s'.shared.modifying)
  }

  lemma PermitMoves<T>(edit: (TaskId, T) -> Option<T>, s: System<T>, t: TaskId, at: Ptr)
    requires NotifierSound(s) && t < |s.tasks| && RunTask(edit, s, t, at).Some?
    ensures var s' := RunTask(edit, s, t, at).value;
            && |s'.tasks| == |s.tasks|
            && PermitMove(s, s', t)
            && (forall u :: 0 <= u < |s.tasks| && u != t ==> s'.tasks[u].Holder() == s.tasks[u].Holder())
  {}

  lemma PermitHandedOver<T>(s: System<T>, s': System<T>, t: TaskId)
    requires t < |s.tasks| == |s'.tasks| && PermitMove(s, s', t) && PermitExclusive(s)
    requires forall u :: 0 <= u < |s.tasks| && u != t ==> s'.tasks[u].Holder() == s.tasks[u].Holder()
    ensures PermitExclusive(s')
  {
    if s'.shared.modifying && !s'.tasks[t].Holder() {
      var h :| 0 <= h < |s.tasks| && s.tasks[h].Holder();
      assert s'.tasks[h].Holder();
    }
  }

  lemma NotifierKept<T>(edit: (TaskId, T) -> Option<T>, s: System<T>, step: Step<T>)
    requires NotifierSound(s)
    requires Next(edit, s, step).Some?
    ensures NotifierSound(Next(edit, s, step).value)
  {
    var s' := Next(edit, s, step).value;
    if !step.Run? {
      QueueLeftAlone(edit, s, step);
    } else if s.tasks[step.task].Notifying? {
      NotifyingKeepsQueue(edit, s, step.task, step.at);
    } else if s.tasks[step.task].AboutToPark? {
      ParkingKeepsQueue(edit, s, step.task, step.at);
    } else {
      OrdinaryRun(edit, s, step.task, step.at);
      QueueStill(s, s', step.task);
    }
  }

  lemma QueueLeftAlone<T>(edit: (TaskId, T) -> Option<T>, s: System<T>, step: Step<T>)
    requires NotifierSound(s) && !step.Run? && Next(edit, s, step).Some?
    ensures NotifierSound(Next(edit, s, step).value)
  {
    var s' := Next(edit, s, step).value;
    assert forall u :: 0 <= u < |s.tasks| ==> s'.tasks[u] == s.tasks[u];
    assert forall u :: |s.tasks| <= u < |s'.tasks| ==> s'.tasks[u] == FastTry;
  }

  lemma NotifyingKeepsQueue<T>(edit: (TaskId, T) -> Option<T>, s: System<T>, t: TaskId, at: Ptr)
    requires NotifierSound(s) && t < |s.tasks| && s.tasks[t].Notifying? && RunTask(edit, s, t, at).Some?
    ensures NotifierSound(RunTask(edit, s, t, at).value)
  {
    var s' := RunTask(edit, s, t, at).value;
    if s.shared.waiters != [] {
      QueuePop(s, s', t, s.tasks[t].outcome);
    } else {
      QueueStill(s, s', t);
    }
  }

  lemma ParkingKeepsQueue<T>(edit: (TaskId, T) -> Option<T>, s: System<T>, t: TaskId, at: Ptr)
    requires NotifierSound(s) && t < |s.tasks| && s.tasks[t].AboutToPark? && RunTask(edit, s, t, at).Some?
    ensures NotifierSound(RunTask(edit, s, t, at).value)
  {
    var s' := RunTask(edit, s, t, at).value;
    if s.shared.storedPermit {
      QueueStill(s, s', t);
    } else {
      QueuePush(s, s', t);
    }
  }

  /** Any other step of a task leaves the notifier alone. */
  lemma OrdinaryRun<T>(edit: (TaskId, T) -> Option<T>, s: System<T>, t: TaskId, at: Ptr)
    requires t < |s.tasks| && !s.tasks[t].Notifying? && !s.tasks[t].AboutToPark? && RunTask(edit, s, t, at).Some?
    ensures var s' := RunTask(edit, s, t, at).value;
            && s.tasks[t] != Parked && |s'.tasks| == |s.tasks|
            && s'.tasks == s.tasks[t := s'.tasks[t]] && s'.tasks[t] != Parked
            && s'.shared.waiters == s.shared.waiters && s'.shared.storedPermit == s.shared.storedPermit
  {}

  lemma QueueStill<T>(s: System<T>, s': System<T>, t: TaskId)
    requires NotifierSound(s) && t < |s.tasks|
    requires s.tasks[t] != Parked && |s'.tasks| == |s.tasks|
    requires s'.tasks == s.tasks[t := s'.tasks[t]] && s'.tasks[t] != Parked
    requires s'.shared.waiters == s.shared.waiters
    requires s'.shared.storedPermit ==> s.shared.storedPermit || s.shared.waiters == []
    ensures NotifierSound(s')
  {}

  lemma QueuePush<T>(s: System<T>, s': System<T>, t: TaskId)
    requires NotifierSound(s) && t < |s.tasks| && s.tasks[t] != Parked
    requires s'.tasks == s.tasks[t := Parked] && s'.shared.waiters == s.shared.waiters + [t]
    requires !s'.shared.storedPermit
    ensures NotifierSound(s')
  {
    forall u: nat | u < |s'.tasks| && s'.tasks[u] == Parked
      ensures u in s'.shared.waiters
    {
      assert u == t || u in s.shared.waiters;
    }
  }

  lemma QueuePop<T>(s: System<T>, s': System<T>, t: TaskId, o: Outcome)
    requires NotifierSound(s) && t < |s.tasks| && s.tasks[t] == Notifying(o)
    requires s.shared.waiters != [] && s'.shared.waiters == s.shared.waiters[1..]
    requires s'.tasks == s.tasks[t := Done(o)][s.shared.waiters[0] := Retry(true)]
    requires s'.shared.storedPermit == s.shared.storedPermit
    ensures NotifierSound(s')
  {
    assert s.shared.waiters == [s.shared.waiters[0]] + s'.shared.waiters;
    forall u: nat | u < |s'.tasks| && s'.tasks[u] == Parked
      ensures u in s'.shared.waiters
    {
      assert u in s.shared.waiters;
    }
  }

  lemma WakeupKept<T>(edit: (TaskId, T) -> Option<T>, s: System<T>, step: Step<T>)
    requires NotifierSound(s) && PermitExclusive(s) && NoLostWakeup(s)
    requires Next(edit, s, step).Some?
    ensures NoLostWakeup(Next(edit, s, step).value)
  {
    var s' := Next(edit, s, step).value;
    if step.Run? {
      WakeupRun(edit, s, step.task, step.at);
    } else if SomeoneWaits(s') {
      var w :| 0 <= w < |s'.tasks| && (s'.tasks[w].AboutToPark? || s'.tasks[w].Parked?);
      assert s.tasks[w] == s'.tasks[w];
      if exists u :: 0 <= u < |s.tasks| && s.tasks[u].Notifying? {
        var u :| 0 <= u < |s.tasks| && s.tasks[u].Notifying?;
        assert s'.tasks[u].Notifying?;
      }
      if exists u :: 0 <= u < |s.tasks| && s.tasks[u] == Retry(true) {
        var u :| 0 <= u < |s.tasks| && s.tasks[u] == Retry(true);
        assert s'.tasks[u] == Retry(true);
      }
    }
  }

  lemma WakeupRun<T>(edit: (TaskId, T) -> Option<T>, s: System<T>, t: TaskId, at: Ptr)
    requires NotifierSound(s) && PermitExclusive(s) && NoLostWakeup(s)
    requires t < |s.tasks| && RunTask(edit, s, t, at).Some?
    ensures NoLostWakeup(RunTask(edit, s, t, at).value)
  {
    var s' := RunTask(edit, s, t, at).value;
    match s.tasks[t]
    case FastTry =>
      assert s'.shared.modifying;
    case Retry(_) =>
      assert s'.shared.modifying;
    case AboutToPark =>
      assert SomeoneWaits(s);
      if s.shared.storedPermit {
        assert s'.tasks[t] == Retry(true);
      } else {
        OthersStay(s, s', t);
      }
    case Dropping(_) =>
      assert s'.tasks[t].Notifying?;
    case Notifying(_) =>
      if s.shared.waiters != [] {
        assert s'.tasks[s.shared.waiters[0]] == Retry(true);
      }
    case Yielded =>
      OthersStay(s, s', t);
    case Acquired =>
      assert s.tasks[t].Holder();
    case Editing(_, _, _, _) =>
      assert s.tasks[t].Holder();
    case Closing(_, _) =>
      assert s.tasks[t].Holder();
    case _ =>
  }

  /** A quiet step of `t` keeps every wake-up that was pending for a waiter. */
  lemma OthersStay<T>(s: System<T>, s': System<T>, t: TaskId)
    requires t < |s.tasks| && |s'.tasks| == |s.tasks|
    requires forall u :: 0 <= u < |s.tasks| && u != t ==> s'.tasks[u] == s.tasks[u]
    requires !s.tasks[t].Notifying? && s.tasks[t] != Retry(true)
    requires s.shared.modifying ==> s'.shared.modifying
    requires s.shared.storedPermit ==> s'.shared.storedPermit
    requires SomeoneWaits(s') ==> SomeoneWaits(s)
    requires NoLostWakeup(s)
    ensures NoLostWakeup(s')
  {
    if SomeoneWaits(s') {
      if exists u :: 0 <= u < |s.tasks| && s.tasks[u].Notifying? {
        var u :| 0 <= u < |s.tasks| && s.tasks[u].Notifying?;
        assert s'.tasks[u].Notifying?;
      }
      if exists u :: 0 <= u < |s.tasks| && s.tasks[u] == Retry(true) {
        var u :| 0 <= u < |s.tasks| && s.tasks[u] == Retry(true);
        assert s'.tasks[u] == Retry(true);
      }
    }
  }

  // ---------------------------------------------------------------- every run

  lemma InvInitially<T>(edit: (TaskId, T) -> Option<T>, initial: T, at: Ptr)
    ensures Inv(edit, initial, Init(initial, at))
  {
    var s := Init(initial, at);
    forall p: Ptr ensures Refs(s.shared.heap, p) == Holders(s, p) {}
  }

  lemma InvKept<T>(edit: (TaskId, T) -> Option<T>, initial: T, s: System<T>, step: Step<T>)
    requires Inv(edit, initial, s) && Next(edit, s, step).Some?
    ensures Inv(edit, initial, Next(edit, s, step).value)
  {
    CountsKept(edit, s, step);
    DraftSeparateKept(edit, s, step);
    SnapshotsKept(edit, s, step);
    EditsKept(edit, s, step);
    PermitKept(edit, s, step);
    NotifierKept(edit, s, step);
    WakeupKept(edit, s, step);
    HistoryKept(edit, initial, s, step);
  }

  lemma {:induction false} InvAlong<T>(edit: (TaskId, T) -> Option<T>, initial: T, s: System<T>, steps: seq<Step<T>>)
    requires Inv(edit, initial, s) && Exec(edit, s, steps).Some?
    ensures Inv(edit, initial, Exec(edit, s, steps).value)
    decreases |steps|
  {
    if steps != [] {
      InvKept(edit, initial, s, steps[0]);
      InvAlong(edit, initial, Next(edit, s, steps[0]).value, steps[1..]);
    }
  }
}
