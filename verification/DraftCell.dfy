/**
 The shared part of a draft layer: a reference-counted committed snapshot, an optional
 draft, and the modify permit (an atomic flag plus a notification primitive).

 Every function below is one atomic section: a section under the layer's mutex, one atomic
 operation on the flag, or one operation on the notifier.  `Draft` is the object itself; each
 of its methods performs the section in place and is proved equal to the function, so that the
 interleaving model in `DraftProtocol` is about the same code.
 */
module DraftCell {
  import opened Common

  /** Addresses.  A freed address may be handed out again. */
  type Ptr = nat

  type TaskId = nat

  /** A reference-counted allocation: the value and its strong count. */
  datatype Cell<+T> = Cell(value: T, refs: nat)

  type Heap<+T> = map<Ptr, Cell<T>>

  function Refs<T>(heap: Heap<T>, p: Ptr): nat {
    if p in heap then heap[p].refs else 0
  }

  /** Cloning a counted pointer. */
  function Retain<T>(heap: Heap<T>, p: Ptr): (r: Heap<T>)
    requires p in heap
    ensures r.Keys == heap.Keys
  {
    heap[p := Cell(heap[p].value, heap[p].refs + 1)]
  }

  /** Dropping a counted pointer; the last drop frees the address. */
  function Release<T>(heap: Heap<T>, p: Ptr): Heap<T>
    requires p in heap
  {
    if heap[p].refs <= 1 then heap - {p}
    else heap[p := Cell(heap[p].value, heap[p].refs - 1)]
  }

  function Allocate<T>(heap: Heap<T>, at: Ptr, value: T): Heap<T>
    requires at !in heap
  {
    heap[at := Cell(value, 1)]
  }

  datatype Shared<+T> = Shared(
    heap: Heap<T>,
    committed: Ptr,
    draft: Option<Ptr>,
    modifying: bool,
    storedPermit: bool,
    waiters: seq<TaskId>
  ) {
    /** Both slots point at live cells. */
    predicate Valid() {
      && committed in heap
      && (draft.Some? ==> draft.value in heap)
    }

    /** The pointer `latest_arc` hands out. */
    function Latest(): Ptr {
      draft.GetOr(committed)
    }

    /**
     `edit_draft`: take the draft, or clone the committed pointer; copy the value to a new
     address unless this is the only pointer to it; then edit in place.
     */
    function EditDraft(f: T -> T, at: Ptr): Shared<T>
      requires Valid() && at !in heap
    {
      var cloned := if draft.Some? then heap else Retain(heap, committed);
      var source := Latest();
      var value := cloned[source].value;
      if cloned[source].refs == 1 then
        this.(heap := cloned[source := Cell(f(value), 1)], draft := Some(source))
      else
        this.(heap := Allocate(Release(cloned, source), at, f(value)), draft := Some(at))
    }

    /** `apply`: the draft pointer moves into the committed slot, dropping the old one. */
    function Apply(): Shared<T>
      requires Valid()
    {
      match draft
      case None => this
      case Some(d) => this.(heap := Release(heap, committed), committed := d, draft := None)
    }

    function Discard(): Shared<T>
      requires Valid()
    {
      match draft
      case None => this
      case Some(d) => this.(heap := Release(heap, d), draft := None)
    }

    /** The success branch of `with_data_modify`: a new cell replaces the committed one. */
    function Replace(value: T, at: Ptr): Shared<T>
      requires Valid() && at !in heap
    {
      this.(heap := Release(Allocate(heap, at, value), committed), committed := at)
    }

    /** `notify_one`: wake the longest waiter, or store one permit. */
    function NotifyOne(): Shared<T> {
      if waiters == [] then this.(storedPermit := true) else this.(waiters := waiters[1..])
    }

    /** First poll of `notified()`: use up the stored permit, or join the queue. */
    function PollNotified(t: TaskId): Shared<T> {
      if storedPermit then this.(storedPermit := false) else this.(waiters := waiters + [t])
    }
  }

  /** The layer object, updated in place. */
  class Draft<T> {
    var heap: Heap<T>
    var committed: Ptr
    var draft: Option<Ptr>
    var modifying: bool
    var storedPermit: bool
    var waiters: seq<TaskId>

    ghost function View(): Shared<T>
      reads this
    {
      Shared(heap, committed, draft, modifying, storedPermit, waiters)
    }

    constructor (value: T, at: Ptr)
      ensures View() == Shared(map[at := Cell(value, 1)], at, None, false, false, [])
      ensures View().Valid()
    {
      heap, committed, draft := map[at := Cell(value, 1)], at, None;
      modifying, storedPermit, waiters := false, false, [];
    }

    method DataArc() returns (p: Ptr)
      requires View().Valid()
      modifies this`heap
      ensures p == committed && heap == Retain(old(heap), p)
    {
      p := committed;
      heap := heap[p := heap[p].(refs := heap[p].refs + 1)];
    }

    method LatestArc() returns (p: Ptr)
      requires View().Valid()
      modifies this`heap
      ensures p == View().Latest() && heap == Retain(old(heap), p)
    {
      match draft {
        case Some(d) => p := d;
        case None => p := committed;
      }
      heap := heap[p := heap[p].(refs := heap[p].refs + 1)];
    }

    /** Dropping a pointer some caller held. */
    method DropArc(p: Ptr)
      requires p in heap
      modifies this`heap
      ensures heap == Release(old(heap), p)
    {
      if heap[p].refs <= 1 {
        heap := heap - {p};
      } else {
        heap := heap[p := heap[p].(refs := heap[p].refs - 1)];
      }
    }

    /** Copy on write: the returned pointer is the only one to its cell. */
    method MakeMut(p: Ptr, at: Ptr) returns (q: Ptr)
      requires p in heap && at !in heap && heap[p].refs >= 1
      modifies this`heap
      ensures q in heap && heap[q] == Cell(old(heap)[p].value, 1)
      ensures old(heap)[p].refs == 1 ==> q == p && heap == old(heap)
      ensures old(heap)[p].refs != 1 ==>
                q == at && heap == Allocate(Release(old(heap), p), at, old(heap)[p].value)
    {
      q := p;
      if heap[p].refs != 1 {
        var value := heap[p].value;
        heap := heap[p := heap[p].(refs := heap[p].refs - 1)];
        heap := heap[at := Cell(value, 1)];
        q := at;
      }
    }

    method EditDraft(f: T -> T, at: Ptr)
      requires View().Valid() && at !in heap && Refs(heap, View().Latest()) >= 1
      modifies this`heap, this`draft
      ensures View() == old(View()).EditDraft(f, at)
    {
      var d;
      match draft {
        case Some(p) => d := p;
        case None => d := DataArc();
      }
      var q := MakeMut(d, at);
      heap := heap[q := heap[q].(value := f(heap[q].value))];
      draft := Some(q);
    }

    method Apply()
      requires View().Valid()
      modifies this`heap, this`committed, this`draft
      ensures View() == old(View()).Apply()
    {
      if draft.Some? {
        var replaced := committed;
        committed := draft.value;
        draft := None;
        DropArc(replaced);
      }
    }

    method Discard()
      requires View().Valid()
      modifies this`heap, this`draft
      ensures View() == old(View()).Discard()
    {
      if draft.Some? {
        DropArc(draft.value);
        draft := None;
      }
    }

    /** The closing section of `with_data_modify`; false is the optimistic-lock error. */
    method CompareAndReplace(original: Ptr, value: T, at: Ptr) returns (ok: bool)
      requires View().Valid() && at !in heap
      modifies this`heap, this`committed
      ensures ok == (old(committed) == original)
      ensures View() == if ok then old(View()).Replace(value, at) else old(View())
    {
      ok := committed == original;
      if ok {
        var replaced := committed;
        heap := heap[at := Cell(value, 1)];
        committed := at;
        DropArc(replaced);
      }
    }

    method TryAcquirePermit() returns (ok: bool)
      modifies this`modifying
      ensures View() == old(View()).(modifying := true) && ok == !old(View()).modifying
    {
      ok := !modifying;
      modifying := true;
    }

    /** First half of dropping the permit. */
    method ClearFlag()
      modifies this`modifying
      ensures !modifying
    {
      modifying := false;
    }

    /** Second half of dropping the permit. */
    method NotifyOne() returns (woken: Option<TaskId>)
      modifies this`storedPermit, this`waiters
      ensures View() == old(View()).NotifyOne()
      ensures woken == if old(waiters) == [] then None else Some(old(waiters)[0])
    {
      if |waiters| > 0 {
        woken := Some(waiters[0]);
        waiters := waiters[1..];
      } else {
        woken := None;
        storedPermit := true;
      }
    }

    method PollNotified(t: TaskId) returns (ready: bool)
      modifies this`storedPermit, this`waiters
      ensures View() == old(View()).PollNotified(t)
      ensures ready == old(storedPermit)
    {
      ready := storedPermit;
      if storedPermit {
        storedPermit := false;
      } else {
        waiters := waiters + [t];
      }
    }
  }
}
