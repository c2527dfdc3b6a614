/**
 * The SCSI request queue as a state machine. A step is one critical section of the queue lock, or one stretch of
 * code that touches nothing shared; submitters and the worker may interleave at every step.
 */
module ScsiQueue {
  import opened Words

  const scsiErrorBase: OSErr := -7936
  const scsiNonZeroStatus: OSErr := scsiErrorBase + 4
  const scsiSelectTimeout: OSErr := scsiErrorBase + 10
  const scsiCommandTimeout: OSErr := scsiErrorBase + 11
  const scsiParityError: OSErr := scsiErrorBase + 15
  const scsiDataRunError: OSErr := scsiErrorBase + 18
  const scsiUnexpectedBusFree: OSErr := scsiErrorBase + 19
  const scsiSequenceFail: OSErr := scsiErrorBase + 20
  const scsiBadFunction: OSErr := scsiErrorBase + 64
  const scsiIDInvalid: OSErr := scsiErrorBase + 68
  const memFullErr: OSErr := -108

  function MapHALError(halError: OSErr): OSErr {
    if halError == noErr then noErr
    else if halError == -1 then scsiSelectTimeout
    else if halError == -2 then scsiCommandTimeout
    else if halError == -3 then scsiParityError
    else if halError == -4 then scsiUnexpectedBusFree
    else if halError == -5 then scsiSequenceFail
    else scsiDataRunError
  }

  /** What the bus does with a command: there is no bus, it takes no commands, or the hardware layer answers. */
  datatype Reply = NoBus | NoCallback | Answer(halError: OSErr)

  function ExecuteCommand(reply: Reply): OSErr {
    match reply
    case NoBus => scsiIDInvalid
    case NoCallback => scsiBadFunction
    case Answer(e) => MapHALError(e)
  }

  /** The completion code of each reply, as the callers of the SCSI manager see it. */
  predicate CodeIs(reply: Reply, code: OSErr) {
    match reply
    case NoBus => code == -7868
    case NoCallback => code == -7872
    case Answer(e) =>
      if e == 0 then code == 0
      else if e == -1 then code == -7926
      else if e == -2 then code == -7925
      else if e == -3 then code == -7921
      else if e == -4 then code == -7917
      else if e == -5 then code == -7916
      else code == -7918
  }

  /** The answers after which a command is tried again: nobody there, and no answer in time. */
  predicate TimesOut(reply: Reply) {
    reply == Answer(-1) || reply == Answer(-2)
  }

  /** Every reply gives its code, and only a time-out gives a code that is tried again. */
  lemma CodeOfReply(reply: Reply)
    ensures CodeIs(reply, ExecuteCommand(reply))
    ensures ExecuteCommand(reply) in {scsiSelectTimeout, scsiCommandTimeout} <==> TimesOut(reply)
  {
  }

  /** Success is the code of one answer only, and the answers from 0 to -5 all have codes of their own. */
  lemma CodesApart(x: Reply, y: Reply, code: OSErr)
    requires CodeIs(x, code)
    ensures code == 0 <==> x == Answer(0)
    ensures x.Answer? && -5 <= x.halError <= 0 && CodeIs(y, code) ==> y == x
  {
  }

  datatype IOStat = Idle | NeedsSense

  /** A queue entry in use: the entry, the request in it, its retry count and its status. */
  datatype Item = Item(entry: nat, request: nat, retries: nat, stat: IOStat)

  /** Where the worker is, and with which item. */
  datatype Worker =
    | Waiting
    | Executing(item: Item)                 // taken off the queue
    | Requeueing(item: Item)                // to be put back at the head
    | Completing(item: Item, result: OSErr) // result decided, completion routine not called yet
    | Releasing(item: Item)                 // completion routine called, entry not freed yet

  datatype State = State(
    maxRetries: nat,
    queue: seq<Item>,
    free: seq<nat>,
    preparing: seq<Item>,           // the items of submitters between allocation and linking
    worker: Worker,
    entries: nat,                   // entries allocated so far, free or not
    requests: nat,                  // requests issued so far
    linked: seq<nat>,               // the requests in the order they were queued
    executed: seq<nat>,             // the requests in the order they were sent to the bus
    completed: seq<nat>,            // the requests in the order their completion routines were called
    refused: seq<nat>)              // the requests completed with memFullErr for want of an entry

  datatype Step =
    | Allocate(room: bool)          // AllocateQueueEntry, with or without memory for a new entry
    | Link(k: nat, atHead: bool)    // a submitter links its item
    | Pick                          // the worker takes the head off the queue
    | Execute(reply: Reply, senseWanted: bool)
    | Requeue                       // the worker puts its item back
    | SenseDone                     // the worker completes a head that needed sense data
    | Complete                      // the worker calls the completion routine
    | Release                       // the worker frees the entry
    | Expire                        // the worker finds the head's timer expired

  predicate Enabled(s: State, step: Step) {
    match step
    case Allocate(_) => true
    case Link(k, _) => k < |s.preparing|
    case Pick => s.worker.Waiting? && s.queue != [] && s.queue[0].stat == Idle
    case Execute(_, _) => s.worker.Executing?
    case Requeue => s.worker.Requeueing?
    case SenseDone => s.worker.Waiting? && s.queue != [] && s.queue[0].stat == NeedsSense
    case Complete => s.worker.Completing?
    case Release => s.worker.Releasing?
    case Expire => s.worker.Waiting? && s.queue != [] && s.queue[0].stat == Idle
  }

  function WithoutAt<T>(s: seq<T>, k: nat): seq<T>
    requires k < |s|
  {
    s[..k] + s[k + 1..]
  }

  /** What the worker does with the result of a command. */
  function AfterExecute(item: Item, result: OSErr, senseWanted: bool, maxRetries: nat): Worker {
    if result == noErr then Completing(item, noErr)
    else if result == scsiNonZeroStatus && senseWanted then Requeueing(item.(stat := NeedsSense))
    else if item.retries < maxRetries && (result == scsiSelectTimeout || result == scsiCommandTimeout) then
      Requeueing(item.(retries := item.retries + 1))
    else Completing(item, result)
  }

  function After(s: State, step: Step): State
    requires Enabled(s, step)
  {
    match step
    case Allocate(room) =>
      if s.free != [] then
        s.(free := s.free[1..], preparing := s.preparing + [Item(s.free[0], s.requests, 0, Idle)],
           requests := s.requests + 1)
      else if room then
        s.(entries := s.entries + 1, preparing := s.preparing + [Item(s.entries, s.requests, 0, Idle)],
           requests := s.requests + 1)
      else s.(refused := s.refused + [s.requests], requests := s.requests + 1)
    case Link(k, atHead) =>
      var item := s.preparing[k];
      s.(preparing := WithoutAt(s.preparing, k), queue := if atHead then [item] + s.queue else s.queue + [item],
         linked := s.linked + [item.request])
    case Pick => s.(worker := Executing(s.queue[0]), queue := s.queue[1..])
    case Execute(reply, senseWanted) =>
      s.(executed := s.executed + [s.worker.item.request],
         worker := AfterExecute(s.worker.item, ExecuteCommand(reply), senseWanted, s.maxRetries))
    case Requeue => s.(queue := [s.worker.item] + s.queue, worker := Waiting)
    case SenseDone => s.(worker := Completing(s.queue[0], scsiNonZeroStatus), queue := s.queue[1..])
    case Complete => s.(completed := s.completed + [s.worker.item.request], worker := Releasing(s.worker.item))
    case Release => s.(free := [s.worker.item.entry] + s.free, worker := Waiting)
    case Expire =>
      // CompleteIO removes and frees the entry, and then the loop goes on to execute it
      s.(completed := s.completed + [s.queue[0].request], free := [s.queue[0].entry] + s.free,
         worker := Executing(s.queue[0]), queue := s.queue[1..])
  }

  function Initial(maxRetries: nat): State {
    State(maxRetries, [], [], [], Waiting, 0, 0, [], [], [], [])
  }

  /** The state after a list of steps, as long as each is enabled in turn. */
  function Run(s: State, steps: seq<Step>): State
    decreases |steps|
  {
    if steps == [] || !Enabled(s, steps[0]) then s else Run(After(s, steps[0]), steps[1..])
  }

  // ---- Where everything is -----------------------------------------------------------------------

  function Entry(i: Item): nat { i.entry }

  function Request(i: Item): nat { i.request }

  function Itself(n: nat): nat { n }

  /** How often `x` occurs in a list. */
  function Count<T>(s: seq<T>, f: T -> nat, x: nat): nat {
    if s == [] then 0 else (if f(s[0]) == x then 1 else 0) + Count(s[1..], f, x)
  }

  /** The item the worker holds, as a list. */
  function Held(w: Worker): seq<Item> {
    if w.Waiting? then [] else [w.item]
  }

  /** The same while its completion routine has not been called. */
  function Pending(w: Worker): seq<Item> {
    if w.Waiting? || w.Releasing? then [] else [w.item]
  }

  /** The number of places entry `e` is in: the queue, the free list, a submitter's hands, the worker's hands. */
  function EntryPlaces(s: State, e: nat): nat {
    Count(s.queue, Entry, e) + Count(s.free, Itself, e) + Count(s.preparing, Entry, e) + Count(Held(s.worker), Entry, e)
  }

  /** The number of places request `r` is in: the same, or completed, or refused. */
  function RequestPlaces(s: State, r: nat): nat {
    Count(s.queue, Request, r) + Count(s.preparing, Request, r) + Count(Pending(s.worker), Request, r)
    + Count(s.completed, Itself, r) + Count(s.refused, Itself, r)
  }

  /** Every entry is in exactly one place, and so is every request. */
  ghost predicate Parted(s: State) {
    && (forall e: nat :: EntryPlaces(s, e) == if e < s.entries then 1 else 0)
    && (forall r: nat :: RequestPlaces(s, r) == if r < s.requests then 1 else 0)
  }

  lemma {:induction false} CountAppend<T>(a: seq<T>, b: seq<T>, f: T -> nat, x: nat)
    ensures Count(a + b, f, x) == Count(a, f, x) + Count(b, f, x)
  {
    if a == [] {
      assert a + b == b;
    } else {
      assert (a + b)[1..] == a[1..] + b;
      CountAppend(a[1..], b, f, x);
    }
  }

  lemma CountOne<T>(t: T, f: T -> nat, x: nat)
    ensures Count([t], f, x) == if f(t) == x then 1 else 0
  {
  }

  lemma CountWithout<T>(a: seq<T>, k: nat, f: T -> nat, x: nat)
    requires k < |a|
    ensures Count(a, f, x) == Count(WithoutAt(a, k), f, x) + if f(a[k]) == x then 1 else 0
  {
    hide Count;
    assert a == a[..k] + ([a[k]] + a[k + 1..]);
    CountAppend(a[..k], [a[k]] + a[k + 1..], f, x);
    CountAppend([a[k]], a[k + 1..], f, x);
    CountAppend(a[..k], a[k + 1..], f, x);
    CountOne(a[k], f, x);
  }

  lemma CountPrepend<T>(t: T, a: seq<T>, f: T -> nat, x: nat)
    ensures Count([t] + a, f, x) == Count(a, f, x) + if f(t) == x then 1 else 0
  {
    CountAppend([t], a, f, x);
    CountOne(t, f, x);
  }

  lemma CountLast<T>(a: seq<T>, t: T, f: T -> nat, x: nat)
    ensures Count(a + [t], f, x) == Count(a, f, x) + if f(t) == x then 1 else 0
  {
    CountAppend(a, [t], f, x);
    CountOne(t, f, x);
  }

  lemma CountFirst<T>(a: seq<T>, f: T -> nat, x: nat)
    requires a != []
    ensures Count(a, f, x) == Count(a[1..], f, x) + if f(a[0]) == x then 1 else 0
  {
  }

  /** An allocation may create an entry; an expiry puts the head in two places; nothing else changes the count. */
  lemma EntryPlacesAfter(s: State, step: Step, e: nat)
    requires Enabled(s, step)
    ensures EntryPlaces(After(s, step), e) == EntryPlaces(s, e)
      + (if step.Allocate? && s.free == [] && step.room && e == s.entries then 1 else 0)
      + (if step.Expire? && e == s.queue[0].entry then 1 else 0)
  {
    hide Count, WithoutAt, ExecuteCommand;
    NoneCounted(Entry, e);
    match step
    case Allocate(room) =>
      if s.free != [] {
        CountFirst(s.free, Itself, e);
        CountLast(s.preparing, Item(s.free[0], s.requests, 0, Idle), Entry, e);
      } else {
        CountLast(s.preparing, Item(s.entries, s.requests, 0, Idle), Entry, e);
      }
    case Link(k, _) =>
      CountWithout(s.preparing, k, Entry, e);
      CountPrepend(s.preparing[k], s.queue, Entry, e);
      CountLast(s.queue, s.preparing[k], Entry, e);
    case Pick =>
      CountFirst(s.queue, Entry, e);
      CountOne(s.queue[0], Entry, e);
    case SenseDone =>
      CountFirst(s.queue, Entry, e);
      CountOne(s.queue[0], Entry, e);
    case Execute(_, _) =>
      CountOne(s.worker.item, Entry, e);
      CountOne(After(s, step).worker.item, Entry, e);
    case Requeue =>
      CountPrepend(s.worker.item, s.queue, Entry, e);
      CountOne(s.worker.item, Entry, e);
    case Complete =>
    case Release =>
      CountPrepend(s.worker.item.entry, s.free, Itself, e);
      CountOne(s.worker.item, Entry, e);
    case Expire =>
      CountFirst(s.queue, Entry, e);
      CountOne(s.queue[0], Entry, e);
      CountPrepend(s.queue[0].entry, s.free, Itself, e);
  }

  lemma NoneCounted<T>(f: T -> nat, x: nat)
    ensures Count([], f, x) == 0
  {
  }

  /** An allocation issues a request; an expiry completes a request that is about to be executed. */
  lemma RequestPlacesAfter(s: State, step: Step, r: nat)
    requires Enabled(s, step)
    ensures RequestPlaces(After(s, step), r) == RequestPlaces(s, r)
      + (if step.Allocate? && r == s.requests then 1 else 0)
      + (if step.Expire? && r == s.queue[0].request then 1 else 0)
  {
    hide Count, WithoutAt, ExecuteCommand;
    NoneCounted(Request, r);
    match step
    case Allocate(room) =>
      if s.free != [] {
        CountLast(s.preparing, Item(s.free[0], s.requests, 0, Idle), Request, r);
      } else if room {
        CountLast(s.preparing, Item(s.entries, s.requests, 0, Idle), Request, r);
      } else {
        CountLast(s.refused, s.requests, Itself, r);
      }
    case Link(k, _) =>
      CountWithout(s.preparing, k, Request, r);
      CountPrepend(s.preparing[k], s.queue, Request, r);
      CountLast(s.queue, s.preparing[k], Request, r);
    case Pick =>
      CountFirst(s.queue, Request, r);
      CountOne(s.queue[0], Request, r);
    case SenseDone =>
      CountFirst(s.queue, Request, r);
      CountOne(s.queue[0], Request, r);
    case Execute(_, _) =>
      CountOne(s.worker.item, Request, r);
      CountOne(After(s, step).worker.item, Request, r);
    case Requeue =>
      CountPrepend(s.worker.item, s.queue, Request, r);
      CountOne(s.worker.item, Request, r);
    case Complete =>
      CountLast(s.completed, s.worker.item.request, Itself, r);
      CountOne(s.worker.item, Request, r);
    case Release =>
    case Expire =>
      CountFirst(s.queue, Request, r);
      CountOne(s.queue[0], Request, r);
      CountLast(s.completed, s.queue[0].request, Itself, r);
  }

  /** Every step keeps the partition, except that finding an expired timer always breaks it. */
  lemma StepKeepsParted(s: State, step: Step)
    requires Parted(s) && Enabled(s, step)
    ensures Parted(After(s, step)) <==> !step.Expire?
  {
    hide EntryPlaces, RequestPlaces;
    var t := After(s, step);
    forall e: nat
      ensures EntryPlaces(t, e) == EntryPlaces(s, e)
        + (if step.Allocate? && s.free == [] && step.room && e == s.entries then 1 else 0)
        + (if step.Expire? && e == s.queue[0].entry then 1 else 0)
    {
      EntryPlacesAfter(s, step, e);
    }
    forall r: nat
      ensures RequestPlaces(t, r) == RequestPlaces(s, r)
        + (if step.Allocate? && r == s.requests then 1 else 0)
        + (if step.Expire? && r == s.queue[0].request then 1 else 0)
    {
      RequestPlacesAfter(s, step, r);
    }
    if step.Expire? {
      var e := s.queue[0].entry;
      AtLeastOnce(s, e);
      assert EntryPlaces(t, e) == 2;
    }
  }

  lemma AtLeastOnce(s: State, e: nat)
    requires s.queue != [] && s.queue[0].entry == e
    ensures EntryPlaces(s, e) >= 1
  {
  }

  // ---- Retries --------------------------------------------------------------------------------------

  /** An item that may still be executed has been executed once for each retry it counts. */
  ghost predicate Tracked(s: State, i: Item) {
    i.stat == Idle && i.retries <= s.maxRetries && Count(s.executed, Itself, i.request) == i.retries
  }

  ghost predicate AllTracked(s: State, items: seq<Item>) {
    forall k :: 0 <= k < |items| ==> Tracked(s, items[k])
  }

  ghost predicate Counted(s: State) {
    && AllTracked(s, s.queue) && AllTracked(s, s.preparing)
    && (s.worker.Executing? || s.worker.Requeueing? ==> Tracked(s, s.worker.item))
    && (s.worker.Completing? ==> Count(s.executed, Itself, s.worker.item.request) >= 1)
    && (forall k :: 0 <= k < |s.completed| ==> Count(s.executed, Itself, s.completed[k]) >= 1)
    && (forall r: nat {:trigger Count(s.executed, Itself, r)} ::
          Count(s.executed, Itself, r) <= if r < s.requests then 1 + s.maxRetries else 0)
  }

  lemma {:induction false} CountAt<T>(a: seq<T>, k: nat, f: T -> nat)
    requires k < |a|
    ensures Count(a, f, f(a[k])) >= 1
  {
    if k > 0 {
      CountAt(a[1..], k - 1, f);
    }
  }

  /** The worker's request is nobody else's. */
  lemma WorkerAlone(s: State)
    requires Parted(s) && s.worker.Executing?
    ensures s.worker.item.request < s.requests
    ensures forall k :: 0 <= k < |s.queue| ==> s.queue[k].request != s.worker.item.request
    ensures forall k :: 0 <= k < |s.preparing| ==> s.preparing[k].request != s.worker.item.request
  {
    hide Count;
    var r := s.worker.item.request;
    CountOne(s.worker.item, Request, r);
    assert RequestPlaces(s, r) <= 1;
    forall k | 0 <= k < |s.queue|
      ensures s.queue[k].request != r
    {
      CountAt(s.queue, k, Request);
    }
    forall k | 0 <= k < |s.preparing|
      ensures s.preparing[k].request != r
    {
      CountAt(s.preparing, k, Request);
    }
  }

  /** Only the executed request's count changes. */
  lemma ExecutedMore(s: State, r: nat)
    ensures Count(s.executed + [r], Itself, r) == Count(s.executed, Itself, r) + 1
    ensures forall x: nat {:trigger Count(s.executed + [r], Itself, x)} :: x != r ==>
              Count(s.executed + [r], Itself, x) == Count(s.executed, Itself, x)
  {
    CountLast(s.executed, r, Itself, r);
    forall x: nat | x != r
      ensures Count(s.executed + [r], Itself, x) == Count(s.executed, Itself, x)
    {
      CountLast(s.executed, r, Itself, x);
    }
  }

  /** No command ever ends with the status that asks for sense data. */
  lemma NeverNonZeroStatus(reply: Reply)
    ensures ExecuteCommand(reply) != scsiNonZeroStatus
  {
  }

  /** What becomes of a command, told by the reply: another attempt, or its completion with the code of the reply. */
  lemma ExecuteIs(s: State, reply: Reply, senseWanted: bool)
    requires s.worker.Executing?
    ensures var item, next := s.worker.item, After(s, Execute(reply, senseWanted)).worker;
            if TimesOut(reply) && item.retries < s.maxRetries then
              next == Requeueing(item.(retries := item.retries + 1))
            else next.Completing? && next.item == item && CodeIs(reply, next.result)
  {
    hide ExecuteCommand, CodeIs;
    CodeOfReply(reply);
    NeverNonZeroStatus(reply);
    CodesApart(reply, reply, ExecuteCommand(reply));
    NoErrIs(reply);
  }

  lemma NoErrIs(reply: Reply)
    ensures ExecuteCommand(reply) == noErr ==> !TimesOut(reply)
  {
  }

  lemma ExecuteKeepsCounted(s: State, reply: Reply, senseWanted: bool)
    requires Parted(s) && Counted(s) && s.worker.Executing?
    ensures Counted(After(s, Execute(reply, senseWanted)))
  {
    hide Count, ExecuteCommand, Parted;
    var t, r := After(s, Execute(reply, senseWanted)), s.worker.item.request;
    WorkerAlone(s);
    ExecutedMore(s, r);
    NeverNonZeroStatus(reply);
    assert forall k :: 0 <= k < |s.queue| ==> Tracked(s, s.queue[k]);
    assert forall k :: 0 <= k < |s.preparing| ==> Tracked(s, s.preparing[k]);
  }

  lemma StepKeepsCounted(s: State, step: Step)
    requires Parted(s) && Counted(s) && Enabled(s, step) && !step.Expire?
    ensures Counted(After(s, step))
  {
    if step.Execute? {
      ExecuteKeepsCounted(s, step.reply, step.senseWanted);
    } else {
      hide Count, ExecuteCommand, Parted;
      assert After(s, step).executed == s.executed;
    }
  }

  // ---- Whole runs -----------------------------------------------------------------------------------

  predicate NoExpiry(steps: seq<Step>) {
    forall k :: 0 <= k < |steps| ==> !steps[k].Expire?
  }

  predicate TailOnly(steps: seq<Step>) {
    forall k :: 0 <= k < |steps| ==> !(steps[k].Link? && steps[k].atHead)
  }

  lemma {:induction false} RunKeeps(s: State, steps: seq<Step>)
    requires Parted(s) && Counted(s) && NoExpiry(steps)
    ensures Parted(Run(s, steps)) && Counted(Run(s, steps))
    decreases |steps|
  {
    hide Parted, Counted, After;
    if steps != [] && Enabled(s, steps[0]) {
      StepKeepsParted(s, steps[0]);
      StepKeepsCounted(s, steps[0]);
      RunKeeps(After(s, steps[0]), steps[1..]);
    }
  }

  lemma InitiallySafe(maxRetries: nat)
    ensures Parted(Initial(maxRetries)) && Counted(Initial(maxRetries))
  {
  }

  lemma {:induction false} RunKeepsLimit(s: State, steps: seq<Step>)
    ensures Run(s, steps).maxRetries == s.maxRetries
    decreases |steps|
  {
    if steps != [] && Enabled(s, steps[0]) {
      RunKeepsLimit(After(s, steps[0]), steps[1..]);
    }
  }

  /**
   * In every interleaving without an expired timer: every entry is in exactly one place, every request issued
   * completes at most once, is sent to the bus at most 1 + maxRetries times, at least once before it completes,
   * and the worker never has to fetch sense data.
   */
  lemma EveryRunIsSafe(maxRetries: nat, steps: seq<Step>)
    requires NoExpiry(steps)
    ensures var s := Run(Initial(maxRetries), steps);
      && (forall e: nat :: EntryPlaces(s, e) == if e < s.entries then 1 else 0)
      && (forall r: nat :: Count(s.completed, Itself, r) + Count(s.refused, Itself, r) <= 1)
      && (forall r: nat :: Count(s.executed, Itself, r) <= 1 + maxRetries)
      && (forall k :: 0 <= k < |s.completed| ==> Count(s.executed, Itself, s.completed[k]) >= 1)
      && !Enabled(s, SenseDone)
  {
    hide Count, EntryPlaces, Run;
    var s := Run(Initial(maxRetries), steps);
    InitiallySafe(maxRetries);
    RunKeeps(Initial(maxRetries), steps);
    RunKeepsLimit(Initial(maxRetries), steps);
    forall r: nat
      ensures Count(s.completed, Itself, r) + Count(s.refused, Itself, r) <= 1
    {
      assert RequestPlaces(s, r) <= 1;
    }
    assert s.queue != [] ==> Tracked(s, s.queue[0]);
  }

  /** The requests in a list of items. */
  function RequestsIn(items: seq<Item>): seq<nat> {
    if items == [] then [] else [items[0].request] + RequestsIn(items[1..])
  }

  lemma {:induction false} RequestsAppend(items: seq<Item>, i: Item)
    ensures RequestsIn(items + [i]) == RequestsIn(items) + [i.request]
  {
    if items == [] {
      assert items + [i] == [i];
    } else {
      assert (items + [i])[1..] == items[1..] + [i];
      RequestsAppend(items[1..], i);
    }
  }

  /** Completed, in the worker's hands, and queued: together the requests in the order they were queued. */
  ghost predicate InOrder(s: State) {
    s.linked == s.completed + RequestsIn(Pending(s.worker) + s.queue)
  }

  lemma StepKeepsOrder(s: State, step: Step)
    requires InOrder(s) && Enabled(s, step) && !step.Expire? && !(step.Link? && step.atHead)
    ensures InOrder(After(s, step))
  {
    hide ExecuteCommand, RequestsIn, WithoutAt, AfterExecute;
    var t := After(s, step);
    if step.Link? {
      var i := s.preparing[step.k];
      RequestsAppend(Pending(s.worker) + s.queue, i);
      assert Pending(s.worker) + (s.queue + [i]) == (Pending(s.worker) + s.queue) + [i];
    } else if step.Execute? {
      StillPending(s.worker.item, ExecuteCommand(step.reply), step.senseWanted, s.maxRetries);
      SameRequests(s.worker.item, t.worker.item, s.queue);
    } else if step.Complete? {
      RequestsFirst(s.worker.item, s.queue);
      assert [] + s.queue == s.queue;
    } else if step.Allocate? {
    } else {
      assert Pending(t.worker) + t.queue == Pending(s.worker) + s.queue;
    }
  }

  lemma StillPending(item: Item, result: OSErr, senseWanted: bool, maxRetries: nat)
    ensures var w := AfterExecute(item, result, senseWanted, maxRetries);
            !w.Waiting? && !w.Releasing? && w.item.request == item.request
  {
  }

  lemma RequestsFirst(i: Item, rest: seq<Item>)
    ensures RequestsIn([i] + rest) == [i.request] + RequestsIn(rest)
  {
    assert ([i] + rest)[1..] == rest;
  }

  lemma SameRequests(i: Item, j: Item, rest: seq<Item>)
    requires i.request == j.request
    ensures RequestsIn([i] + rest) == RequestsIn([j] + rest)
  {
    RequestsFirst(i, rest);
    RequestsFirst(j, rest);
  }

  lemma {:induction false} RunKeepsOrder(s: State, steps: seq<Step>)
    requires InOrder(s) && NoExpiry(steps) && TailOnly(steps)
    ensures InOrder(Run(s, steps))
    decreases |steps|
  {
    hide InOrder, After;
    if steps != [] && Enabled(s, steps[0]) {
      StepKeepsOrder(s, steps[0]);
      RunKeepsOrder(After(s, steps[0]), steps[1..]);
    }
  }

  /** Requests complete in the order they were queued, however often they are retried. */
  lemma FirstInFirstOut(maxRetries: nat, steps: seq<Step>)
    requires NoExpiry(steps) && TailOnly(steps)
    ensures var s := Run(Initial(maxRetries), steps); s.completed <= s.linked
  {
    RunKeepsOrder(Initial(maxRetries), steps);
  }

  /** One expired timer is enough to complete a request twice. */
  lemma ExpiredTwice(maxRetries: nat)
    ensures var s := Run(Initial(maxRetries),
                         [Allocate(true), Link(0, false), Expire, Execute(Answer(noErr), false), Complete]);
            s.completed == [0, 0]
  {
    var s1 := After(Initial(maxRetries), Allocate(true));
    var s2 := After(s1, Link(0, false));
    var s3 := After(s2, Expire);
    var s4 := After(s3, Execute(Answer(noErr), false));
    var s5 := After(s4, Complete);
    assert s5.completed == [0, 0];
    OneStep(s4, [Complete]);
    OneStep(s3, [Execute(Answer(noErr), false), Complete]);
    OneStep(s2, [Expire, Execute(Answer(noErr), false), Complete]);
    OneStep(s1, [Link(0, false), Expire, Execute(Answer(noErr), false), Complete]);
    OneStep(Initial(maxRetries), [Allocate(true), Link(0, false), Expire, Execute(Answer(noErr), false), Complete]);
  }

  lemma OneStep(s: State, steps: seq<Step>)
    requires steps != [] && Enabled(s, steps[0])
    ensures Run(s, steps) == Run(After(s, steps[0]), steps[1..])
  {
  }

  // ---- Progress -----------------------------------------------------------------------------------

  function RetriesLeft(s: State, i: Item): nat {
    if i.retries < s.maxRetries then s.maxRetries - i.retries else 0
  }

  function QueueWork(s: State, items: seq<Item>): nat {
    if items == [] then 0 else 3 * RetriesLeft(s, items[0]) + 5 + QueueWork(s, items[1..])
  }

  /** An upper bound on the worker's steps, were nothing more to be queued. */
  function Work(s: State): nat {
    QueueWork(s, s.queue)
    + match s.worker
      case Waiting => 0
      case Executing(i) => 3 * RetriesLeft(s, i) + 4
      case Requeueing(i) => 3 * RetriesLeft(s, i) + 6
      case Completing(_, _) => 2
      case Releasing(_) => 1
  }

  lemma {:induction false} SameQueueWork(s: State, t: State, items: seq<Item>)
    requires s.maxRetries == t.maxRetries
    ensures QueueWork(s, items) == QueueWork(t, items)
  {
    if items != [] {
      SameQueueWork(s, t, items[1..]);
    }
  }

  /** Every step of the worker leaves it less to do: retrying at the head cannot go on for ever. */
  lemma WorkerProgresses(s: State, step: Step)
    requires Enabled(s, step) && !step.Allocate? && !step.Link?
    ensures Work(After(s, step)) < Work(s)
  {
    hide ExecuteCommand;
    var t := After(s, step);
    SameQueueWork(s, t, t.queue);
    if step.Requeue? {
      assert t.queue[1..] == s.queue;
    } else if step.Execute? {
      NeverNonZeroStatus(step.reply);
    }
  }
}
