/** The linked lists of the SCSI manager do the steps of the state machine: entry `n` of one is the n-th allocated. */
module ScsiRefinement {
  import opened Words
  import opened ScsiQueue
  import opened ScsiLists

  /** `list` are the members of `pool` with these numbers. */
  ghost predicate Names(pool: seq<IOQueueEntry>, list: seq<IOQueueEntry>, numbers: seq<nat>) {
    |list| == |numbers| && forall k :: 0 <= k < |list| ==> numbers[k] < |pool| && list[k] == pool[numbers[k]]
  }

  ghost function Numbers(items: seq<Item>): (r: seq<nat>)
    ensures |r| == |items| && forall k :: 0 <= k < |r| ==> r[k] == items[k].entry
  {
    seq(|items|, k requires 0 <= k < |items| => items[k].entry)
  }

  /** What the machine knows of an entry is what stands in it. */
  ghost predicate Holds(entry: IOQueueEntry, item: Item)
    reads entry`ioPtr, entry`retryCount, entry`ioStat
  {
    entry.ioPtr == item.request && entry.retryCount == item.retries && entry.ioStat == item.stat
  }

  ghost predicate HoldsAll(list: seq<IOQueueEntry>, items: seq<Item>)
    reads list`ioPtr, list`retryCount, list`ioStat
  {
    |list| == |items| && forall k :: 0 <= k < |list| ==> Holds(list[k], items[k])
  }

  /** The lists are the machine's queue and free list; `pool` are the entries allocated so far. */
  ghost predicate Represents(m: SCSIManager, pool: seq<IOQueueEntry>, s: State)
    reads m, m.queued, m.free
  {
    && m.Valid() && Distinct(pool) && |pool| == s.entries
    && Names(pool, m.queued, Numbers(s.queue)) && HoldsAll(m.queued, s.queue)
    && Names(pool, m.free, s.free)
  }

  /** An entry in the hands of a submitter or of the worker. */
  ghost predicate InHand(pool: seq<IOQueueEntry>, entry: IOQueueEntry, item: Item)
    reads entry
  {
    item.entry < |pool| && entry == pool[item.entry] && Holds(entry, item)
  }

  // ---- Who has an entry in hand has it alone ------------------------------------------------------

  lemma {:induction false} CountIn<T>(s: seq<T>, f: T -> nat, k: nat)
    requires k < |s|
    ensures Count(s, f, f(s[k])) >= 1
  {
    if k > 0 {
      CountIn(s[1..], f, k - 1);
    }
  }

  /** The number of an item in hand is in neither list. */
  lemma AloneInHand(s: State, item: Item)
    requires Parted(s) && (item in s.preparing || item in Held(s.worker))
    ensures item.entry !in Numbers(s.queue) && item.entry !in s.free && item.entry < s.entries
  {
    hide Count;
    var e := item.entry;
    if item in s.preparing {
      var k :| 0 <= k < |s.preparing| && s.preparing[k] == item;
      CountIn(s.preparing, Entry, k);
    } else {
      CountIn(Held(s.worker), Entry, 0);
    }
    assert EntryPlaces(s, e) == if e < s.entries then 1 else 0;
    if e in Numbers(s.queue) {
      var k :| 0 <= k < |s.queue| && s.queue[k].entry == e;
      CountIn(s.queue, Entry, k);
    }
    if e in s.free {
      var k :| 0 <= k < |s.free| && s.free[k] == e;
      CountIn(s.free, Itself, k);
    }
  }

  lemma NotNamed(pool: seq<IOQueueEntry>, list: seq<IOQueueEntry>, numbers: seq<nat>, n: nat)
    requires Names(pool, list, numbers) && Distinct(pool) && n < |pool| && n !in numbers
    ensures pool[n] !in list
  {
    forall k | 0 <= k < |list|
      ensures list[k] != pool[n]
    {
      assert numbers[k] in numbers;
    }
  }

  /** So the entry itself is in neither list either. */
  lemma InHandIsOut(m: SCSIManager, pool: seq<IOQueueEntry>, s: State, entry: IOQueueEntry, item: Item)
    requires Represents(m, pool, s) && Parted(s) && InHand(pool, entry, item)
    requires item in s.preparing || item in Held(s.worker)
    ensures entry !in m.queued && entry !in m.free
  {
    hide Parted, Names, HoldsAll, Distinct, Numbers, Holds;
    AloneInHand(s, item);
    NotNamed(pool, m.queued, Numbers(s.queue), item.entry);
    NotNamed(pool, m.free, s.free, item.entry);
  }

  // ---- What pushing, taking and appending do to the naming -----------------------------------------

  lemma NamesGrow(pool: seq<IOQueueEntry>, entry: IOQueueEntry, list: seq<IOQueueEntry>, numbers: seq<nat>)
    requires Names(pool, list, numbers)
    ensures Names(pool + [entry], list, numbers)
  {
  }

  lemma NamesPush(pool: seq<IOQueueEntry>, list: seq<IOQueueEntry>, numbers: seq<nat>, n: nat)
    requires Names(pool, list, numbers) && n < |pool|
    ensures Names(pool, [pool[n]] + list, [n] + numbers) && Names(pool, list + [pool[n]], numbers + [n])
  {
  }

  lemma NamesRest(pool: seq<IOQueueEntry>, list: seq<IOQueueEntry>, numbers: seq<nat>)
    requires Names(pool, list, numbers) && list != []
    ensures numbers[0] < |pool| && list[0] == pool[numbers[0]] && Names(pool, list[1..], numbers[1..])
  {
  }

  lemma NumbersPush(items: seq<Item>, item: Item)
    ensures Numbers([item] + items) == [item.entry] + Numbers(items)
    ensures Numbers(items + [item]) == Numbers(items) + [item.entry]
    ensures items != [] ==> Numbers(items[1..]) == Numbers(items)[1..]
  {
  }

  lemma HoldsPush(list: seq<IOQueueEntry>, items: seq<Item>, entry: IOQueueEntry, item: Item)
    requires HoldsAll(list, items) && Holds(entry, item)
    ensures HoldsAll([entry] + list, [item] + items) && HoldsAll(list + [entry], items + [item])
  {
  }

  lemma HoldsRest(list: seq<IOQueueEntry>, items: seq<Item>)
    requires HoldsAll(list, items) && list != []
    ensures Holds(list[0], items[0]) && HoldsAll(list[1..], items[1..])
  {
  }

  // ---- The steps --------------------------------------------------------------------------------

  /** AllocateQueueEntry and the request put into the entry, as EnqueueIO does both, are an Allocate step. */
  method AllocateStep(m: SCSIManager, room: bool, ghost pool: seq<IOQueueEntry>, ghost s: State, request: nat)
    returns (entry: IOQueueEntry?, ghost grown: seq<IOQueueEntry>)
    requires Represents(m, pool, s) && request == s.requests
    modifies m`freeQueue, m`free, m.free
    ensures Represents(m, grown, After(s, Allocate(room))) && pool <= grown
    ensures entry == null ==> After(s, Allocate(room)).refused == s.refused + [request]
    ensures entry != null ==> var now := After(s, Allocate(room)).preparing;
              |now| == |s.preparing| + 1 && InHand(grown, entry, now[|s.preparing|]) && entry.next == null
  {
    hide Linked, Distinct, Names, Numbers;
    ghost var queued, free := m.queued, m.free;
    assert |free| == |s.free| by { NamesSize(pool, free, s.free); }
    entry := m.AllocateQueueEntry(room);
    grown := pool;
    if entry != null {
      entry.ioPtr := request;
      if free != [] {
        NamesRest(pool, free, s.free);
      } else {
        DistinctPush(entry, pool);
        grown := pool + [entry];
        NamesGrow(pool, entry, m.queued, Numbers(s.queue));
        NamesGrow(pool, entry, m.free, s.free);
      }
    }
    forall k | 0 <= k < |queued|
      ensures Holds(queued[k], s.queue[k])
    {
      assert queued[k] in queued && queued[k] !in free;
    }
  }

  lemma NamesSize(pool: seq<IOQueueEntry>, list: seq<IOQueueEntry>, numbers: seq<nat>)
    requires Names(pool, list, numbers)
    ensures |list| == |numbers|
  {
  }

  /** LinkEntry by a submitter is a Link step. */
  method LinkStep(m: SCSIManager, entry: IOQueueEntry, atHead: bool, ghost pool: seq<IOQueueEntry>, ghost s: State,
                  ghost k: nat)
    requires Represents(m, pool, s) && Parted(s) && k < |s.preparing|
    requires InHand(pool, entry, s.preparing[k]) && entry.next == null
    modifies m`ioQueue, m`queued, m.queued`next, entry`next
    ensures Represents(m, pool, After(s, Link(k, atHead)))
  {
    hide Linked, Distinct, Names, Numbers, Parted;
    ghost var item := s.preparing[k];
    InHandIsOut(m, pool, s, entry, item);
    PutIn(m, entry, atHead, pool, s.queue, s.free, item);
  }

  /** LinkEntry on the value of the lists. */
  method PutIn(m: SCSIManager, entry: IOQueueEntry, atHead: bool, ghost pool: seq<IOQueueEntry>,
               ghost queue: seq<Item>, ghost free: seq<nat>, ghost item: Item)
    requires m.Valid() && Names(pool, m.queued, Numbers(queue)) && HoldsAll(m.queued, queue)
    requires InHand(pool, entry, item) && entry !in m.queued && entry !in m.free && entry.next == null
    modifies m`ioQueue, m`queued, m.queued`next, entry`next
    ensures m.Valid() && m.free == old(m.free)
    ensures var now := if atHead then [item] + queue else queue + [item];
            Names(pool, m.queued, Numbers(now)) && HoldsAll(m.queued, now)
  {
    hide Linked, Distinct, Names, Numbers;
    NumbersPush(queue, item);
    NamesPush(pool, m.queued, Numbers(queue), item.entry);
    m.LinkEntry(entry, atHead);
    HoldsPush(old(m.queued), queue, entry, item);
  }

  /** The head of the queue and what is behind it. */
  lemma HeadIs(m: SCSIManager, pool: seq<IOQueueEntry>, s: State)
    requires Represents(m, pool, s) && s.queue != []
    ensures m.queued != [] && m.ioQueue == m.queued[0] && InHand(pool, m.queued[0], s.queue[0])
    ensures Names(pool, m.queued[1..], Numbers(s.queue[1..])) && HoldsAll(m.queued[1..], s.queue[1..])
  {
    hide Linked, Distinct, Names, Numbers;
    NamesSize(pool, m.queued, Numbers(s.queue));
    LinkedEnds(m.ioQueue, m.queued);
    NamesRest(pool, m.queued, Numbers(s.queue));
    NumbersPush(s.queue, s.queue[0]);
    HoldsRest(m.queued, s.queue);
  }

  /** TakeHead is a Pick step. */
  method PickStep(m: SCSIManager, ghost pool: seq<IOQueueEntry>, ghost s: State) returns (entry: IOQueueEntry)
    requires Represents(m, pool, s) && Enabled(s, Pick)
    modifies m`ioQueue, m`queued, m.queued`next
    ensures Represents(m, pool, After(s, Pick)) && InHand(pool, entry, After(s, Pick).worker.item)
    ensures old(m.queued) == [entry] + m.queued
  {
    hide Linked, Distinct, Names, Numbers, HoldsAll;
    HeadIs(m, pool, s);
    entry := m.TakeHead();
    assert entry == old(m.queued)[0] && m.queued == old(m.queued)[1..];
  }

  /** Putting the entry back at the head is a Requeue step. */
  method RequeueStep(m: SCSIManager, entry: IOQueueEntry, ghost pool: seq<IOQueueEntry>, ghost s: State)
    requires Represents(m, pool, s) && Parted(s) && Enabled(s, Requeue) && InHand(pool, entry, s.worker.item)
    modifies m`ioQueue, m`queued, m.queued`next, entry`next
    ensures Represents(m, pool, After(s, Requeue))
  {
    hide Linked, Distinct, Names, Numbers, Parted;
    ghost var item := s.worker.item;
    InHandIsOut(m, pool, s, entry, item);
    entry.next := null;
    PutIn(m, entry, true, pool, s.queue, s.free, item);
  }

  /** The end of a turn: the item goes back to the head, or its request completes and its entry is freed. */
  function Ended(s: State, again: bool): State
    requires Enabled(s, if again then Requeue else Complete)
  {
    if again then After(s, Requeue) else After(After(s, Complete), Release)
  }

  /** CompleteIO is a Complete step and then a Release step; its statistics are no part of the machine. */
  method CompleteStep(m: SCSIManager, entry: IOQueueEntry, ghost pool: seq<IOQueueEntry>, ghost s: State, result: OSErr)
    requires Represents(m, pool, s) && Parted(s) && Enabled(s, Complete) && InHand(pool, entry, s.worker.item)
    modifies m, entry`next, m.queued`next
    ensures Represents(m, pool, Ended(s, false))
    ensures m.completions == old(m.completions) + [(s.worker.item.request, result)]
    ensures Ended(s, false).completed == s.completed + [s.worker.item.request]
  {
    hide Linked, Distinct, Names, Numbers, Parted;
    ghost var item := s.worker.item;
    InHandIsOut(m, pool, s, entry, item);
    NamesPush(pool, m.free, s.free, item.entry);
    m.CompleteIO(entry, result);
  }

  /** FreeQueueEntry is a Release step. */
  method ReleaseStep(m: SCSIManager, entry: IOQueueEntry, ghost pool: seq<IOQueueEntry>, ghost s: State)
    requires Represents(m, pool, s) && Parted(s) && Enabled(s, Release) && InHand(pool, entry, s.worker.item)
    modifies m`freeQueue, m`free, entry`next
    ensures Represents(m, pool, After(s, Release))
  {
    hide Linked, Distinct, Names, Numbers, Parted;
    ghost var item := s.worker.item;
    InHandIsOut(m, pool, s, entry, item);
    NamesPush(pool, m.free, s.free, item.entry);
    m.FreeQueueEntry(entry);
  }

  /** The command is sent, and the retry counted if there is to be one: an Execute step. */
  method ExecuteStep(m: SCSIManager, entry: IOQueueEntry, reply: Reply, maxRetries: nat,
                     ghost pool: seq<IOQueueEntry>, ghost s: State)
    returns (result: OSErr, again: bool)
    requires Represents(m, pool, s) && Parted(s) && s.worker.Executing? && InHand(pool, entry, s.worker.item)
    requires maxRetries == s.maxRetries
    modifies entry`retryCount
    ensures result == ExecuteCommand(reply)
    ensures var next := After(s, Execute(reply, false));
            && Represents(m, pool, next) && InHand(pool, entry, next.worker.item)
            && (if again then next.worker.Requeueing? else next.worker == Completing(s.worker.item, result))
  {
    hide Linked, Distinct, Names, Numbers, Parted, ExecuteCommand;
    InHandIsOut(m, pool, s, entry, s.worker.item);
    result := ExecuteCommand(reply);
    again := entry.retryCount < maxRetries && (result == scsiSelectTimeout || result == scsiCommandTimeout);
    if again {
      entry.retryCount := entry.retryCount + 1;
    }
    forall k | 0 <= k < |m.queued|
      ensures Holds(m.queued[k], s.queue[k])
    {
      assert m.queued[k] in m.queued;
    }
  }

  /** What a turn of the worker's loop does, as steps of the machine. */
  function Turn(reply: Reply, again: bool): seq<Step> {
    [Pick, Execute(reply, false)] + if again then [Requeue] else [Complete, Release]
  }

  lemma RunStep(s: State, step: Step, rest: seq<Step>)
    requires Enabled(s, step)
    ensures Run(s, [step] + rest) == Run(After(s, step), rest)
  {
    hide After;
    assert ([step] + rest)[1..] == rest;
  }

  /** The steps of a turn are enabled one after the other. */
  lemma TurnRuns(s: State, reply: Reply, again: bool)
    requires Enabled(s, Pick)
    requires var done := After(After(s, Pick), Execute(reply, false)).worker;
             if again then done.Requeueing? else done.Completing?
    ensures var done := After(After(s, Pick), Execute(reply, false));
            Run(s, Turn(reply, again)) == Ended(done, again)
  {
    hide AfterExecute, ExecuteCommand;
    var last := if again then [Requeue] else [Complete] + ([Release] + []);
    assert Turn(reply, again) == [Pick] + ([Execute(reply, false)] + last);
    var picked := After(s, Pick);
    var done := After(picked, Execute(reply, false));
    RunStep(s, Pick, [Execute(reply, false)] + last);
    RunStep(picked, Execute(reply, false), last);
    if again {
      assert last == [Requeue] + [];
      RunStep(done, Requeue, []);
    } else {
      RunStep(done, Complete, [Release] + []);
      RunStep(After(done, Complete), Release, []);
    }
  }

  lemma EndedParted(s: State, again: bool)
    requires Parted(s) && Enabled(s, if again then Requeue else Complete)
    ensures Parted(Ended(s, again)) && Ended(s, again).worker == Waiting
  {
    hide Parted;
    if again {
      StepKeepsParted(s, Requeue);
    } else {
      StepKeepsParted(s, Complete);
      StepKeepsParted(After(s, Complete), Release);
    }
  }

  method FinishTurn(m: SCSIManager, entry: IOQueueEntry, result: OSErr, again: bool,
                    ghost pool: seq<IOQueueEntry>, ghost s: State)
    requires Represents(m, pool, s) && Parted(s) && Enabled(s, if again then Requeue else Complete)
    requires InHand(pool, entry, s.worker.item)
    modifies m, entry`next, m.queued`next
    ensures Represents(m, pool, Ended(s, again))
    ensures m.completions == old(m.completions) + if again then [] else [(s.worker.item.request, result)]
  {
    hide Represents, Parted, InHand;
    if again {
      RequeueStep(m, entry, pool, s);
    } else {
      CompleteStep(m, entry, pool, s, result);
    }
  }

  /**
   * One turn of the loop of ProcessIOQueue on the lists is one run of the machine from Pick to Requeue or to
   * Release, and leaves every entry and request in one place.
   */
  method WorkerTurn(m: SCSIManager, reply: Reply, maxRetries: nat, ghost pool: seq<IOQueueEntry>, ghost s: State)
    returns (again: bool)
    requires Represents(m, pool, s) && Parted(s) && Enabled(s, Pick) && maxRetries == s.maxRetries
    modifies m, m.queued`next, m.queued`retryCount
    ensures var next := Run(s, Turn(reply, again));
            Represents(m, pool, next) && Parted(next) && next.worker == Waiting
    ensures m.completions == old(m.completions) + if again then [] else [(s.queue[0].request, ExecuteCommand(reply))]
  {
    hide Represents, Parted, InHand, AfterExecute, Run, Turn;
    ghost var picked := After(s, Pick);
    ghost var done := After(picked, Execute(reply, false));
    StepKeepsParted(s, Pick);
    StepKeepsParted(picked, Execute(reply, false));
    var entry := PickStep(m, pool, s);
    assert entry in old(m.queued);
    var result;
    result, again := ExecuteStep(m, entry, reply, maxRetries, pool, picked);
    TurnRuns(s, reply, again);
    assert forall k :: 0 <= k < |m.queued| ==> m.queued[k] in old(m.queued);
    EndedParted(done, again);
    FinishTurn(m, entry, result, again, pool, done);
  }
}
