/** The linked lists of the SCSI manager: queue entries linked into the request queue and the free list in place. */
module ScsiLists {
  import opened Words
  import opened ScsiQueue

  class IOQueueEntry {
    var next: IOQueueEntry?
    var ioPtr: nat              // the request
    var ioStat: IOStat
    var retryCount: nat

    constructor ()
      ensures next == null && ioPtr == 0 && ioStat == Idle && retryCount == 0
    {
      next, ioPtr, ioStat, retryCount := null, 0, Idle, 0;
    }
  }

  /** The entry at a place, or null past the end. */
  ghost function EntryAt(list: seq<IOQueueEntry>, k: nat): IOQueueEntry? {
    if k < |list| then list[k] else null
  }

  /** The entries of `list`, linked in this order from `head`. */
  ghost predicate Linked(head: IOQueueEntry?, list: seq<IOQueueEntry>)
    reads list`next
  {
    && head == EntryAt(list, 0)
    && forall k :: 0 <= k < |list| ==> list[k].next == EntryAt(list, k + 1)
  }

  ghost predicate Distinct(list: seq<IOQueueEntry>) {
    forall j, k :: 0 <= j < k < |list| ==> list[j] != list[k]
  }

  lemma LinkedEnds(head: IOQueueEntry?, list: seq<IOQueueEntry>)
    requires Linked(head, list)
    ensures head == null <==> list == []
    ensures list != [] ==> head == list[0] && Linked(head.next, list[1..])
  {
    var rest := if list == [] then [] else list[1..];
    forall k | 0 <= k < |rest|
      ensures rest[k].next == EntryAt(rest, k + 1)
    {
      assert rest[k] == list[k + 1];
    }
  }

  lemma LinkedAt(head: IOQueueEntry?, list: seq<IOQueueEntry>, k: nat)
    requires Linked(head, list) && k < |list|
    ensures list[k].next == EntryAt(list, k + 1)
  {
  }

  lemma LinkedPush(entry: IOQueueEntry, list: seq<IOQueueEntry>)
    requires Linked(entry.next, list)
    ensures Linked(entry, [entry] + list)
  {
    var all := [entry] + list;
    forall k | 0 <= k < |all|
      ensures all[k].next == EntryAt(all, k + 1)
    {
      assert k > 0 ==> all[k] == list[k - 1];
    }
  }

  lemma DistinctPush(entry: IOQueueEntry, list: seq<IOQueueEntry>)
    requires Distinct(list) && entry !in list
    ensures Distinct([entry] + list) && Distinct(list + [entry])
  {
  }

  lemma DistinctRest(list: seq<IOQueueEntry>)
    requires Distinct(list) && list != []
    ensures Distinct(list[1..]) && list[0] !in list[1..]
  {
  }

  lemma DistinctWithout(list: seq<IOQueueEntry>, k: nat)
    requires Distinct(list) && k < |list|
    ensures Distinct(WithoutAt(list, k)) && list[k] !in WithoutAt(list, k)
    ensures forall e :: e in WithoutAt(list, k) ==> e in list
  {
  }

  /** How the bus answers a request at its n-th attempt, counted from 0. */
  type Bus = (nat, nat) -> Reply

  /** What a request ends with, `retries` retries having been used: only time-outs are retried. */
  function Final(bus: Bus, request: nat, retries: nat, maxRetries: nat): OSErr
    decreases if retries < maxRetries then maxRetries - retries else 0
  {
    var result := ExecuteCommand(bus(request, retries));
    if retries < maxRetries && (result == scsiSelectTimeout || result == scsiCommandTimeout) then
      Final(bus, request, retries + 1, maxRetries)
    else result
  }

  /** The attempts that are made at a request, `retries` retries having been used. */
  ghost function Sends(bus: Bus, request: nat, retries: nat, maxRetries: nat): seq<(nat, nat)>
    decreases if retries < maxRetries then maxRetries - retries else 0
  {
    var result := ExecuteCommand(bus(request, retries));
    [(request, retries)]
    + if retries < maxRetries && (result == scsiSelectTimeout || result == scsiCommandTimeout) then
        Sends(bus, request, retries + 1, maxRetries)
      else []
  }

  lemma FinalStep(bus: Bus, request: nat, retries: nat, maxRetries: nat)
    ensures var result := ExecuteCommand(bus(request, retries));
      var again := retries < maxRetries && (result == scsiSelectTimeout || result == scsiCommandTimeout);
      && Final(bus, request, retries, maxRetries)
         == (if again then Final(bus, request, retries + 1, maxRetries) else result)
      && Sends(bus, request, retries, maxRetries)
         == [(request, retries)] + if again then Sends(bus, request, retries + 1, maxRetries) else []
  {
  }

  /** The completions of a list of requests, each with the retries it has used. */
  function Finals(bus: Bus, pending: seq<(nat, nat)>, maxRetries: nat): (r: seq<(nat, OSErr)>)
    ensures |r| == |pending|
  {
    if pending == [] then []
    else [(pending[0].0, Final(bus, pending[0].0, pending[0].1, maxRetries))] + Finals(bus, pending[1..], maxRetries)
  }

  /** All attempts at a list of requests. */
  ghost function AllSends(bus: Bus, pending: seq<(nat, nat)>, maxRetries: nat): seq<(nat, nat)> {
    if pending == [] then []
    else Sends(bus, pending[0].0, pending[0].1, maxRetries) + AllSends(bus, pending[1..], maxRetries)
  }

  /** All completions and attempts, those made and those to come. */
  ghost function Account(bus: Bus, done: seq<(nat, OSErr)>, made: seq<(nat, nat)>, pending: seq<(nat, nat)>,
                         maxRetries: nat): (seq<(nat, OSErr)>, seq<(nat, nat)>)
  {
    (done + Finals(bus, pending, maxRetries), made + AllSends(bus, pending, maxRetries))
  }

  /** One attempt at the first of the pending requests changes nothing about them. */
  lemma TurnStep(bus: Bus, request: nat, retries: nat, rest: seq<(nat, nat)>, maxRetries: nat,
                 done: seq<(nat, OSErr)>, made: seq<(nat, nat)>)
    ensures var result := ExecuteCommand(bus(request, retries));
            var again := retries < maxRetries && (result == scsiSelectTimeout || result == scsiCommandTimeout);
            Account(bus, done, made, [(request, retries)] + rest, maxRetries)
            == Account(bus, done + if again then [] else [(request, result)], made + [(request, retries)],
                       if again then [(request, retries + 1)] + rest else rest, maxRetries)
  {
    hide ExecuteCommand, Final, Sends, Finals, AllSends;
    FinalStep(bus, request, retries, maxRetries);
    FirstPending(bus, request, retries, rest, maxRetries);
    var result := ExecuteCommand(bus(request, retries));
    if retries < maxRetries && (result == scsiSelectTimeout || result == scsiCommandTimeout) {
      FirstPending(bus, request, retries + 1, rest, maxRetries);
      assert done + [] == done;
      Regroup(made, [(request, retries)], Sends(bus, request, retries + 1, maxRetries), AllSends(bus, rest, maxRetries));
    } else {
      Regroup(done, [(request, result)], [], Finals(bus, rest, maxRetries));
      Regroup(made, [(request, retries)], [], AllSends(bus, rest, maxRetries));
    }
  }

  lemma FirstPending(bus: Bus, request: nat, retries: nat, rest: seq<(nat, nat)>, maxRetries: nat)
    ensures var pending := [(request, retries)] + rest;
            && Finals(bus, pending, maxRetries)
               == [(request, Final(bus, request, retries, maxRetries))] + Finals(bus, rest, maxRetries)
            && AllSends(bus, pending, maxRetries)
               == Sends(bus, request, retries, maxRetries) + AllSends(bus, rest, maxRetries)
  {
    hide Final, Sends;
    assert ([(request, retries)] + rest)[1..] == rest;
  }

  lemma Regroup<T>(a: seq<T>, b: seq<T>, c: seq<T>, d: seq<T>)
    ensures a + ((b + c) + d) == a + b + (c + d)
    ensures c == [] ==> c + d == d && a + (b + d) == a + b + d
  {
  }

  /**
   * The attempts at a request end with attempt `last`: all before it timed out while retries were left, and it did not,
   * or no retry is left.
   */
  ghost predicate LastAttempt(bus: Bus, request: nat, first: nat, maxRetries: nat, last: nat) {
    && first <= last
    && (forall n :: first <= n < last ==> n < maxRetries && TimesOut(bus(request, n)))
    && !(last < maxRetries && TimesOut(bus(request, last)))
  }

  /** A request ends with the code of the answer to its last attempt. */
  ghost predicate EndsRight(bus: Bus, request: nat, first: nat, maxRetries: nat, code: OSErr) {
    exists last: nat :: LastAttempt(bus, request, first, maxRetries, last) && CodeIs(bus(request, last), code)
  }

  lemma {:induction false} FinalIsRight(bus: Bus, request: nat, first: nat, maxRetries: nat) returns (last: nat)
    ensures LastAttempt(bus, request, first, maxRetries, last)
    ensures CodeIs(bus(request, last), Final(bus, request, first, maxRetries))
    ensures |Sends(bus, request, first, maxRetries)| == last + 1 - first
    ensures forall k :: 0 <= k <= last - first ==> Sends(bus, request, first, maxRetries)[k] == (request, first + k)
    decreases if first < maxRetries then maxRetries - first else 0
  {
    hide ExecuteCommand, CodeIs, Final, Sends;
    CodeOfReply(bus(request, first));
    FinalStep(bus, request, first, maxRetries);
    if first < maxRetries && TimesOut(bus(request, first)) {
      last := FinalIsRight(bus, request, first + 1, maxRetries);
      forall n | first <= n < last
        ensures n < maxRetries && TimesOut(bus(request, n))
      {
        assert n > first ==> TimesOut(bus(request, n));
      }
    } else {
      last := first;
    }
  }

  lemma LastIsOne(bus: Bus, request: nat, first: nat, maxRetries: nat, x: nat, y: nat)
    requires LastAttempt(bus, request, first, maxRetries, x) && LastAttempt(bus, request, first, maxRetries, y)
    ensures x == y
  {
    var early, late := TimesOut(bus(request, x)), TimesOut(bus(request, y));
  }

  /** A request completes with noErr exactly if one of its attempts was answered with noErr. */
  lemma SuccessIs(bus: Bus, request: nat, first: nat, maxRetries: nat, last: nat, code: OSErr)
    requires LastAttempt(bus, request, first, maxRetries, last) && EndsRight(bus, request, first, maxRetries, code)
    ensures CodeIs(bus(request, last), code)
    ensures code == 0 <==> exists n: nat :: first <= n <= last && bus(request, n) == Answer(0)
  {
    hide CodeIs;
    var x: nat :| LastAttempt(bus, request, first, maxRetries, x) && CodeIs(bus(request, x), code);
    LastIsOne(bus, request, first, maxRetries, x, last);
    CodesApart(bus(request, last), bus(request, last), code);
    if exists n: nat :: first <= n <= last && bus(request, n) == Answer(0) {
      var n: nat :| first <= n <= last && bus(request, n) == Answer(0);
      assert n == last || TimesOut(bus(request, n));
    }
  }

  /** The attempts at a request are those from its first to its last, in order. */
  lemma SendsAre(bus: Bus, request: nat, first: nat, maxRetries: nat, last: nat)
    requires LastAttempt(bus, request, first, maxRetries, last)
    ensures |Sends(bus, request, first, maxRetries)| == last + 1 - first
    ensures forall k :: 0 <= k <= last - first ==> Sends(bus, request, first, maxRetries)[k] == (request, first + k)
  {
    hide Sends, CodeIs, LastAttempt;
    var x := FinalIsRight(bus, request, first, maxRetries);
    LastIsOne(bus, request, first, maxRetries, x, last);
  }

  lemma {:induction false} FinalsAreRight(bus: Bus, pending: seq<(nat, nat)>, maxRetries: nat)
    ensures forall k :: 0 <= k < |pending| ==>
              && Finals(bus, pending, maxRetries)[k].0 == pending[k].0
              && EndsRight(bus, pending[k].0, pending[k].1, maxRetries, Finals(bus, pending, maxRetries)[k].1)
    decreases |pending|
  {
    hide Final, EndsRight;
    if pending != [] {
      FinalEnds(bus, pending[0].0, pending[0].1, maxRetries);
      FinalsAreRight(bus, pending[1..], maxRetries);
      assert forall k :: 0 < k < |pending| ==> pending[k] == pending[1..][k - 1];
    }
  }

  lemma FinalEnds(bus: Bus, request: nat, first: nat, maxRetries: nat)
    ensures EndsRight(bus, request, first, maxRetries, Final(bus, request, first, maxRetries))
  {
    hide Final, CodeIs, LastAttempt, Sends;
    var last := FinalIsRight(bus, request, first, maxRetries);
  }

  /** The requests in a list of entries, with the retries each has used. */
  ghost function PendingIn(list: seq<IOQueueEntry>): (r: seq<(nat, nat)>)
    reads list`ioPtr, list`retryCount
    ensures |r| == |list| && forall k :: 0 <= k < |r| ==> r[k] == (list[k].ioPtr, list[k].retryCount)
  {
    if list == [] then [] else [(list[0].ioPtr, list[0].retryCount)] + PendingIn(list[1..])
  }

  lemma PendingPush(entry: IOQueueEntry, list: seq<IOQueueEntry>)
    ensures PendingIn([entry] + list) == [(entry.ioPtr, entry.retryCount)] + PendingIn(list)
  {
    assert ([entry] + list)[1..] == list;
  }

  lemma NothingPending(bus: Bus, list: seq<IOQueueEntry>, maxRetries: nat)
    ensures list == [] ==>
              Finals(bus, PendingIn(list), maxRetries) == [] && AllSends(bus, PendingIn(list), maxRetries) == []
  {
  }

  class SCSIManager {
    var ioQueue: IOQueueEntry?
    var freeQueue: IOQueueEntry?
    var successfulCommands: nat
    var retriedCommands: nat
    var failedCommands: nat
    var completions: seq<(nat, OSErr)>   // the completion routines called, with their results
    ghost var sent: seq<(nat, nat)>      // the attempts made: each request with the number of the attempt
    ghost var queued: seq<IOQueueEntry>
    ghost var free: seq<IOQueueEntry>

    ghost predicate Valid()
      reads this`ioQueue, this`freeQueue, this`queued, this`free, queued`next, free`next
    {
      && Linked(ioQueue, queued) && Linked(freeQueue, free)
      && Distinct(queued) && Distinct(free)
      && forall e :: e in queued ==> e !in free
    }

    constructor ()
      ensures Valid() && queued == [] && free == []
    {
      ioQueue, freeQueue, queued, free := null, null, [], [];
      successfulCommands, retriedCommands, failedCommands, completions, sent := 0, 0, 0, [], [];
    }

    /** AllocateQueueEntry: the first free entry, or a new one if there is memory; either way it comes back cleared. */
    method AllocateQueueEntry(room: bool) returns (entry: IOQueueEntry?)
      requires Valid()
      modifies this`freeQueue, this`free, free
      ensures Valid() && queued == old(queued)
      ensures entry == null <==> old(free) == [] && !room
      ensures free == if old(free) == [] then [] else old(free)[1..]
      ensures entry != null ==> entry !in queued && entry !in free
      ensures entry != null ==> entry.next == null && entry.ioPtr == 0 && entry.ioStat == Idle && entry.retryCount == 0
      ensures old(free) != [] ==> entry == old(free)[0]
      ensures old(free) == [] && entry != null ==> fresh(entry)
    {
      hide Linked, Distinct;
      entry := freeQueue;
      LinkedEnds(freeQueue, free);
      if entry != null {
        DistinctRest(free);
        assert entry in free;
        freeQueue := entry.next;
        entry.next, entry.ioPtr, entry.ioStat, entry.retryCount := null, 0, Idle, 0;
        free := free[1..];
      } else if room {
        entry := new IOQueueEntry();
        assert entry !in queued && entry !in free;
      }
    }

    /** FreeQueueEntry. */
    method FreeQueueEntry(entry: IOQueueEntry)
      requires Valid() && entry !in queued && entry !in free
      modifies this`freeQueue, this`free, entry`next
      ensures Valid() && free == [entry] + old(free)
    {
      hide Linked, Distinct;
      entry.next := freeQueue;
      freeQueue := entry;
      LinkedPush(entry, free);
      DistinctPush(entry, free);
      free := [entry] + free;
    }

    /** The linking half of EnqueueIO: at the head, or after a walk to the tail. */
    method LinkEntry(entry: IOQueueEntry, atHead: bool)
      requires Valid() && entry !in queued && entry !in free && entry.next == null
      modifies this`ioQueue, this`queued, queued`next, entry`next
      ensures Valid() && queued == if atHead then [entry] + old(queued) else old(queued) + [entry]
    {
      hide Linked, Distinct;
      DistinctPush(entry, queued);
      LinkedEnds(ioQueue, queued);
      if atHead {
        entry.next := ioQueue;
        ioQueue := entry;
        LinkedPush(entry, queued);
        queued := [entry] + queued;
      } else if ioQueue == null {
        ioQueue := entry;
        LinkedOne(entry);
        assert queued + [entry] == [entry];
        queued := queued + [entry];
      } else {
        var tail := FindTail();
        AppendLinked(tail, entry);
      }
    }

    /** The walk to the tail. */
    method FindTail() returns (tail: IOQueueEntry)
      requires Valid() && ioQueue != null
      ensures queued != [] && tail == queued[|queued| - 1]
    {
      hide Linked, Distinct;
      LinkedEnds(ioQueue, queued);
      tail := ioQueue;
      ghost var k := 0;
      LinkedAt(ioQueue, queued, 0);
      while tail.next != null
        invariant k < |queued| && tail == queued[k]
        invariant tail.next == EntryAt(queued, k + 1)
        decreases |queued| - k
      {
        tail := tail.next;
        k := k + 1;
        LinkedAt(ioQueue, queued, k);
      }
    }

    method AppendLinked(tail: IOQueueEntry, entry: IOQueueEntry)
      requires Valid() && entry !in queued && entry !in free && entry.next == null
      requires queued != [] && tail == queued[|queued| - 1]
      modifies this`queued, tail`next
      ensures Valid() && queued == old(queued) + [entry]
    {
      hide Linked, Distinct;
      ghost var before := queued;
      LinkedFacts(ioQueue, before);
      DistinctFrom(before, |before| - 1);
      DistinctPush(entry, before);
      assert tail in queued;
      tail.next := entry;
      queued := queued + [entry];
      LinkedAfterAppend(ioQueue, before, entry);
    }

    /** DequeueIO: the entry leaves the queue wherever it stands; an entry that is not queued changes nothing. */
    method DequeueIO(entry: IOQueueEntry)
      requires Valid()
      modifies this`ioQueue, this`queued, queued`next
      ensures Valid()
      ensures entry !in queued
      ensures entry !in old(queued) ==> queued == old(queued)
      ensures forall k :: 0 <= k < |old(queued)| && old(queued)[k] == entry ==> queued == WithoutAt(old(queued), k)
    {
      hide Linked, Distinct;
      LinkedEnds(ioQueue, queued);
      if ioQueue == entry {
        Unlink(null, entry, 0);
      } else {
        var prev := ioQueue;
        ghost var k := 0;
        while prev != null && prev.next != entry
          invariant Valid() && queued == old(queued) && k <= |queued| && prev == EntryAt(queued, k)
          invariant forall j :: 0 <= j <= k && j < |queued| ==> queued[j] != entry
          decreases |queued| - k
        {
          LinkedAt(ioQueue, queued, k);
          prev := prev.next;
          k := k + 1;
        }
        if prev != null {
          LinkedAt(ioQueue, queued, k);
          assert prev in queued;
          Unlink(prev, entry, k + 1);
        }
      }
    }

    /**
     * EnqueueIO: a cleared entry with the request goes to the end asked for; without an entry the request is
     * refused.
     */
    method EnqueueIO(request: nat, atHead: bool, room: bool) returns (entry: IOQueueEntry?)
      requires Valid()
      modifies this`ioQueue, this`freeQueue, this`queued, this`free, this`completions, queued`next, free
      ensures Valid()
      ensures entry == null <==> old(free) == [] && !room
      ensures entry == null ==> queued == old(queued) && completions == old(completions) + [(request, memFullErr)]
      ensures entry != null ==> completions == old(completions) && entry !in old(queued)
      ensures entry != null ==> queued == if atHead then [entry] + old(queued) else old(queued) + [entry]
      ensures entry != null ==> entry.ioPtr == request && entry.ioStat == Idle && entry.retryCount == 0
    {
      hide Linked, Distinct;
      entry := AllocateQueueEntry(room);
      if entry == null {
        completions := completions + [(request, memFullErr)];
        return;
      }
      entry.ioPtr, entry.ioStat, entry.retryCount := request, Idle, 0;
      LinkEntry(entry, atHead);
    }

    /** The worker takes the head off the queue. */
    method TakeHead() returns (entry: IOQueueEntry)
      requires Valid() && ioQueue != null
      modifies this`ioQueue, this`queued, queued`next
      ensures Valid() && [entry] + queued == old(queued) && entry !in queued && entry !in free
    {
      LinkedEnds(ioQueue, queued);
      entry := ioQueue;
      assert entry in queued;
      Unlink(null, entry, 0);
    }

    /** CompleteIO on an entry the worker holds: one completion routine is called, and the entry is freed. */
    method CompleteIO(entry: IOQueueEntry, result: OSErr)
      requires Valid() && entry !in queued && entry !in free
      modifies this, entry`next, queued`next
      ensures Valid() && queued == old(queued) && free == [entry] + old(free)
      ensures completions == old(completions) + [(entry.ioPtr, result)] && sent == old(sent)
      ensures successfulCommands
           == if result == noErr then U32(old(successfulCommands) + 1) else old(successfulCommands)
      ensures failedCommands == if result == noErr then old(failedCommands) else U32(old(failedCommands) + 1)
      ensures retriedCommands == if entry.retryCount > 0 then U32(old(retriedCommands) + 1) else old(retriedCommands)
    {
      hide Linked, Distinct, U32;
      if result == noErr {
        successfulCommands := U32(successfulCommands + 1);
      } else {
        failedCommands := U32(failedCommands + 1);
      }
      if entry.retryCount > 0 {
        retriedCommands := U32(retriedCommands + 1);
      }
      DequeueIO(entry);
      completions := completions + [(entry.ioPtr, result)];
      FreeQueueEntry(entry);
    }

    /**
     * ProcessIOQueue, with nothing submitted meanwhile and no timer expired: the queue is emptied from the head, and
     * each request completes once, in turn, with what its last attempt gave. Retries go back to the head. Results
     * never ask for sense data (NeverNonZeroStatus), so that branch of the source is not here.
     */
    method ProcessIOQueue(bus: Bus, maxRetries: nat)
      requires Valid() && forall e :: e in queued ==> e.ioStat == Idle
      modifies this, queued`next, queued`retryCount
      ensures Valid() && queued == []
      ensures completions == old(completions) + Finals(bus, old(PendingIn(queued)), maxRetries)
      ensures sent == old(sent) + AllSends(bus, old(PendingIn(queued)), maxRetries)
      ensures |completions| == |old(completions)| + |old(queued)|
      ensures forall k :: 0 <= k < |old(queued)| ==>
                && completions[|old(completions)| + k].0 == old(queued[k].ioPtr)
                && EndsRight(bus, old(queued[k].ioPtr), old(queued[k].retryCount), maxRetries,
                             completions[|old(completions)| + k].1)
    {
      hide Linked, Distinct, Final, ExecuteCommand, Sends, EndsRight, Finals, AllSends, PendingIn;
      LinkedEnds(ioQueue, queued);
      while ioQueue != null
        invariant Valid() && ioQueue == EntryAt(queued, 0)
        invariant forall k :: 0 <= k < |queued| ==> queued[k] in old(queued)
        invariant forall k :: 0 <= k < |queued| ==> queued[k].ioStat == Idle
        invariant Account(bus, completions, sent, PendingIn(queued), maxRetries)
               == old(Account(bus, completions, sent, PendingIn(queued), maxRetries))
        decreases |queued|,
                  if queued == [] || queued[0].retryCount > maxRetries then 0 else maxRetries - queued[0].retryCount
      {
        var again := ExecuteHead(bus, maxRetries);
        LinkedEnds(ioQueue, queued);
      }
      NothingPending(bus, queued, maxRetries);
      FinalsAreRight(bus, old(PendingIn(queued)), maxRetries);
    }

    /**
     * One turn of the loop: the head is executed and either leaves the queue for good or goes back with one more
     * retry.
     */
    method ExecuteHead(bus: Bus, maxRetries: nat) returns (again: bool)
      requires Valid() && ioQueue != null && ioQueue.ioStat == Idle
      modifies this, queued`next, queued`retryCount
      ensures Valid() && old(queued) != []
      ensures again ==> queued == old(queued) && old(queued[0].retryCount) < queued[0].retryCount <= maxRetries
      ensures !again ==> queued == old(queued)[1..]
      ensures Account(bus, completions, sent, PendingIn(queued), maxRetries)
           == old(Account(bus, completions, sent, PendingIn(queued), maxRetries))
    {
      hide Linked, Distinct, ExecuteCommand, Account, PendingIn, Valid;
      ghost var before, pending, done, made := queued, PendingIn(queued), completions, sent;
      var entry := TakeHead();
      ghost var rest, request, retries, more := queued, entry.ioPtr, entry.retryCount, PendingIn(queued);
      assert entry in old(queued) && forall k :: 0 <= k < |queued| ==> queued[k] in old(queued);
      assert before == [entry] + rest;
      PendingPush(entry, rest);
      assert pending == [(request, retries)] + more;
      TurnStep(bus, request, retries, more, maxRetries, done, made);
      again := Attempt(entry, bus, maxRetries);
      PendingPush(entry, rest);
      assert PendingIn(queued) == if again then [(request, retries + 1)] + more else more;
    }

    /** An attempt at the request of an entry that the worker holds: it completes, or goes back with one more retry. */
    method Attempt(entry: IOQueueEntry, bus: Bus, maxRetries: nat) returns (again: bool)
      requires Valid() && entry !in queued && entry !in free
      modifies this, entry`next, entry`retryCount, queued`next
      ensures Valid() && sent == old(sent) + [(entry.ioPtr, old(entry.retryCount))]
      ensures var result := ExecuteCommand(bus(entry.ioPtr, old(entry.retryCount)));
              && again == (old(entry.retryCount) < maxRetries
                           && (result == scsiSelectTimeout || result == scsiCommandTimeout))
              && queued == (if again then [entry] + old(queued) else old(queued))
              && entry.retryCount == old(entry.retryCount) + (if again then 1 else 0)
              && completions == old(completions) + if again then [] else [(entry.ioPtr, result)]
    {
      hide Linked, Distinct, ExecuteCommand, Valid;
      var result := ExecuteCommand(bus(entry.ioPtr, entry.retryCount));
      sent := sent + [(entry.ioPtr, entry.retryCount)];
      again := entry.retryCount < maxRetries && (result == scsiSelectTimeout || result == scsiCommandTimeout);
      if again {
        entry.retryCount := entry.retryCount + 1;
        entry.next := null;
        LinkEntry(entry, true);
      } else {
        CompleteIO(entry, result);
      }
    }

    /** The relinking of DequeueIO and of ProcessIOQueue: `prev` is the entry before, if there is one. */
    method Unlink(prev: IOQueueEntry?, entry: IOQueueEntry, ghost k: nat)
      requires Valid() && k < |queued| && queued[k] == entry
      requires if k == 0 then prev == null else prev == queued[k - 1]
      modifies this`ioQueue, this`queued, queued`next
      ensures Valid() && queued == WithoutAt(old(queued), k) && entry !in queued
      ensures forall j :: 0 <= j < |old(queued)| && old(queued)[j] == entry ==> j == k
    {
      hide Linked, Distinct, WithoutAt;
      ghost var before := queued;
      LinkedFacts(ioQueue, before);
      DistinctFrom(before, k);
      if k > 0 {
        DistinctFrom(before, k - 1);
      }
      DistinctWithout(before, k);
      assert prev != null ==> prev in queued;
      if prev == null {
        ioQueue := entry.next;
      } else {
        prev.next := entry.next;
      }
      queued := WithoutAt(queued, k);
      LinkedAfterUnlink(ioQueue, before, k);
    }
  }

  lemma LinkedFacts(head: IOQueueEntry?, list: seq<IOQueueEntry>)
    requires Linked(head, list)
    ensures head == EntryAt(list, 0)
    ensures forall k :: 0 <= k < |list| ==> list[k].next == EntryAt(list, k + 1)
  {
  }

  lemma DistinctFrom(list: seq<IOQueueEntry>, k: nat)
    requires Distinct(list) && k < |list|
    ensures forall j :: 0 <= j < |list| && j != k ==> list[j] != list[k]
  {
  }

  lemma LinkedAfterAppend(head: IOQueueEntry?, before: seq<IOQueueEntry>, entry: IOQueueEntry)
    requires before != [] && head == before[0] && entry.next == null && before[|before| - 1].next == entry
    requires forall k :: 0 <= k < |before| - 1 ==> before[k].next == EntryAt(before, k + 1)
    ensures Linked(head, before + [entry])
  {
    var list := before + [entry];
    forall k | 0 <= k < |list|
      ensures list[k].next == EntryAt(list, k + 1)
    {
      assert k < |before| ==> list[k] == before[k];
    }
  }

  lemma LinkedAfterUnlink(head: IOQueueEntry?, before: seq<IOQueueEntry>, k: nat)
    requires k < |before| && head == EntryAt(before, if k == 0 then 1 else 0)
    requires forall j :: 0 <= j < |before| ==> before[j].next == EntryAt(before, if j + 1 == k then k + 1 else j + 1)
    ensures Linked(head, WithoutAt(before, k))
  {
    var list := WithoutAt(before, k);
    forall j | 0 <= j < |list|
      ensures list[j].next == EntryAt(list, j + 1)
    {
      var from := if j < k then j else j + 1;
      assert list[j] == before[from];
    }
  }

  lemma LinkedOne(entry: IOQueueEntry)
    requires entry.next == null
    ensures Linked(entry, [entry])
  {
  }
}
