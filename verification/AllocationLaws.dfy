/** What Alloc_Blocks and Alloc_Free promise about the volume. */
module AllocationLaws {
  import opened Words
  import opened Allocation

  // ---- The free-block counter --------------------------------------------------------------

  /** A clear run is counted in full. */
  lemma RunIsCounted(bits: seq<bool>, total: nat, start: nat, count: nat)
    requires start + count <= total <= |bits|
    requires forall b :: start <= b < start + count ==> !bits[b]
    ensures count <= CountClear(bits[..total])
  {
    CountAfterTaking(bits, total, start, count);
  }

  // ---- Clear runs and the wrap-around of the search ----------------------------------------

  ghost predicate ClearRun(bits: seq<bool>, total: nat, start: nat, m: nat) {
    start + m <= total <= |bits| && forall b :: start <= b < start + m ==> !bits[b]
  }

  /** The first window in hint order starts in the tail of the volume and does not fit there. */
  ghost predicate Straddles(bits: seq<bool>, total: nat, hint: nat, m: nat)
    requires InReach(bits, total, hint)
  {
    var k := FirstWindow(bits, total, hint, m, 0);
    k != -1 && k < TailLen(total, hint) && hint + k + m > total
  }

  ghost function EffectiveHint(a: AllocMap, startHint: nat): nat
    requires WellFormed(a)
  {
    if startHint == 0 then a.ptr else startHint
  }

  /** From hint 0 the search finds the lowest clear run, and finds none only if there is none. */
  lemma LowestRun(bits: seq<bool>, total: nat, m: nat)
    requires InReach(bits, total, 0) && m > 0 && total < NO_RUN
    ensures var s := FoundRun(bits, total, 0, m);
            if s == NO_RUN then forall t: nat :: !ClearRun(bits, total, t, m)
            else ClearRun(bits, total, s, m) && forall t: nat :: t < s ==> !ClearRun(bits, total, t, m)
  {
    var k := FirstWindow(bits, total, 0, m, 0);
    forall t: nat | ClearRun(bits, total, t, m)
      ensures k != -1 && k <= t
    {
      assert ClearWindow(bits, total, 0, t, m);
    }
    if k != -1 {
      forall b | k <= b < k + m
        ensures !bits[b]
      {
        assert Visit(total, 0, b) == b;
      }
    }
  }

  /** From any hint on the volume the search finds the first clear run at the hint or after it, if there is one. */
  lemma NextRun(bits: seq<bool>, total: nat, hint: nat, m: nat, t: nat)
    requires InReach(bits, total, hint) && hint < total && m > 0
    requires hint <= t && ClearRun(bits, total, t, m)
    ensures var s := FoundRun(bits, total, hint, m);
            hint <= s <= t && ClearRun(bits, total, s, m)
  {
    RunIsWindow(bits, total, hint, m, t);
    var k := FirstWindow(bits, total, hint, m, 0);
    assert 0 <= k <= t - hint;
    forall b | hint + k <= b < hint + k + m
      ensures !bits[b]
    {
      assert Visit(total, hint, b - hint) == b;
    }
  }

  lemma RunIsWindow(bits: seq<bool>, total: nat, hint: nat, m: nat, t: nat)
    requires InReach(bits, total, hint) && hint < total
    requires hint <= t && ClearRun(bits, total, t, m)
    ensures t - hint + m <= VisitLen(total, hint) && ClearWindow(bits, total, hint, t - hint, m)
  {
    forall j | t - hint <= j < t - hint + m
      ensures !bits[Visit(total, hint, j)]
    {
      assert Visit(total, hint, j) == hint + j;
    }
  }

  /** A window that does not straddle the end of the volume is a clear run. */
  lemma WindowIsRun(bits: seq<bool>, total: nat, hint: nat, m: nat)
    requires InReach(bits, total, hint) && m > 0
    requires FirstWindow(bits, total, hint, m, 0) != -1
    ensures var k := FirstWindow(bits, total, hint, m, 0);
            !Straddles(bits, total, hint, m) ==> ClearRun(bits, total, Visit(total, hint, k), m)
  {
    var k := FirstWindow(bits, total, hint, m, 0);
    if !Straddles(bits, total, hint, m) {
      forall b | Visit(total, hint, k) <= b < Visit(total, hint, k) + m
        ensures !bits[b]
      {
        assert Visit(total, hint, k + (b - Visit(total, hint, k))) == b;
      }
    }
  }

  /** A clear run of the length asked for is recounted in full. */
  lemma {:induction false} RecountFull(bits: seq<bool>, total: nat, start: nat, m: nat, max: nat)
    requires m <= max && ClearRun(bits, total, start, m)
    ensures RunLen(bits, total, start, max) >= m
    decreases m
  {
    if m > 0 {
      assert !bits[start];
      RecountFull(bits, total, start + 1, m - 1, max - 1);
    }
  }

  // ---- The laws of one call ----------------------------------------------------------------

  /** Whatever the hint, a grant takes only clear blocks inside the volume and the counter stays exact. */
  lemma GrantIsSafe(a: AllocMap, startHint: nat, min: nat, max: nat, write: OSErr)
    requires WellFormed(a)
    requires startHint < |a.bits| || startHint == 0
    ensures var r := AllocBlocks(a, startHint, min, max, write);
            && r.after.loaded == a.loaded
            && (r.count > 0 ==> r.start + r.count <= a.total)
            && (forall b :: r.start <= b < r.start + r.count ==> !a.bits[b])
            && (write == noErr ==>
                  && r.after.bits == SetRun(a.bits, r.start, r.count, true)
                  && r.after.free == a.free - r.count
                  && (r.err != noErr ==> r.after == a))
  {
    hide ChosenStart, CountClear;
    var r := AllocBlocks(a, startHint, min, max, write);
    if r.after != a {
      TakingIsSafe(a, ChosenStart(a, startHint, min), max);
    }
  }

  /** Without a bitmap, or when it cannot be written back, the call fails; blocks it has marked stay marked. */
  lemma GrantFails(a: AllocMap, startHint: nat, min: nat, max: nat, write: OSErr)
    requires WellFormed(a) && (!a.loaded || write != noErr)
    requires startHint < |a.bits| || startHint == 0
    ensures var r := AllocBlocks(a, startHint, min, max, write);
            && r.err != noErr && r.after.loaded == a.loaded
            && forall b :: 0 <= b < |a.bits| && a.bits[b] ==> r.after.bits[b]
  {
    hide ChosenStart, CountClear;
  }

  /** A straddling window is recounted short: the grant ends with the volume. */
  lemma StraddleIsShort(bits: seq<bool>, total: nat, hint: nat, m: nat, max: nat)
    requires InReach(bits, total, hint) && m > 0 && Straddles(bits, total, hint, m)
    ensures var start := Visit(total, hint, FirstWindow(bits, total, hint, m, 0));
            RunLen(bits, total, start, max) < m
  {
  }

  /** Where there is a run, the counter says so. */
  lemma FreeForRun(a: AllocMap, min: nat)
    requires WellFormed(a)
    ensures (exists t: nat :: ClearRun(a.bits, a.total, t, min)) ==> a.free >= min
  {
    hide CountClear;
    if exists t: nat :: ClearRun(a.bits, a.total, t, min) {
      var t: nat :| ClearRun(a.bits, a.total, t, min);
      RunIsCounted(a.bits, a.total, t, min);
    }
  }

  /**
   * Exactly when Alloc_Blocks is of use. It reports a full disk only if no run of the length asked for
   * exists; it grants less than asked for exactly when the first window straddles the volume end.
   */
  lemma GrantIsFull(a: AllocMap, startHint: nat, min: nat, max: nat)
    requires WellFormed(a) && a.loaded && 0 < a.total
    requires startHint < |a.bits| || startHint == 0
    requires 0 < min <= max
    ensures var r := AllocBlocks(a, startHint, min, max, noErr);
            var wraps := Straddles(a.bits, a.total, EffectiveHint(a, startHint), min);
            && r.err in {noErr, dskFulErr}
            && (r.err == dskFulErr ==> forall t: nat :: !ClearRun(a.bits, a.total, t, min))
            && (r.err == noErr ==> (r.count < min <==> wraps))
            && ((exists t: nat :: ClearRun(a.bits, a.total, t, min)) && !wraps ==> r.err == noErr && r.count >= min)
  {
    hide CountClear, ClearWindow, SetRun, RunLen;
    var hint := EffectiveHint(a, startHint);
    var k := FirstWindow(a.bits, a.total, hint, min, 0);
    LowestRun(a.bits, a.total, min);
    FreeForRun(a, min);
    if k != -1 {
      WindowIsRun(a.bits, a.total, hint, min);
      if Straddles(a.bits, a.total, hint, min) {
        StraddleIsShort(a.bits, a.total, hint, min, max);
      } else {
        RecountFull(a.bits, a.total, Visit(a.total, hint, k), min, max);
      }
    } else if FoundRun(a.bits, a.total, 0, min) != NO_RUN {
      RecountFull(a.bits, a.total, FoundRun(a.bits, a.total, 0, min), min, max);
    }
  }

  /** Four clear blocks, two at each end of a six-block volume: asked for three from block 4 on, the code grants two. */
  lemma ShortGrantExample()
    ensures var a := AllocMap(true, [false, false, true, true, false, false, false, false], 6, 4, 0);
            && WellFormed(a)
            && Straddles(a.bits, 6, 4, 3)
            && AllocBlocks(a, 4, 3, 3, noErr).err == noErr && AllocBlocks(a, 4, 3, 3, noErr).count == 2
  {
    var bits := [false, false, true, true, false, false, false, false];
    var a := AllocMap(true, bits, 6, 4, 0);
    assert bits[..6] == [false, false, true, true, false, false];
    assert [false, false, true, true, false, false][..5] == [false, false, true, true, false];
    assert [false, false, true, true, false][..4] == [false, false, true, true];
    assert [false, false, true, true][..3] == [false, false, true];
    assert [false, false, true][..2] == [false, false];
    assert [false, false][..1] == [false];
    assert CountClear([false]) == 1;
    assert CountClear([false, false]) == 2;
    assert CountClear([false, false, true, true]) == 2;
    assert CountClear(bits[..6]) == 4;
    assert ClearWindow(bits, 6, 4, 0, 3) by {
      assert Visit(6, 4, 0) == 4 && Visit(6, 4, 1) == 5 && Visit(6, 4, 2) == 0;
    }
    assert FirstWindow(bits, 6, 4, 3, 0) == 0;
    assert RunLen(bits, 6, 6, 1) == 0;
    assert RunLen(bits, 6, 5, 2) == 1;
    assert RunLen(bits, 6, 4, 3) == 2;
  }

  /** The error of a call, in the order in which the source looks for them, and where the next search will start. */
  lemma CallOutcome(a: AllocMap, startHint: nat, min: nat, max: nat, write: OSErr)
    requires WellFormed(a) && (startHint < |a.bits| || startHint == 0)
    ensures var r := AllocBlocks(a, startHint, min, max, write);
            && (min == 0 || min > max ==> r.err == -50 && r.after == a)
            && (0 < min <= max && !a.loaded ==> r.err == -36 && r.after == a)
            && (0 < min <= max && a.loaded && a.free < min ==> r.err == -34 && r.after == a)
            && (0 < min <= max && a.loaded && a.free >= min ==>
                  if r.after == a then r.err == -34 || r.err == write
                  else r.err == write && 0 <= r.after.ptr < a.total)
            && (r.err == noErr ==>
                  r.after.ptr == if r.start + r.count >= a.total then 0 else r.start + r.count)
  {
    hide CountClear, ChosenStart, SetRun, RunLen;
  }

  /**
   * The same for freeing: whatever was clear stays so, the run is clear, and the next search starts no later than it.
   */
  lemma FreeOutcome(a: AllocMap, start: nat, count: nat, write: OSErr)
    requires WellFormed(a) && start + count < TWO_32
    ensures var r := FreeBlocks(a, start, count, write);
            && (count == 0 || start + count > a.total ==> r.err == -50 && r.after == a)
            && (0 < count && start + count <= a.total && !a.loaded ==> r.err == -36 && r.after == a)
            && (0 < count && start + count <= a.total && a.loaded ==>
                  && r.err == write && r.after.ptr == (if start < a.ptr then start else a.ptr)
                  && forall b :: 0 <= b < |a.bits| ==>
                       (r.after.bits[b] <==> a.bits[b] && !(start <= b < start + count)))
  {
    hide CountClear, CountUsed;
    if 0 < count && start + count <= a.total && a.loaded {
      U32Same(a.ptr);
      SetRunIs(a.bits, start, count);
    }
  }

  lemma SetRunIs(bits: seq<bool>, start: nat, count: nat)
    requires start + count <= |bits|
    ensures forall b :: 0 <= b < |bits| ==>
              (SetRun(bits, start, count, false)[b] <==> bits[b] && !(start <= b < start + count))
  {
  }

  /** The signed 16-bit search pointer stays usable exactly while grants end below block 32768. */
  lemma SearchPointerRange(a: AllocMap, start: nat, count: nat)
    requires start + count <= a.total <= 0xFFFF && a.total <= |a.bits|
    ensures 0 <= Taken(a, start, count).ptr <==> start + count < 0x8000
  {
  }

  /** Freeing clears exactly the run and counts exactly the blocks it cleared. */
  lemma ReleaseIsExact(a: AllocMap, start: nat, count: nat)
    requires WellFormed(a)
    requires 0 < count && start + count <= a.total
    ensures var after := Released(a, start, count);
            && WellFormed(after) && after.total == a.total && |after.bits| == |a.bits|
            && after.free == a.free + CountUsed(a.bits, start, count)
            && ((forall b :: start <= b < start + count ==> a.bits[b]) ==> after.free == a.free + count)
  {
    hide SetRun, CountClear, CountUsed;
    ReleasingIsSafe(a, start, count);
    if forall b :: start <= b < start + count ==> a.bits[b] {
      AllUsed(a.bits, start, count);
    }
  }

  lemma {:induction false} AllUsed(bits: seq<bool>, start: nat, count: nat)
    requires start + count <= |bits|
    requires forall b :: start <= b < start + count ==> bits[b]
    ensures CountUsed(bits, start, count) == count
  {
    if count > 0 {
      AllUsed(bits, start, count - 1);
    }
  }

  /** A run taken and then freed leaves the bitmap and the counter as they were. */
  lemma ReleaseUndoesTake(a: AllocMap, start: nat, max: nat)
    requires WellFormed(a) && start < a.total && RunLen(a.bits, a.total, start, max) > 0
    ensures var count := RunLen(a.bits, a.total, start, max);
            var back := Released(Taken(a, start, count), start, count);
            WellFormed(back) && back.bits == a.bits && back.free == a.free
  {
    var count := RunLen(a.bits, a.total, start, max);
    TakingIsSafe(a, start, max);
    ReleaseIsExact(Taken(a, start, count), start, count);
  }

  /** The blocks after the chosen start are clear as far as the run and the volume go. */
  lemma ChosenIsClear(a: AllocMap, startHint: nat, m: nat)
    requires WellFormed(a) && 0 < a.total && m > 0
    requires startHint < |a.bits| || startHint == 0
    requires ChosenStart(a, startHint, m) != NO_RUN
    ensures var s := ChosenStart(a, startHint, m);
            s < |a.bits| && forall b :: s <= b < s + m && b < a.total ==> !a.bits[b]
  {
    hide CountClear;
    var hint := EffectiveHint(a, startHint);
    var h := if FoundRun(a.bits, a.total, hint, m) == NO_RUN then 0 else hint;
    var s := ChosenStart(a, startHint, m);
    var k := FirstWindow(a.bits, a.total, h, m, 0);
    forall b | s <= b < s + m && b < a.total
      ensures !a.bits[b]
    {
      assert Visit(a.total, h, k + (b - s)) == b;
    }
  }

  /** When the least and the most asked for agree, the grant is the run cut off at the volume end. */
  lemma GrantLength(a: AllocMap, startHint: nat, m: nat)
    requires WellFormed(a)
    requires startHint < |a.bits| || startHint == 0
    requires AllocBlocks(a, startHint, m, m, noErr).err == noErr
    ensures var r := AllocBlocks(a, startHint, m, m, noErr);
            && r.start < |a.bits|
            && r.count == if r.start + m <= a.total then m else if r.start < a.total then a.total - r.start else 0
  {
    hide ChosenStart, CountClear, SetRun;
    var s := ChosenStart(a, startHint, m);
    ChosenIsClear(a, startHint, m);
    if s + m <= a.total {
      RecountFull(a.bits, a.total, s, m, m);
    } else if s < a.total {
      RecountFull(a.bits, a.total, s, a.total - s, m);
    }
  }
}
