/// The debounce over whole runs of scans: ticks advance by one, wrapping at 32
/// bits, the handler and its threshold stay fixed, the table starts empty.
module LowStackRuns {
  import opened Wrappers
  import opened LowStack

  datatype Run = Run(capacity: nat, firstTick: nat, threshold: nat, scans: seq<seq<Row>>)

  function TickAt(run: Run, k: nat): nat {
    (run.firstTick + k) % TICK_MODULUS
  }

  /// The table when scan k begins.
  function StartOf(run: Run, k: nat): (r: seq<Slot>)
    requires k <= |run.scans|
    ensures |r| == run.capacity
  {
    if k == 0 then seq(run.capacity, _ => EMPTY)
    else Scanned(StartOf(run, k - 1), run.scans[k - 1], TickAt(run, k - 1), run.threshold).0
  }

  /// What scan k returns: the rows it has handed to the handler.
  function CallsOf(run: Run, k: nat): seq<Row>
    requires k < |run.scans|
  {
    Scanned(StartOf(run, k), run.scans[k], TickAt(run, k), run.threshold).1
  }

  /// Those of the first j rows.
  function CallsBefore(run: Run, k: nat, j: nat): seq<Row>
    requires k < |run.scans| && j <= |run.scans[k]|
  {
    AfterRows(StartOf(run, k), run.scans[k], j, TickAt(run, k), run.threshold).1
  }

  /// The table when row j of scan k is about to be looked at.
  function StateBefore(run: Run, k: nat, j: nat): (r: seq<Slot>)
    requires k < |run.scans| && j <= |run.scans[k]|
    ensures |r| == run.capacity
  {
    AfterRows(StartOf(run, k), run.scans[k], j, TickAt(run, k), run.threshold).0
  }

  predicate IsSample(run: Run, handle: nat, k: nat, j: nat) {
    k < |run.scans| && j < |run.scans[k]| && run.scans[k][j].handle == handle
  }

  predicate Low(run: Run, k: nat, j: nat)
    requires k < |run.scans| && j < |run.scans[k]|
  {
    run.scans[k][j].freeBytes < run.threshold
  }

  /// Row j of scan k is handed to the handler, as its next call.
  predicate Fires(run: Run, k: nat, j: nat)
    requires k < |run.scans| && j < |run.scans[k]|
  {
    CallsBefore(run, k, j + 1) == CallsBefore(run, k, j) + [run.scans[k][j]]
  }

  /// A row is handed over as a change to low says, and otherwise no call is made for it.
  lemma RowCalls(run: Run, k: nat, j: nat)
    requires k < |run.scans| && j < |run.scans[k]|
    ensures Fires(run, k, j) <==> RowStep(StateBefore(run, k, j), run.scans[k][j], TickAt(run, k), run.threshold).1
    ensures !Fires(run, k, j) ==> CallsBefore(run, k, j + 1) == CallsBefore(run, k, j)
  {
    var before := CallsBefore(run, k, j);
    assert |before + [run.scans[k][j]]| != |before|;
  }

  predicate Before(a: nat, b: nat, k: nat, j: nat) {
    a < k || (a == k && b < j)
  }

  /// The handle's latest sample before row j of scan k.
  function LastSample(run: Run, handle: nat, k: nat, j: nat): (r: Option<(nat, nat)>)
    requires k < |run.scans| && j <= |run.scans[k]|
    ensures r.Some? ==> IsSample(run, handle, r.value.0, r.value.1) && Before(r.value.0, r.value.1, k, j)
    ensures r.Some? ==> forall a: nat, b: nat :: IsSample(run, handle, a, b) && Before(a, b, k, j) ==>
                          (a, b) == r.value || Before(a, b, r.value.0, r.value.1)
    ensures r.None? ==> forall a: nat, b: nat :: IsSample(run, handle, a, b) ==> !Before(a, b, k, j)
    decreases k, j
  {
    if j > 0 then
      if run.scans[k][j - 1].handle == handle then Some((k, j - 1)) else LastSample(run, handle, k, j - 1)
    else if k > 0 then LastSample(run, handle, k - 1, |run.scans[k - 1]|)
    else None
  }

  /// The handle always finds a slot.
  ghost predicate NeverRefused(run: Run, handle: nat) {
    forall k: nat, j: nat :: IsSample(run, handle, k, j) ==> HasRoom(StateBefore(run, k, j), handle)
  }

  /// What the table should remember: the latest sample, unless two scans in a row
  /// have missed the handle since.
  function Remembered(run: Run, handle: nat, k: nat, j: nat): Option<(bool, nat)>
    requires k < |run.scans| && j <= |run.scans[k]|
  {
    match LastSample(run, handle, k, j)
    case None => None
    case Some((a, b)) => if k - a <= 2 then Some((Low(run, a, b), TickAt(run, a))) else None
  }

  lemma TicksApart(run: Run, a: nat, k: nat)
    requires a <= k <= a + 2
    ensures TicksSince(TickAt(run, k), TickAt(run, a)) == k - a
    ensures TickAt(run, k) == TickAt(run, a) <==> k == a
  {
    var t := run.firstTick + a;
    var q, r := t / TICK_MODULUS, t % TICK_MODULUS;
    assert t == q * TICK_MODULUS + r;
    var d := k - a;
    if r + d < TICK_MODULUS {
      assert TickAt(run, k) == r + d;
    } else {
      assert TickAt(run, k) == r + d - TICK_MODULUS;
    }
  }

  lemma SweepForgets(run: Run, handle: nat, k: nat)
    requires k + 1 < |run.scans|
    requires DistinctHandles(StateBefore(run, k, |run.scans[k]|))
    requires Track(StateBefore(run, k, |run.scans[k]|), handle) == Remembered(run, handle, k, |run.scans[k]|)
    ensures DistinctHandles(StateBefore(run, k + 1, 0))
    ensures Track(StateBefore(run, k + 1, 0), handle) == Remembered(run, handle, k + 1, 0)
  {
    SweepEffect(StateBefore(run, k, |run.scans[k]|), TickAt(run, k), handle);
    assert StateBefore(run, k + 1, 0) == StartOf(run, k + 1);
    match LastSample(run, handle, k, |run.scans[k]|) {
      case None =>
      case Some((a, b)) =>
        if k - a <= 2 {
          TicksApart(run, a, k);
        }
    }
  }

  lemma RowRemembers(run: Run, handle: nat, k: nat, j: nat)
    requires k < |run.scans| && j < |run.scans[k]| && handle != 0
    requires DistinctHandles(StateBefore(run, k, j))
    requires run.scans[k][j].handle == handle ==> HasRoom(StateBefore(run, k, j), handle)
    requires Track(StateBefore(run, k, j), handle) == Remembered(run, handle, k, j)
    ensures DistinctHandles(StateBefore(run, k, j + 1))
    ensures Track(StateBefore(run, k, j + 1), handle) == Remembered(run, handle, k, j + 1)
  {
    RowEffect(StateBefore(run, k, j), run.scans[k][j], TickAt(run, k), run.threshold, handle);
  }

  lemma RowFindsRoom(run: Run, handle: nat, k: nat, j: nat)
    requires k < |run.scans| && j < |run.scans[k]| && NeverRefused(run, handle)
    ensures run.scans[k][j].handle == handle ==> HasRoom(StateBefore(run, k, j), handle)
  {
    assert run.scans[k][j].handle == handle ==> IsSample(run, handle, k, j);
  }

  /// At every point of a run the table remembers exactly the latest sample of the
  /// handle, whatever the other handles do.
  lemma {:induction false} TableRemembers(run: Run, handle: nat, k: nat, j: nat)
    requires k < |run.scans| && j <= |run.scans[k]| && handle != 0 && NeverRefused(run, handle)
    ensures DistinctHandles(StateBefore(run, k, j))
    ensures Track(StateBefore(run, k, j), handle) == Remembered(run, handle, k, j)
    decreases k, j
  {
    if j > 0 {
      TableRemembers(run, handle, k, j - 1);
      RowFindsRoom(run, handle, k, j - 1);
      RowRemembers(run, handle, k, j - 1);
    } else if k > 0 {
      TableRemembers(run, handle, k - 1, |run.scans[k - 1]|);
      SweepForgets(run, handle, k - 1);
    } else {
      EmptyRemembers(run, handle);
    }
  }

  lemma EmptyRemembers(run: Run, handle: nat)
    requires 0 < |run.scans|
    ensures DistinctHandles(StateBefore(run, 0, 0))
    ensures Track(StateBefore(run, 0, 0), handle) == Remembered(run, handle, 0, 0) == None
  {
    assert StateBefore(run, 0, 0) == StartOf(run, 0);
  }

  /// The sample is low and opens a run of low samples: there is no earlier sample, or the
  /// latest one was not low, or two scans in a row have missed the handle since.  One missed
  /// scan changes nothing.
  predicate OpensLowRun(run: Run, k: nat, j: nat)
    requires k < |run.scans| && j < |run.scans[k]|
  {
    Low(run, k, j) &&
    match LastSample(run, run.scans[k][j].handle, k, j)
    case None => true
    case Some((a, b)) => k - a > 2 || !Low(run, a, b)
  }

  /// The handler is called for a sample exactly when it opens a run of low samples.
  lemma FiresOncePerLowRun(run: Run, handle: nat, k: nat, j: nat)
    requires IsSample(run, handle, k, j) && handle != 0 && NeverRefused(run, handle)
    ensures Fires(run, k, j) <==> OpensLowRun(run, k, j)
  {
    TableRemembers(run, handle, k, j);
    RowCalls(run, k, j);
    RowEffect(StateBefore(run, k, j), run.scans[k][j], TickAt(run, k), run.threshold, handle);
  }

  /// Two low samples with nothing in between to break the run: only the first of
  /// the two can have fired.
  lemma QuietWithinRun(run: Run, handle: nat, a: nat, b: nat, k: nat, j: nat)
    requires IsSample(run, handle, a, b) && IsSample(run, handle, k, j) && Before(a, b, k, j)
    requires handle != 0 && NeverRefused(run, handle)
    requires forall c: nat, d: nat :: IsSample(run, handle, c, d) && !Before(c, d, a, b) && Before(c, d, k, j) ==> Low(run, c, d)
    requires forall c: nat, d: nat :: IsSample(run, handle, c, d) && Before(a, b, c, d) && !Before(k, j, c, d) ==>
               exists e: nat, f: nat :: IsSample(run, handle, e, f) && !Before(e, f, a, b) && Before(e, f, c, d) && c - e <= 2
    ensures !Fires(run, k, j)
  {
    FiresOncePerLowRun(run, handle, k, j);
    var e: nat, f: nat :| IsSample(run, handle, e, f) && !Before(e, f, a, b) && Before(e, f, k, j) && k - e <= 2;
    var last := LastSample(run, handle, k, j).value;
    assert (e, f) == last || Before(e, f, last.0, last.1);
  }

  // --- the calls a scan returns -------------------------------------------------------------

  predicate Ascending(at: seq<nat>) {
    forall i, j :: 0 <= i < j < |at| ==> at[i] < at[j]
  }

  /// The rows at the given positions, in order.
  predicate AreRowsAt(calls: seq<Row>, rows: seq<Row>, at: seq<nat>) {
    |calls| == |at| && forall i :: 0 <= i < |at| ==> at[i] < |rows| && calls[i] == rows[at[i]]
  }

  lemma NoCallsYet(run: Run, k: nat)
    requires k < |run.scans|
    ensures CallsBefore(run, k, 0) == []
  {}

  lemma AscendingSnoc(at: seq<nat>, n: nat)
    requires Ascending(at) && forall j :: j in at ==> j < n
    ensures Ascending(at + [n])
  {
    forall i | 0 <= i < |at| ensures at[i] < n {
      assert at[i] in at;
    }
  }

  lemma RowsAtSnoc(calls: seq<Row>, rows: seq<Row>, at: seq<nat>, n: nat)
    requires AreRowsAt(calls, rows, at) && n < |rows|
    ensures AreRowsAt(calls + [rows[n]], rows, at + [n])
  {}

  lemma {:induction false} CallsBeforeAt(run: Run, k: nat, n: nat) returns (at: seq<nat>)
    requires k < |run.scans| && n <= |run.scans[k]|
    ensures Ascending(at) && AreRowsAt(CallsBefore(run, k, n), run.scans[k], at)
    ensures forall j: nat :: j in at <==> j < n && Fires(run, k, j)
  {
    if n == 0 {
      NoCallsYet(run, k);
      at := [];
    } else {
      at := CallsBeforeAt(run, k, n - 1);
      RowCalls(run, k, n - 1);
      hide Ascending, AreRowsAt, CallsBefore, RowStep;
      if Fires(run, k, n - 1) {
        AscendingSnoc(at, n - 1);
        RowsAtSnoc(CallsBefore(run, k, n - 1), run.scans[k], at, n - 1);
        at := at + [n - 1];
      }
    }
  }

  lemma StrangersNeverFire(run: Run, k: nat, j: nat)
    requires k < |run.scans| && j < |run.scans[k]|
    requires run.scans[k][j].handle == 0 || !HasRoom(StateBefore(run, k, j), run.scans[k][j].handle)
    ensures !Fires(run, k, j)
  {
    RowCalls(run, k, j);
  }

  /// What a scan returns: the rows that open a low run, in row order and each once.  Handle 0
  /// and handles without a slot are never handed over.
  lemma ScanReturnsOpeners(run: Run, k: nat) returns (at: seq<nat>)
    requires k < |run.scans|
    ensures Ascending(at) && AreRowsAt(CallsOf(run, k), run.scans[k], at)
    ensures forall j: nat :: j in at ==> run.scans[k][j].handle != 0 && HasRoom(StateBefore(run, k, j), run.scans[k][j].handle)
    ensures forall j: nat :: j < |run.scans[k]| && run.scans[k][j].handle != 0 && NeverRefused(run, run.scans[k][j].handle) ==>
              (j in at <==> OpensLowRun(run, k, j))
  {
    at := CallsBeforeAt(run, k, |run.scans[k]|);
    forall j: nat | j in at
      ensures run.scans[k][j].handle != 0 && HasRoom(StateBefore(run, k, j), run.scans[k][j].handle)
    {
      if run.scans[k][j].handle == 0 || !HasRoom(StateBefore(run, k, j), run.scans[k][j].handle) {
        StrangersNeverFire(run, k, j);
      }
    }
    forall j: nat | j < |run.scans[k]| && run.scans[k][j].handle != 0 && NeverRefused(run, run.scans[k][j].handle)
      ensures Fires(run, k, j) <==> OpensLowRun(run, k, j)
    {
      FiresOncePerLowRun(run, run.scans[k][j].handle, k, j);
    }
  }

  // --- when there is always room ---------------------------------------------------------

  /// The handles seen in scan k and the two before it.
  function RecentHandles(run: Run, k: nat): set<nat>
    requires k < |run.scans|
  {
    set a, b | 0 <= a < |run.scans| && k - 2 <= a <= k && 0 <= b < |run.scans[a]| :: run.scans[a][b].handle
  }

  /// A used slot holds a handle sampled at its tick, at most two scans ago.
  ghost predicate SlotRecent(run: Run, s: Slot, k: nat, j: nat) {
    s.inUse ==> exists a: nat, b: nat ::
        IsSample(run, s.handle, a, b) && Before(a, b, k, j) && k - a <= 2 && s.seenTick == TickAt(run, a)
  }

  ghost predicate SlotsRecent(run: Run, slots: seq<Slot>, k: nat, j: nat) {
    forall i :: 0 <= i < |slots| ==> SlotRecent(run, slots[i], k, j)
  }

  lemma RowKeepsRecent(run: Run, k: nat, j: nat)
    requires k < |run.scans| && j < |run.scans[k]|
    requires SlotsRecent(run, StateBefore(run, k, j), k, j)
    ensures SlotsRecent(run, StateBefore(run, k, j + 1), k, j + 1)
  {
    var slots, after := StateBefore(run, k, j), StateBefore(run, k, j + 1);
    forall i | 0 <= i < |after|
      ensures SlotRecent(run, after[i], k, j + 1)
    {
      assert SlotRecent(run, slots[i], k, j);
      if after[i] == slots[i] && slots[i].inUse {
        var a: nat, b: nat :| IsSample(run, slots[i].handle, a, b) && Before(a, b, k, j) && k - a <= 2
                              && slots[i].seenTick == TickAt(run, a);
        assert Before(a, b, k, j + 1);
      } else if after[i].inUse {
        assert IsSample(run, after[i].handle, k, j) && Before(k, j, k, j + 1);
      }
    }
  }

  lemma SweepKeepsRecent(run: Run, k: nat)
    requires k + 1 < |run.scans|
    requires SlotsRecent(run, StateBefore(run, k, |run.scans[k]|), k, |run.scans[k]|)
    ensures SlotsRecent(run, StateBefore(run, k + 1, 0), k + 1, 0)
  {
    var slots, after := StateBefore(run, k, |run.scans[k]|), StateBefore(run, k + 1, 0);
    assert after == StartOf(run, k + 1) == Swept(slots, TickAt(run, k));
    forall i | 0 <= i < |after|
      ensures SlotRecent(run, after[i], k + 1, 0)
    {
      assert SlotRecent(run, slots[i], k, |run.scans[k]|);
      if after[i].inUse {
        var a: nat, b: nat :| IsSample(run, slots[i].handle, a, b) && Before(a, b, k, |run.scans[k]|) && k - a <= 2
                              && slots[i].seenTick == TickAt(run, a);
        TicksApart(run, a, k);
        assert Before(a, b, k + 1, 0);
      }
    }
  }

  lemma {:induction false} UsedSlotsAreRecent(run: Run, k: nat, j: nat)
    requires k < |run.scans| && j <= |run.scans[k]|
    ensures SlotsRecent(run, StateBefore(run, k, j), k, j)
    decreases k, j
  {
    if j > 0 {
      UsedSlotsAreRecent(run, k, j - 1);
      RowKeepsRecent(run, k, j - 1);
    } else if k > 0 {
      UsedSlotsAreRecent(run, k - 1, |run.scans[k - 1]|);
      SweepKeepsRecent(run, k - 1);
    }
  }

  lemma {:induction false} AlwaysDistinct(run: Run, k: nat, j: nat)
    requires k < |run.scans| && j <= |run.scans[k]|
    ensures DistinctHandles(StateBefore(run, k, j))
    decreases k, j
  {
    if j > 0 {
      AlwaysDistinct(run, k, j - 1);
      RowEffect(StateBefore(run, k, j - 1), run.scans[k][j - 1], TickAt(run, k), run.threshold, 1);
    } else if k > 0 {
      AlwaysDistinct(run, k - 1, |run.scans[k - 1]|);
      SweepEffect(StateBefore(run, k - 1, |run.scans[k - 1]|), TickAt(run, k - 1), 1);
    }
  }

  /// A full table holds as many handles as it has slots.
  lemma {:induction false} FullTableCounts(slots: seq<Slot>, handles: set<nat>)
    requires DistinctHandles(slots)
    requires forall i :: 0 <= i < |slots| ==> slots[i].inUse && slots[i].handle in handles
    ensures |slots| <= |handles|
  {
    if slots != [] {
      var last := slots[|slots| - 1];
      FullTableCounts(slots[..|slots| - 1], handles - {last.handle});
    }
  }

  /// The table never refuses anyone as long as no three consecutive scans show more
  /// distinct handles than it has slots.
  lemma RoomForRecentHandles(run: Run, handle: nat)
    requires forall k: nat :: k < |run.scans| ==> |RecentHandles(run, k)| <= run.capacity
    ensures NeverRefused(run, handle)
  {
    forall k: nat, j: nat | IsSample(run, handle, k, j)
      ensures HasRoom(StateBefore(run, k, j), handle)
    {
      RoomAt(run, handle, k, j);
    }
  }

  lemma RoomAt(run: Run, handle: nat, k: nat, j: nat)
    requires IsSample(run, handle, k, j) && |RecentHandles(run, k)| <= run.capacity
    ensures HasRoom(StateBefore(run, k, j), handle)
  {
    var slots := StateBefore(run, k, j);
    UsedSlotsAreRecent(run, k, j);
    AlwaysDistinct(run, k, j);
    assert handle in RecentHandles(run, k);
    if !HasRoom(slots, handle) {
      forall i | 0 <= i < |slots|
        ensures slots[i].inUse && slots[i].handle in RecentHandles(run, k) - {handle}
      {
        assert SlotRecent(run, slots[i], k, j) && !Holds(slots[i], handle);
      }
      FullTableCounts(slots, RecentHandles(run, k) - {handle});
    }
  }
}
