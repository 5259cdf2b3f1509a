/// The low-stack debounce table of the task registry's base scan: slots found,
/// claimed, updated and swept in place once per scan.
module LowStack {
  import opened Wrappers

  const TICK_MODULUS: nat := 0x1_0000_0000
  const SWEEP_GRACE: nat := 1

  /// A live task in one scan; handle 0 is NULL.
  datatype Row = Row(handle: nat, freeBytes: nat)

  datatype Slot = Slot(handle: nat, inUse: bool, low: bool, seenTick: nat)

  const EMPTY := Slot(0, false, false, 0)

  // --- the table as a value --------------------------------------------------------

  predicate Holds(s: Slot, handle: nat) {
    s.inUse && s.handle == handle
  }

  function FindHandle(slots: seq<Slot>, handle: nat): (r: Option<nat>)
    ensures r.Some? ==> r.value < |slots| && Holds(slots[r.value], handle)
    ensures r.Some? ==> forall i :: 0 <= i < r.value ==> !Holds(slots[i], handle)
    ensures r.None? ==> forall i :: 0 <= i < |slots| ==> !Holds(slots[i], handle)
  {
    if slots == [] then None
    else if Holds(slots[0], handle) then Some(0)
    else
      match FindHandle(slots[1..], handle)
      case None => None
      case Some(i) => Some(i + 1)
  }

  function FindFree(slots: seq<Slot>): (r: Option<nat>)
    ensures r.Some? ==> r.value < |slots| && !slots[r.value].inUse
    ensures r.Some? ==> forall i :: 0 <= i < r.value ==> slots[i].inUse
    ensures r.None? ==> forall i :: 0 <= i < |slots| ==> slots[i].inUse
  {
    if slots == [] then None
    else if !slots[0].inUse then Some(0)
    else
      match FindFree(slots[1..])
      case None => None
      case Some(i) => Some(i + 1)
  }

  /// low_state_mark: the slot of the handle, claimed if need be, and the table.
  function Marked(slots: seq<Slot>, handle: nat, tick: nat): (r: (seq<Slot>, Option<nat>))
    ensures |r.0| == |slots|
    ensures r.1.Some? ==> r.1.value < |slots|
  {
    match FindHandle(slots, handle)
    case Some(i) => (slots[i := slots[i].(seenTick := tick)], Some(i))
    case None =>
      match FindFree(slots)
      case Some(i) => (slots[i := Slot(handle, true, false, tick)], Some(i))
      case None => (slots, None)
  }

  /// Unsigned 32-bit subtraction.
  function TicksSince(tick: nat, seen: nat): nat {
    (tick - seen) % TICK_MODULUS
  }

  predicate Stale(s: Slot, tick: nat) {
    s.inUse && s.seenTick != tick && TicksSince(tick, s.seenTick) > SWEEP_GRACE
  }

  function Swept(slots: seq<Slot>, tick: nat): (r: seq<Slot>)
    ensures |r| == |slots|
    ensures forall i :: 0 <= i < |slots| ==> r[i] == if Stale(slots[i], tick) then EMPTY else slots[i]
  {
    seq(|slots|, i requires 0 <= i < |slots| => if Stale(slots[i], tick) then EMPTY else slots[i])
  }

  /// One row: the table afterwards, and whether the handler is called.
  function RowStep(slots: seq<Slot>, row: Row, tick: nat, threshold: nat): (r: (seq<Slot>, bool))
    ensures |r.0| == |slots|
  {
    if row.handle == 0 then (slots, false)
    else
      var isLow := row.freeBytes < threshold;
      var (marked, at) := Marked(slots, row.handle, tick);
      match at
      case None => (marked, false)
      case Some(i) => (marked[i := marked[i].(low := isLow)], isLow && !marked[i].low)
  }

  /// The first j rows: the table, and the handler calls made.
  function AfterRows(slots: seq<Slot>, rows: seq<Row>, j: nat, tick: nat, threshold: nat): (r: (seq<Slot>, seq<Row>))
    requires j <= |rows|
    ensures |r.0| == |slots|
  {
    if j == 0 then (slots, [])
    else
      var (before, calls) := AfterRows(slots, rows, j - 1, tick, threshold);
      var (after, fires) := RowStep(before, rows[j - 1], tick, threshold);
      (after, if fires then calls + [rows[j - 1]] else calls)
  }

  /// One scan: the table it leaves, and the rows it hands to the handler.
  function Scanned(slots: seq<Slot>, rows: seq<Row>, tick: nat, threshold: nat): (r: (seq<Slot>, seq<Row>))
    ensures |r.0| == |slots|
  {
    var (after, calls) := AfterRows(slots, rows, |rows|, tick, threshold);
    (Swept(after, tick), calls)
  }

  // --- the table in place ------------------------------------------------------------

  class LowStackTable {
    const slots: array<Slot>
    var threshold: Option<nat>

    constructor (capacity: nat)
      ensures fresh(slots) && slots.Length == capacity && threshold == None
      ensures forall i :: 0 <= i < capacity ==> slots[i] == EMPTY
    {
      slots := new Slot[capacity](_ => EMPTY);
      threshold := None;
    }

    method SetHandler(bytes: Option<nat>)
      modifies this`threshold
      ensures threshold == bytes
    {
      threshold := bytes;
    }

    method Mark(handle: nat, tick: nat) returns (at: Option<nat>)
      modifies slots
      ensures (slots[..], at) == Marked(old(slots[..]), handle, tick)
    {
      ghost var before := slots[..];
      for i := 0 to slots.Length
        invariant slots[..] == before
        invariant forall j :: 0 <= j < i ==> !Holds(slots[j], handle)
      {
        if slots[i].inUse && slots[i].handle == handle {
          assert FindHandle(before, handle) == Some(i);
          slots[i] := slots[i].(seenTick := tick);
          return Some(i);
        }
      }
      assert FindHandle(before, handle) == None;
      for i := 0 to slots.Length
        invariant slots[..] == before
        invariant forall j :: 0 <= j < i ==> slots[j].inUse
      {
        if !slots[i].inUse {
          assert FindFree(before) == Some(i);
          slots[i] := Slot(handle, true, false, tick);
          return Some(i);
        }
      }
      return None;
    }

    method Sweep(tick: nat)
      modifies slots
      ensures slots[..] == Swept(old(slots[..]), tick)
    {
      ghost var before := slots[..];
      for i := 0 to slots.Length
        invariant forall j :: 0 <= j < i ==> slots[j] == Swept(before, tick)[j]
        invariant forall j :: i <= j < slots.Length ==> slots[j] == before[j]
      {
        if slots[i].inUse && slots[i].seenTick != tick && TicksSince(tick, slots[i].seenTick) > SWEEP_GRACE {
          slots[i] := EMPTY;
        }
      }
    }

    method MarkRow(row: Row, tick: nat, limit: nat) returns (fires: bool)
      modifies slots
      ensures (slots[..], fires) == RowStep(old(slots[..]), row, tick, limit)
    {
      if row.handle == 0 {
        return false;
      }
      var isLow := row.freeBytes < limit;
      var at := Mark(row.handle, tick);
      if at.None? {
        return false;
      }
      fires := isLow && !slots[at.value].low;
      slots[at.value] := slots[at.value].(low := isLow);
    }

    /// The low-stack part of bb_task_registry_base_scan_apply; calls are the rows
    /// handed to the handler, in order.
    method Scan(rows: seq<Row>, tick: nat) returns (calls: seq<Row>)
      modifies slots
      ensures threshold.None? ==> slots[..] == old(slots[..]) && calls == []
      ensures threshold.Some? ==> (slots[..], calls) == Scanned(old(slots[..]), rows, tick, threshold.value)
    {
      calls := [];
      if threshold.None? {
        return;
      }
      ghost var before := slots[..];
      for j := 0 to |rows|
        invariant (slots[..], calls) == AfterRows(before, rows, j, tick, threshold.value)
      {
        var fires := MarkRow(rows[j], tick, threshold.value);
        if fires {
          calls := calls + [rows[j]];
        }
      }
      Sweep(tick);
    }
  }

  // --- one handle's part of the table ---------------------------------------------------

  predicate DistinctHandles(slots: seq<Slot>) {
    forall i, j :: 0 <= i < j < |slots| && slots[i].inUse && slots[j].inUse ==> slots[i].handle != slots[j].handle
  }

  /// What the table remembers of a handle: its last sample and the tick of it.
  function Track(slots: seq<Slot>, handle: nat): Option<(bool, nat)> {
    match FindHandle(slots, handle)
    case None => None
    case Some(i) => Some((slots[i].low, slots[i].seenTick))
  }

  lemma TrackAt(slots: seq<Slot>, i: nat)
    requires DistinctHandles(slots) && i < |slots| && slots[i].inUse
    ensures FindHandle(slots, slots[i].handle) == Some(i)
  {
    var found := FindHandle(slots, slots[i].handle);
    assert found.Some?;
  }

  /// Rewriting one slot without moving handles leaves the other handles alone.
  lemma OtherSlotsStay(slots: seq<Slot>, i: nat, s: Slot, other: nat)
    requires DistinctHandles(slots) && i < |slots| && DistinctHandles(slots[i := s])
    requires s.inUse && other != s.handle && !Holds(slots[i], other)
    ensures Track(slots[i := s], other) == Track(slots, other)
  {
    var after := slots[i := s];
    match FindHandle(slots, other) {
      case Some(k) => assert after[k] == slots[k]; TrackAt(after, k);
      case None =>
    }
  }

  predicate HasRoom(slots: seq<Slot>, handle: nat) {
    FindHandle(slots, handle).Some? || FindFree(slots).Some?
  }

  /// What one row does: its own handle's sample is recorded, and fires on a change
  /// from not-low (or unknown) to low; no other handle is touched.
  lemma RowEffect(slots: seq<Slot>, row: Row, tick: nat, threshold: nat, handle: nat)
    requires DistinctHandles(slots) && handle != 0
    ensures var (after, fires) := RowStep(slots, row, tick, threshold);
            && DistinctHandles(after)
            && (row.handle == handle && HasRoom(slots, handle) ==>
                  && Track(after, handle) == Some((row.freeBytes < threshold, tick))
                  && (fires <==> row.freeBytes < threshold && !(Track(slots, handle).Some? && Track(slots, handle).value.0)))
            && (row.handle != handle ==> Track(after, handle) == Track(slots, handle))
  {
    if row.handle != 0 && HasRoom(slots, row.handle) {
      var isLow := row.freeBytes < threshold;
      var found := FindHandle(slots, row.handle);
      var i := if found.Some? then found.value else FindFree(slots).value;
      var after := RowStep(slots, row, tick, threshold).0;
      var s := Slot(row.handle, true, isLow, tick);
      assert after == slots[i := s];
      if found.Some? {
        forall j | 0 <= j < |slots| && j != i && slots[j].inUse
          ensures slots[j].handle != row.handle
        {
        }
      }
      assert DistinctHandles(after);
      TrackAt(after, i);
      if row.handle != handle {
        OtherSlotsStay(slots, i, s, handle);
      }
    }
  }

  lemma SweepEffect(slots: seq<Slot>, tick: nat, handle: nat)
    requires DistinctHandles(slots)
    ensures DistinctHandles(Swept(slots, tick))
    ensures Track(Swept(slots, tick), handle) ==
            match Track(slots, handle)
            case None => None
            case Some((low, seen)) =>
              if seen != tick && TicksSince(tick, seen) > SWEEP_GRACE then None else Some((low, seen))
  {
    var after := Swept(slots, tick);
    match FindHandle(slots, handle) {
      case None =>
      case Some(i) =>
        if Stale(slots[i], tick) {
          forall k | 0 <= k < |after|
            ensures !Holds(after[k], handle)
          {
            if k != i && after[k].inUse {
              assert after[k] == slots[k];
              TrackAt(slots, i);
              assert slots[k].handle != handle;
            }
          }
        } else {
          TrackAt(after, i);
        }
    }
  }
}
