/**
 * Start times for the checks of trackers that ask for a gap between them, and the
 * queue their topics wait in.
 */
module CheckSpacing {
  import opened Common

  /** One tracker: the earliest next slot, and when a check last really started. */
  datatype Pace = Pace(next: Option<int>, started: Option<int>)

  /** How long until a check may start; 0 means it starts now. */
  function ClaimWait(p: Pace, spacing: int, now: int): int {
    if p.started.Some? && p.started.value + spacing - now > 0 then p.started.value + spacing - now else 0
  }

  function Claimed(p: Pace, spacing: int, now: int): Pace {
    if ClaimWait(p, spacing, now) == 0 then p.(started := Some(now)) else p
  }

  function Slot(p: Pace, now: int): int {
    if p.next.Some? && p.next.value > now then p.next.value else now
  }

  function Reserved(p: Pace, spacing: int, now: int): Pace { p.(next := Some(Slot(p, now) + spacing)) }

  class CheckSpacer {
    var next: map<string, int>
    var started: map<string, int>

    ghost function PaceOf(tracker: string): Pace
      reads this
    {
      Pace(if tracker in next then Some(next[tracker]) else None, if tracker in started then Some(started[tracker]) else None)
    }

    constructor ()
      ensures forall t :: PaceOf(t) == Pace(None, None)
    {
      next, started := map[], map[];
    }

    method Claim(tracker: string, spacing: int, now: int) returns (wait: int)
      modifies this
      ensures wait == ClaimWait(old(PaceOf(tracker)), spacing, now)
      ensures PaceOf(tracker) == Claimed(old(PaceOf(tracker)), spacing, now)
      ensures forall t | t != tracker :: PaceOf(t) == old(PaceOf(t))
    {
      if tracker in started {
        var left := started[tracker] + spacing - now;
        if left > 0 { return left; }
      }
      started := started[tracker := now];
      return 0;
    }

    method Reserve(tracker: string, spacing: int, now: int) returns (wait: int)
      modifies this
      ensures wait == Slot(old(PaceOf(tracker)), now) - now
      ensures PaceOf(tracker) == Reserved(old(PaceOf(tracker)), spacing, now)
      ensures forall t | t != tracker :: PaceOf(t) == old(PaceOf(t))
    {
      var slot := now;
      if tracker in next && next[tracker] > now {
        slot := next[tracker];
      }
      next := next[tracker := slot + spacing];
      return slot - now;
    }
  }

  // ---- over any run of one tracker's calls -----------------------------------------------

  datatype Call = Claim(now: int) | Reserve(now: int)

  function PaceAfter(calls: seq<Call>, spacing: int): Pace {
    if calls == [] then Pace(None, None)
    else
      var p := PaceAfter(calls[..|calls| - 1], spacing);
      match calls[|calls| - 1]
      case Claim(now) => Claimed(p, spacing, now)
      case Reserve(now) => Reserved(p, spacing, now)
  }

  /** Call k started a check. */
  predicate StartsAt(calls: seq<Call>, spacing: int, k: nat) {
    k < |calls| && calls[k].Claim? && ClaimWait(PaceAfter(calls[..k], spacing), spacing, calls[k].now) == 0
  }

  lemma {:induction false} LastStart(calls: seq<Call>, spacing: int, k: nat)
    requires spacing >= 0 && StartsAt(calls, spacing, k)
    ensures PaceAfter(calls, spacing).started.Some? && PaceAfter(calls, spacing).started.value >= calls[k].now
    decreases |calls|
  {
    var n := |calls| - 1;
    if k < n {
      assert calls[..n][..k] == calls[..k];
      LastStart(calls[..n], spacing, k);
    }
  }

  /** No two checks of a tracker start closer together than it asks, whatever the clock does. */
  lemma StartsAreSpaced(calls: seq<Call>, spacing: int, i: nat, k: nat)
    requires spacing >= 0 && i < k && StartsAt(calls, spacing, i) && StartsAt(calls, spacing, k)
    ensures calls[k].now >= calls[i].now + spacing
  {
    hide PaceAfter;
    assert calls[..k][..i] == calls[..i];
    LastStart(calls[..k], spacing, i);
  }

  /** The start that is remembered is one there was. */
  lemma {:induction false} StartedBy(calls: seq<Call>, spacing: int) returns (k: nat)
    requires PaceAfter(calls, spacing).started.Some?
    ensures StartsAt(calls, spacing, k) && calls[k].now == PaceAfter(calls, spacing).started.value
    decreases |calls|
  {
    var n := |calls| - 1;
    if StartsAt(calls, spacing, n) {
      k := n;
    } else {
      k := StartedBy(calls[..n], spacing);
      assert calls[..n][..k] == calls[..k];
    }
  }

  /**
   * A check may start exactly when every start before it is a gap ago; when it may not,
   * the wait ends a gap after the latest of them.
   */
  lemma StartsExactly(calls: seq<Call>, spacing: int, k: nat)
    requires spacing >= 0 && k < |calls| && calls[k].Claim?
    ensures var wait := ClaimWait(PaceAfter(calls[..k], spacing), spacing, calls[k].now);
      && (wait == 0 <==> forall i | 0 <= i < k && StartsAt(calls, spacing, i) :: calls[k].now >= calls[i].now + spacing)
      && wait >= 0
      && (wait > 0 ==> exists i :: 0 <= i < k && StartsAt(calls, spacing, i) && calls[k].now + wait == calls[i].now + spacing)
      && forall i | 0 <= i < k && StartsAt(calls, spacing, i) :: calls[k].now + wait >= calls[i].now + spacing
  {
    hide PaceAfter;
    var before := calls[..k];
    forall i: nat | i < k ensures StartsAt(before, spacing, i) <==> StartsAt(calls, spacing, i) { assert before[..i] == calls[..i]; }
    forall i: nat | i < k && StartsAt(calls, spacing, i)
      ensures PaceAfter(before, spacing).started.Some? && PaceAfter(before, spacing).started.value >= calls[i].now
    {
      assert StartsAt(before, spacing, i);
      LastStart(before, spacing, i);
    }
    if PaceAfter(before, spacing).started.Some? {
      var i := StartedBy(before, spacing);
      assert StartsAt(calls, spacing, i) && before[i] == calls[i];
    }
  }

  function SlotAt(calls: seq<Call>, spacing: int, k: nat): int
    requires k < |calls| && calls[k].Reserve?
  {
    Slot(PaceAfter(calls[..k], spacing), calls[k].now)
  }

  lemma {:induction false} LastSlot(calls: seq<Call>, spacing: int, k: nat)
    requires spacing >= 0 && k < |calls| && calls[k].Reserve?
    ensures PaceAfter(calls, spacing).next.Some? && PaceAfter(calls, spacing).next.value >= SlotAt(calls, spacing, k) + spacing
    decreases |calls|
  {
    hide Claimed, ClaimWait;
    var n := |calls| - 1;
    if k < n {
      assert calls[..n][..k] == calls[..k];
      LastSlot(calls[..n], spacing, k);
    }
    assert n == k || Claimed(PaceAfter(calls[..n], spacing), spacing, calls[n].now).next == PaceAfter(calls[..n], spacing).next by {
      ClaimKeepsSlots(PaceAfter(calls[..n], spacing), spacing, calls[n].now);
    }
  }

  lemma ClaimKeepsSlots(p: Pace, spacing: int, now: int)
    ensures Claimed(p, spacing, now).next == p.next
  {}

  /** Waiters are given their turns in the order they asked, each at least the gap after the one before. */
  lemma SlotsAreSpaced(calls: seq<Call>, spacing: int, i: nat, k: nat)
    requires spacing >= 0 && i < k < |calls| && calls[i].Reserve? && calls[k].Reserve?
    ensures SlotAt(calls, spacing, k) >= SlotAt(calls, spacing, i) + spacing && SlotAt(calls, spacing, k) >= calls[k].now
  {
    hide PaceAfter;
    assert calls[..k][..i] == calls[..i];
    LastSlot(calls[..k], spacing, i);
  }

  /** The last turn given out before call k. */
  function LastReserve(calls: seq<Call>): (k: Option<nat>)
    ensures k.Some? ==> k.value < |calls| && calls[k.value].Reserve?
  {
    if calls == [] then None
    else if calls[|calls| - 1].Reserve? then Some(|calls| - 1)
    else LastReserve(calls[..|calls| - 1])
  }

  lemma {:induction false} NextIsLast(calls: seq<Call>, spacing: int)
    ensures PaceAfter(calls, spacing).next ==
              var k := LastReserve(calls); if k.None? then None else Some(SlotAt(calls, spacing, k.value) + spacing)
    decreases |calls|
  {
    hide Claimed, ClaimWait;
    if calls != [] {
      var n := |calls| - 1;
      NextIsLast(calls[..n], spacing);
      if calls[n].Claim? {
        ClaimKeepsSlots(PaceAfter(calls[..n], spacing), spacing, calls[n].now);
        var k := LastReserve(calls[..n]);
        if k.Some? { assert calls[..n][..k.value] == calls[..k.value]; }
      }
    }
  }

  /** A turn is at once, or a gap after the turn given out before it, whichever is later. */
  lemma SlotsExactly(calls: seq<Call>, spacing: int, k: nat)
    requires k < |calls| && calls[k].Reserve?
    ensures var i, now := LastReserve(calls[..k]), calls[k].now;
      SlotAt(calls, spacing, k) ==
        if i.Some? && SlotAt(calls, spacing, i.value) + spacing > now then SlotAt(calls, spacing, i.value) + spacing else now
  {
    hide PaceAfter;
    NextIsLast(calls[..k], spacing);
    var i := LastReserve(calls[..k]);
    if i.Some? { assert calls[..k][..i.value] == calls[..i.value]; }
  }

  // ---- the lane ---------------------------------------------------------------------------

  datatype Popped<T> = Wait | Closed | Got(value: T)

  /** A lane's topics, first come first served; once closed it hands out nothing more. */
  class LaneQueue<T> {
    var items: seq<T>
    var closed: bool

    constructor ()
      ensures items == [] && !closed
    {
      items, closed := [], false;
    }

    method Push(t: T)
      modifies this
      ensures items == old(items) + [t] && closed == old(closed)
    {
      items := items + [t];
    }

    /** One look under the lock: the caller waits and looks again while the open queue is empty. */
    method Pop() returns (r: Popped<T>)
      modifies this
      ensures closed == old(closed)
      ensures closed ==> r.Closed? && items == old(items)
      ensures !closed && old(items) == [] ==> r.Wait? && items == []
      ensures !closed && old(items) != [] ==> r.Got? && old(items) == [r.value] + items
    {
      if items == [] && !closed { return Wait; }
      if closed { return Closed; }
      r := Got(items[0]);
      items := items[1..];
    }

    method Close()
      modifies this
      ensures closed && items == old(items)
    {
      closed := true;
    }
  }
}
