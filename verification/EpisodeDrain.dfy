/**
 * One tick's download loop: every pending episode of a topic, one after the other,
 * until one fails, a guard refuses, there are none left, or the tick's cap is reached.
 */
module EpisodeDrain {
  import opened Common

  const DEFAULT_MAX_PER_TICK: int := 25

  /** What the tracker, the payload's infohash, the guarded submission and the guarded mark come to in one turn. */
  datatype Fetched = Payload | NoMore | FetchFailed
  datatype Answer = Done | Stale | Failed
  datatype Turn = Turn(fetch: Fetched, hash: Option<string>, submit: Answer, note: string, mark: Answer)

  function Cap(maxPerTick: int): (n: int)
    ensures n > 0
    ensures maxPerTick > 0 ==> n == maxPerTick
    ensures maxPerTick <= 0 ==> n == 25
  {
    if maxPerTick <= 0 then DEFAULT_MAX_PER_TICK else maxPerTick
  }

  /** The label of the i-th episode: the tracker's own, else the topic's name. */
  function Label(human: seq<string>, displayName: string, i: nat): string {
    if i < |human| && human[i] != "" then human[i] else displayName
  }

  predicate HandedOver(t: Turn) { t.fetch.Payload? && t.submit.Done? }

  /** The turn ends the tick as a failure: a download, a submission or a mark failed. */
  predicate TurnFails(t: Turn, single: bool) {
    t.fetch.FetchFailed? || (t.fetch.Payload? && (t.submit.Failed? || (t.submit.Done? && !single && t.mark.Failed?)))
  }

  /** The turn ends the tick without one. */
  predicate TurnStops(t: Turn, single: bool) {
    t.fetch.NoMore? || (t.fetch.Payload? && (t.submit.Stale? || (t.submit.Done? && !single && t.mark.Stale?)))
  }

  /** The infohashes of the first n payloads, of those that have one. */
  function HashesOf(turns: nat -> Turn, n: nat): seq<string> {
    if n == 0 then [] else HashesOf(turns, n - 1) + if HasHash(turns(n - 1)) then [turns(n - 1).hash.value] else []
  }

  predicate HasHash(t: Turn) { t.hash.Some? && t.hash.value != "" }

  lemma {:induction false} HashesAreDelivered(turns: nat -> Turn, n: nat, h: string)
    ensures h in HashesOf(turns, n) <==> exists i: nat :: i < n && HasHash(turns(i)) && turns(i).hash.value == h
  {
    if n > 0 {
      HashesAreDelivered(turns, n - 1, h);
      if h in HashesOf(turns, n) && h !in HashesOf(turns, n - 1) {
        assert HasHash(turns(n - 1)) && turns(n - 1).hash.value == h;
      }
    }
  }

  /** Every payload handed over is reported: its label, its infohash when it has one, and the last one's note. */
  predicate Reported(human: seq<string>, displayName: string, turns: nat -> Turn, delivered: seq<string>, hashes: seq<string>, note: string) {
    && (forall i: nat | i < |delivered| :: delivered[i] == Label(human, displayName, i))
    && hashes == HashesOf(turns, |delivered|)
    && note == if delivered == [] then "" else turns(|delivered| - 1).note
  }

  lemma ReportedNext(human: seq<string>, displayName: string, turns: nat -> Turn, delivered: seq<string>, hashes: seq<string>, note: string, names: seq<string>)
    requires Reported(human, displayName, turns, delivered, hashes, note)
    requires names == From(human, |delivered|)
    ensures var n, tag := |delivered|, if |names| > 0 then names[0] else "";
      && Reported(human, displayName, turns, delivered + [if tag != "" then tag else displayName],
                  if HasHash(turns(n)) then hashes + [turns(n).hash.value] else hashes, turns(n).note)
      && From(human, n + 1) == if |names| > 1 then names[1..] else []
  {}

  function From(names: seq<string>, i: nat): seq<string> {
    if i < |names| then names[i..] else []
  }

  /** The loop; `turns` is what the outside answers in each turn. */
  method DownloadAllPending(pending: seq<string>, human: seq<string>, displayName: string, maxPerTick: int, turns: nat -> Turn)
    returns (delivered: seq<string>, hashes: seq<string>, note: string, marked: seq<string>, failed: bool)
    // Marks follow the pending list, each for a payload the client took.
    ensures |marked| <= |pending| && marked == pending[..|marked|]
    ensures forall i: nat | i < |marked| :: HandedOver(turns(i)) && turns(i).mark.Done?
    // At most the last payload handed over is not marked, and then its mark did not land or it has none.
    ensures |delivered| == |marked| || |delivered| == |marked| + 1
    ensures |delivered| == |marked| + 1 ==> HandedOver(turns(|marked|)) && (pending == [] || !turns(|marked|).mark.Done?)
    ensures |delivered| == |marked| + 1 <==>
              |marked| < Cap(maxPerTick) && (|marked| < |pending| || pending == []) && HandedOver(turns(|marked|))
    ensures Reported(human, displayName, turns, delivered, hashes, note)
    ensures |delivered| <= Cap(maxPerTick)
    // Reported as failed exactly when the turn it ended in failed.
    ensures failed <==> |marked| < Cap(maxPerTick) && (|marked| < |pending| || pending == []) && TurnFails(turns(|marked|), pending == [])
    // Reported as done, with episodes left: nothing more to fetch, a guard refused, or the cap.
    ensures !failed && |marked| < |pending| ==> |marked| == Cap(maxPerTick) || TurnStops(turns(|marked|), false)
  {
    hide Label, HashesOf, Reported, From, Cap;
    var cap := Cap(maxPerTick);
    delivered, hashes, note, marked, failed := [], [], "", [], false;
    NothingReported(human, displayName, turns);
    var left, names := pending, human;
    var i := 0;
    while i < cap
      invariant 0 <= i <= cap && |marked| == |delivered| == i && !failed
      invariant i <= |pending| && marked == pending[..i] && left == pending[i..]
      invariant i > 0 ==> i < |pending|
      invariant names == From(human, i) && Reported(human, displayName, turns, delivered, hashes, note)
      invariant forall k: nat | k < i :: HandedOver(turns(k)) && turns(k).mark.Done?
    {
      var tag := if |names| > 0 then names[0] else "";
      var turn := turns(i);
      if turn.fetch.NoMore? { return; }
      if turn.fetch.FetchFailed? { return delivered, hashes, note, marked, true; }
      if turn.submit.Stale? { return; }
      if turn.submit.Failed? { return delivered, hashes, note, marked, true; }
      ReportedNext(human, displayName, turns, delivered, hashes, note, names);
      note := turn.note;
      delivered := delivered + [if tag != "" then tag else displayName];
      if turn.hash.Some? && turn.hash.value != "" { hashes := hashes + [turn.hash.value]; }
      if |left| == 0 { return; }
      if turn.mark.Stale? { return; }
      if turn.mark.Failed? { return delivered, hashes, note, marked, true; }
      marked := marked + [left[0]];
      if |left| <= 1 { return; }
      left := left[1..];
      names := if |names| > 1 then names[1..] else [];
      i := i + 1;
    }
  }

  lemma NothingReported(human: seq<string>, displayName: string, turns: nat -> Turn)
    ensures Reported(human, displayName, turns, [], [], "") && From(human, 0) == human
  {}
}
