/**
 * Which domain a tracker uses: the rotation of its ring of mirrors after network
 * failures, with a threshold and a cooldown. Time is in seconds.
 */
module DomainRing {
  import opened Common

  const ROTATE_COOLDOWN: int := 600
  const ROTATE_FAILURE_THRESHOLD: int := 2
  const ROTATE_FAILURE_WINDOW: int := 300

  datatype Config = Config(active: string, custom: seq<string>)

  const NO_CONFIG := Config("", [])

  /** What the store keeps of one tracker. */
  datatype Health = Health(cfg: Config, lastRotate: Option<int>, count: int, window: Option<int>)

  datatype Rotation = Rotation(from: string, to: string)

  /** The first place of d in the ring, 0 when it is not there. */
  function IndexIn(ring: seq<string>, d: string): (i: nat)
    requires ring != []
    ensures i < |ring|
    ensures d in ring ==> ring[i] == d && d !in ring[..i]
    ensures d !in ring ==> i == 0
  {
    if d !in ring then 0 else FirstIndex(ring, d)
  }

  function FirstIndex(ring: seq<string>, d: string): (i: nat)
    requires d in ring
    ensures i < |ring| && ring[i] == d && d !in ring[..i]
  {
    if ring[0] == d then 0
    else
      assert ring == [ring[0]] + ring[1..];
      var i := 1 + FirstIndex(ring[1..], d);
      assert ring[..i] == [ring[0]] + ring[1..][..i - 1];
      i
  }

  function NextDomain(ring: seq<string>, active: string): (to: string)
    requires ring != []
    ensures to in ring
  {
    ring[(IndexIn(ring, if active == "" then ring[0] else active) + 1) % |ring|]
  }

  predicate CoolingDown(h: Health, now: int) { h.lastRotate.Some? && now - h.lastRotate.value < ROTATE_COOLDOWN }

  /** Failures counted in the window once one more has come. */
  function CountAfter(h: Health, now: int): int {
    if h.window.None? || now - h.window.value > ROTATE_FAILURE_WINDOW then 1 else h.count + 1
  }

  function WindowAfter(h: Health, now: int): int {
    if h.window.None? || now - h.window.value > ROTATE_FAILURE_WINDOW then now else h.window.value
  }

  function RingOf(known: seq<string>, cfg: Config): seq<string> { known + cfg.custom }

  /** The domain in use: the active one, or the plugin's first. */
  function StandsAt(known: seq<string>, cfg: Config): string {
    var ring := RingOf(known, cfg);
    if cfg.active == "" && ring != [] then ring[0] else cfg.active
  }

  /** The failure rotates the tracker. */
  predicate Rotates(h: Health, known: seq<string>, now: int) {
    |RingOf(known, h.cfg)| >= 2 && !CoolingDown(h, now) && CountAfter(h, now) >= ROTATE_FAILURE_THRESHOLD
  }

  function AfterFailure(h: Health, known: seq<string>, now: int): Health {
    var ring := RingOf(known, h.cfg);
    if |ring| < 2 || CoolingDown(h, now) then h
    else if CountAfter(h, now) < ROTATE_FAILURE_THRESHOLD then h.(count := CountAfter(h, now), window := Some(WindowAfter(h, now)))
    else Health(h.cfg.(active := NextDomain(ring, h.cfg.active)), Some(now), 0, None)
  }

  class Store {
    var cfg: map<string, Config>
    var lastRotate: map<string, int>
    var failCount: map<string, int>
    var failWindow: map<string, int>

    ghost function HealthOf(tracker: string): Health
      reads this
    {
      Health(
        if tracker in cfg then cfg[tracker] else NO_CONFIG,
        if tracker in lastRotate then Some(lastRotate[tracker]) else None,
        if tracker in failCount then failCount[tracker] else 0,
        if tracker in failWindow then Some(failWindow[tracker]) else None)
    }

    constructor ()
      ensures forall t :: HealthOf(t) == Health(NO_CONFIG, None, 0, None)
    {
      cfg, lastRotate, failCount, failWindow := map[], map[], map[], map[];
    }

    method Resolve(tracker: string) returns (c: Config)
      ensures c == HealthOf(tracker).cfg
    {
      c := if tracker in cfg then cfg[tracker] else NO_CONFIG;
    }

    /** The region of Set under mu: the counters of failures and the cooldown go on. */
    method SetCached(tracker: string, c: Config)
      modifies this
      ensures HealthOf(tracker) == old(HealthOf(tracker)).(cfg := c)
      ensures forall t | t != tracker :: HealthOf(t) == old(HealthOf(t))
    {
      cfg := cfg[tracker := c];
    }

    /** The region of ReportFailure under mu; `known` are the plugin's own domains. */
    method ReportLocked(tracker: string, known: seq<string>, now: int) returns (rotation: Option<Rotation>)
      modifies this
      ensures HealthOf(tracker) == AfterFailure(old(HealthOf(tracker)), known, now)
      ensures forall t | t != tracker :: HealthOf(t) == old(HealthOf(t))
      ensures rotation.Some? <==> Rotates(old(HealthOf(tracker)), known, now)
      ensures rotation.Some? ==>
                rotation.value == Rotation(StandsAt(known, old(HealthOf(tracker)).cfg), HealthOf(tracker).cfg.active)
    {
      hide IndexIn, FirstIndex;
      ghost var was := HealthOf(tracker);
      var cur := if tracker in cfg then cfg[tracker] else NO_CONFIG;
      var ring := known + cur.custom;
      if |ring| < 2 { return None; }
      if tracker in lastRotate && now - lastRotate[tracker] < ROTATE_COOLDOWN { return None; }
      if tracker !in failWindow || now - failWindow[tracker] > ROTATE_FAILURE_WINDOW {
        failWindow := failWindow[tracker := now];
        failCount := failCount[tracker := 0];
      }
      failCount := failCount[tracker := if tracker in failCount then failCount[tracker] + 1 else 1];
      if failCount[tracker] < ROTATE_FAILURE_THRESHOLD { return None; }
      var from := if cur.active == "" then ring[0] else cur.active;
      var idx := Position(ring, from);
      var to := ring[(idx + 1) % |ring|];
      assert to == NextDomain(ring, was.cfg.active);
      cfg := cfg[tracker := cur.(active := to)];
      lastRotate := lastRotate[tracker := now];
      failCount := failCount[tracker := 0];
      failWindow := map t | t in failWindow && t != tracker :: failWindow[t];
      return Some(Rotation(from, to));
    }
  }

  /** The loop that finds where the ring stands. */
  method Position(ring: seq<string>, from: string) returns (idx: nat)
    requires ring != []
    ensures idx == IndexIn(ring, from)
  {
    idx := 0;
    for i := 0 to |ring|
      invariant idx == 0 && from !in ring[..i]
    {
      if ring[i] == from {
        idx := i;
        FirstIs(ring, from, i);
        break;
      }
    }
  }

  lemma FirstIs(ring: seq<string>, d: string, i: nat)
    requires i < |ring| && ring[i] == d && d !in ring[..i]
    ensures d in ring && IndexIn(ring, d) == i
  {
    var f := IndexIn(ring, d);
    assert forall x | 0 <= x < i :: ring[x] == ring[..i][x];
    assert forall x | 0 <= x < f :: ring[x] == ring[..f][x];
  }

  // ---- the ring --------------------------------------------------------------------

  predicate Distinct(ring: seq<string>) { forall i, j | 0 <= i < j < |ring| :: ring[i] != ring[j] }

  function Rotated(ring: seq<string>, active: string, times: nat): string
    requires ring != []
  {
    if times == 0 then active else NextDomain(ring, Rotated(ring, active, times - 1))
  }

  /** From any domain of a ring without repeats, k rotations move k places on. */
  lemma {:induction false} RotatedIs(ring: seq<string>, i: nat, k: nat)
    requires Distinct(ring) && i < |ring| && "" !in ring
    ensures Rotated(ring, ring[i], k) == ring[(i + k) % |ring|]
    decreases k
  {
    hide IndexIn, Distinct, FirstIndex;
    if k == 0 {
      assert (i + 0) % |ring| == i by { SmallMod(i, |ring|); }
    } else {
      RotatedIs(ring, i, k - 1);
      var j := (i + (k - 1)) % |ring|;
      DistinctFirst(ring, j);
      ModNext(i + (k - 1), |ring|);
    }
  }

  lemma DistinctFirst(ring: seq<string>, j: nat)
    requires Distinct(ring) && j < |ring|
    ensures IndexIn(ring, ring[j]) == j
  {
    assert ring[j] !in ring[..j];
    FirstIs(ring, ring[j], j);
  }

  lemma SmallMod(a: nat, n: nat)
    requires a < n
    ensures a % n == a
  {}

  lemma ModNext(a: nat, n: nat)
    requires n > 0
    ensures (a % n + 1) % n == (a + 1) % n
  {
    var q, r := a / n, a % n;
    assert a + 1 == q * n + (r + 1);
    if r + 1 < n {
      ModOf(a + 1, n, q, r + 1);
      ModOf(r + 1, n, 0, r + 1);
    } else {
      assert (q + 1) * n == q * n + n;
      ModOf(a + 1, n, q + 1, 0);
      ModOf(n, n, 1, 0);
    }
  }

  lemma ModOf(a: nat, n: nat, q: nat, r: nat)
    requires r < n && a == q * n + r
    ensures a % n == r
  {
    var d := a / n - q;
    assert a == (a / n) * n + a % n;
    assert d * n == (a / n) * n - q * n;
    assert d * n == r - a % n;
    if d >= 1 { Times(1, d, n); }
    if d <= -1 { Times(d, -1, n); }
  }

  lemma Times(a: int, b: int, n: nat)
    requires a <= b
    ensures a * n <= b * n
  {}

  /** Every mirror gets its turn: as many rotations as the ring has domains come back to where it stood. */
  lemma RingComesRound(ring: seq<string>, i: nat, j: nat)
    requires Distinct(ring) && "" !in ring && i < |ring| && j < |ring|
    ensures exists k: nat :: k < |ring| && Rotated(ring, ring[i], k) == ring[j]
    ensures Rotated(ring, ring[i], |ring|) == ring[i]
  {
    hide Rotated, Distinct;
    var n := |ring|;
    var k := if i <= j then j - i else j + n - i;
    RotatedIs(ring, i, k);
    RotatedIs(ring, i, n);
    if i <= j { SmallMod(j, n); } else { ModOf(j + n, n, 1, j); }
    ModOf(i + n, n, 1, i);
  }

  // ---- over a tracker's life ---------------------------------------------------------

  /** A network failure, or an administrator's new configuration. */
  datatype Report = Failure(now: int) | Assign(cfg: Config)

  function HealthAfter(start: Health, known: seq<string>, reports: seq<Report>): Health {
    if reports == [] then start
    else
      var h := HealthAfter(start, known, reports[..|reports| - 1]);
      match reports[|reports| - 1]
      case Failure(now) => AfterFailure(h, known, now)
      case Assign(cfg) => h.(cfg := cfg)
  }

  const FRESH := Health(NO_CONFIG, None, 0, None)

  predicate RotatesAt(known: seq<string>, reports: seq<Report>, k: nat) {
    k < |reports| && reports[k].Failure? && Rotates(HealthAfter(FRESH, known, reports[..k]), known, reports[k].now)
  }

  predicate InOrder(reports: seq<Report>) {
    forall i, j | 0 <= i < j < |reports| && reports[i].Failure? && reports[j].Failure? :: reports[i].now <= reports[j].now
  }

  /** What the counters remember: an earlier failure since the last rotation, and that rotation. */
  ghost predicate Remembers(known: seq<string>, reports: seq<Report>, h: Health) {
    && h.count >= 0
    && (h.window.Some? ==>
          exists j: nat :: j < |reports| && reports[j] == Failure(h.window.value)
            && forall i | j <= i < |reports| :: !RotatesAt(known, reports, i))
    && (forall i: nat | i < |reports| && RotatesAt(known, reports, i) ::
          h.lastRotate.Some? && reports[i].now <= h.lastRotate.value)
    && (h.count > 0 ==> h.window.Some?)
  }

  lemma RotatesInPrefix(known: seq<string>, reports: seq<Report>, n: nat, i: nat)
    requires i < n <= |reports|
    ensures RotatesAt(known, reports[..n], i) <==> RotatesAt(known, reports, i)
  {
    assert reports[..n][..i] == reports[..i];
  }

  lemma RemembersStep(known: seq<string>, reports: seq<Report>, h: Health)
    requires reports != [] && InOrder(reports)
    requires h == HealthAfter(FRESH, known, reports[..|reports| - 1])
    requires Remembers(known, reports[..|reports| - 1], h)
    ensures Remembers(known, reports, HealthAfter(FRESH, known, reports))
  {
    hide NextDomain, RingOf, HealthAfter;
    var n := |reports| - 1;
    var last := HealthAfter(FRESH, known, reports);
    assert last == (if reports[n].Failure? then AfterFailure(h, known, reports[n].now) else h.(cfg := reports[n].cfg)) by { LastReport(known, reports); }
    forall i: nat | i < n ensures RotatesAt(known, reports[..n], i) <==> RotatesAt(known, reports, i) {
      RotatesInPrefix(known, reports, n, i);
    }
    WindowStep(known, reports, h, last);
    forall i: nat | i < |reports| && RotatesAt(known, reports, i)
      ensures last.lastRotate.Some? && reports[i].now <= last.lastRotate.value
    {
      if i < n { assert RotatesAt(known, reports[..n], i); assert reports[..n][i] == reports[i]; }
    }
  }

  lemma LastReport(known: seq<string>, reports: seq<Report>)
    requires reports != []
    ensures var n := |reports| - 1;
      var h := HealthAfter(FRESH, known, reports[..n]);
      HealthAfter(FRESH, known, reports)
      == if reports[n].Failure? then AfterFailure(h, known, reports[n].now) else h.(cfg := reports[n].cfg)
  {
    hide AfterFailure;
  }

  lemma WindowStep(known: seq<string>, reports: seq<Report>, h: Health, last: Health)
    requires reports != [] && h == HealthAfter(FRESH, known, reports[..|reports| - 1])
    requires var n := |reports| - 1;
      last == if reports[n].Failure? then AfterFailure(h, known, reports[n].now) else h.(cfg := reports[n].cfg)
    requires forall i: nat | i < |reports| - 1 ::
               RotatesAt(known, reports[..|reports| - 1], i) <==> RotatesAt(known, reports, i)
    requires Remembers(known, reports[..|reports| - 1], h)
    ensures last.window.Some? ==>
              exists j: nat :: j < |reports| && reports[j] == Failure(last.window.value)
                && forall i | j <= i < |reports| :: !RotatesAt(known, reports, i)
  {
    hide NextDomain, RingOf, HealthAfter, AfterFailure, Rotates;
    var n := |reports| - 1;
    if reports[n].Failure? { WindowNow(h, known, reports[n].now); }
    if last.window.Some? {
      assert !RotatesAt(known, reports, n);
      if last.window == h.window {
        var j: nat :| j < n && reports[..n][j] == Failure(h.window.value) && forall i | j <= i < n :: !RotatesAt(known, reports[..n], i);
        assert reports[j] == reports[..n][j];
        forall i | j <= i < |reports| ensures !RotatesAt(known, reports, i) {
          if i < n { assert !RotatesAt(known, reports[..n], i); }
        }
      } else {
        assert reports[n] == Failure(last.window.value);
      }
    }
  }

  /** An open window is as old as it was, or this failure opened it; a rotation closes it. */
  lemma WindowNow(h: Health, known: seq<string>, now: int)
    ensures var w := AfterFailure(h, known, now).window;
      w.Some? ==> !Rotates(h, known, now) && (w == h.window || w == Some(now))
  {
    hide NextDomain, RingOf;
  }

  lemma {:induction false} AlwaysRemembers(known: seq<string>, reports: seq<Report>)
    requires InOrder(reports)
    ensures Remembers(known, reports, HealthAfter(FRESH, known, reports))
    decreases |reports|
  {
    hide Remembers, HealthAfter;
    if reports == [] {
      NothingToRemember(known);
    } else {
      AlwaysRemembers(known, reports[..|reports| - 1]);
      RemembersStep(known, reports, HealthAfter(FRESH, known, reports[..|reports| - 1]));
    }
  }

  lemma NothingToRemember(known: seq<string>)
    ensures Remembers(known, [], HealthAfter(FRESH, known, []))
  {}

  /**
   * One failure alone never rotates: a rotation is the second failure within the
   * window, neither of them spent on an earlier rotation.
   */
  lemma RotationNeedsTwoFailures(known: seq<string>, reports: seq<Report>, k: nat)
    requires InOrder(reports) && RotatesAt(known, reports, k)
    ensures exists j: nat :: j < k && reports[j].Failure? && reports[k].now - reports[j].now <= ROTATE_FAILURE_WINDOW
              && forall i | j <= i < k :: !RotatesAt(known, reports, i)
  {
    hide HealthAfter, RingOf, CoolingDown;
    var before := reports[..k];
    var h := HealthAfter(FRESH, known, before);
    AlwaysRemembers(known, before);
    assert h.window.Some?;
    var j: nat :| j < k && before[j] == Failure(h.window.value) && forall i | j <= i < k :: !RotatesAt(known, before, i);
    assert reports[j] == before[j];
    forall i | j <= i < k ensures !RotatesAt(known, reports, i) { RotatesInPrefix(known, reports, k, i); }
  }

  /** Two rotations of one tracker are at least a cooldown apart. */
  lemma RotationsAreSpaced(known: seq<string>, reports: seq<Report>, i: nat, k: nat)
    requires InOrder(reports) && i < k && RotatesAt(known, reports, i) && RotatesAt(known, reports, k)
    ensures reports[k].now - reports[i].now >= ROTATE_COOLDOWN
  {
    hide HealthAfter, RingOf, CountAfter;
    var before := reports[..k];
    AlwaysRemembers(known, before);
    RotatesInPrefix(known, reports, k, i);
    assert before[i] == reports[i];
  }

  // ---- when a rotation does come -----------------------------------------------------

  /** A count is kept exactly while a window is open, and then it is one. */
  predicate Counting(h: Health) { if h.window.Some? then h.count == 1 else h.count == 0 }

  lemma {:induction false} AlwaysCounting(known: seq<string>, reports: seq<Report>)
    ensures Counting(HealthAfter(FRESH, known, reports))
    decreases |reports|
  {
    hide NextDomain, RingOf;
    if reports != [] { AlwaysCounting(known, reports[..|reports| - 1]); }
  }

  /**
   * Over every run a failure rotates the tracker exactly when there is another mirror,
   * the last rotation is ten minutes old, and an earlier failure opened a window no more
   * than five minutes before.
   */
  lemma RotatesExactly(known: seq<string>, reports: seq<Report>, k: nat)
    requires k < |reports| && reports[k].Failure?
    ensures var h, now := HealthAfter(FRESH, known, reports[..k]), reports[k].now;
      RotatesAt(known, reports, k) <==>
        && |known| + |h.cfg.custom| >= 2 && (h.lastRotate.Some? ==> now - h.lastRotate.value >= 600)
        && h.window.Some? && now - h.window.value <= 300
  {
    hide HealthAfter;
    AlwaysCounting(known, reports[..k]);
  }

  /** No failure comes between the steps; the configuration may change. */
  predicate OnlyAssigns(reports: seq<Report>, i: nat, k: nat) { k <= |reports| && forall j | i < j < k :: reports[j].Assign? }

  lemma {:induction false} AssignsKeepWindow(known: seq<string>, reports: seq<Report>, i: nat, k: nat)
    requires i < k && OnlyAssigns(reports, i, k)
    ensures HealthAfter(FRESH, known, reports[..k])
         == HealthAfter(FRESH, known, reports[..i + 1]).(cfg := HealthAfter(FRESH, known, reports[..k]).cfg)
    decreases k
  {
    hide AfterFailure;
    if i + 1 < k {
      AssignsKeepWindow(known, reports, i, k - 1);
      assert reports[..k][..k - 1] == reports[..k - 1];
    }
  }

  /**
   * So two failures in a row no more than five minutes apart, the first of which opens a
   * window, rotate a ring of two once the cooldown is over.
   */
  lemma TwoFailuresRotate(known: seq<string>, reports: seq<Report>, i: nat, k: nat)
    requires i < k < |reports| && reports[i].Failure? && reports[k].Failure? && OnlyAssigns(reports, i, k)
    requires reports[i].now <= reports[k].now <= reports[i].now + 300
    requires var h := HealthAfter(FRESH, known, reports[..i]);
      && |known| + |h.cfg.custom| >= 2 && (h.lastRotate.Some? ==> reports[i].now - h.lastRotate.value >= 600)
      && (h.window.Some? ==> reports[i].now - h.window.value > 300)
    requires |known| + |HealthAfter(FRESH, known, reports[..k]).cfg.custom| >= 2
    ensures RotatesAt(known, reports, k)
  {
    hide HealthAfter;
    AssignsKeepWindow(known, reports, i, k);
    LastReport(known, reports[..i + 1]);
    assert reports[..i + 1][..i] == reports[..i];
    RotatesExactly(known, reports, k);
  }
}
