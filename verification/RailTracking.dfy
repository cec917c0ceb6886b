/** The pruned log behind the health of a rail. */
module RailTracking {
  // A log pruned on every write must answer like the log it came from.

  const RETENTION: real := 3600.0
  const HEALTHY_MIN_SR: real := 0.95
  const DEGRADED_MIN_SR: real := 0.70
  const MIN_EVENTS_FOR_CLASSIFICATION := 5
  const CONSECUTIVE_TIMEOUT_THRESHOLD := 3

  datatype Event = Event(stamp: real, success: bool, timeout: bool)

  datatype RailState = Healthy | Degraded | Down

  datatype WindowStats = WindowStats(windowSeconds: nat, total: nat, successes: nat, failures: int, successRate: real,
                                     failureVelocity: real, timeouts: nat, timeoutRatio: real)

  datatype Snapshot = Snapshot(railId: string, state: RailState, oneMinute: WindowStats, fiveMinutes: WindowStats,
                               fifteenMinutes: WindowStats)

  // ---- the log -------------------------------------------------------------

  function Select(events: seq<Event>, keep: Event -> bool): seq<Event> {
    if events == [] then []
    else if keep(events[0]) then [events[0]] + Select(events[1..], keep)
    else Select(events[1..], keep)
  }

  function NotBefore(cutoff: real): Event -> bool {
    (e: Event) => e.stamp >= cutoff
  }

  function Succeeded(): Event -> bool {
    (e: Event) => e.success
  }

  function TimedOut(): Event -> bool {
    (e: Event) => e.timeout
  }

  /** One write: append, then drop what is older than an hour before *this* event. */
  function Append(events: seq<Event>, e: Event): seq<Event> {
    Select(events + [e], NotBefore(e.stamp - RETENTION))
  }

  /** The log left after recording a whole history, one write at a time. */
  function PrunedLog(history: seq<Event>): seq<Event> {
    if history == [] then []
    else Append(PrunedLog(history[..|history| - 1]), history[|history| - 1])
  }

  // ---- the windows ----------------------------------------------------------

  function Stats(windowEvents: seq<Event>, windowSeconds: nat): WindowStats {
    var total := |windowEvents|;
    if total == 0 then WindowStats(windowSeconds, 0, 0, 0, 1.0, 0.0, 0, 0.0)
    else
      var successes := |Select(windowEvents, Succeeded())|;
      var timeouts := |Select(windowEvents, TimedOut())|;
      var inMinutes := windowSeconds as real / 60.0;
      var minutes := if inMinutes >= 1.0 then inMinutes else 1.0;
      WindowStats(windowSeconds, total, successes, total - successes, successes as real / total as real,
                  (total - successes) as real / minutes, timeouts, timeouts as real / total as real)
  }

  function InWindow(seconds: nat, ref: real): Event -> bool {
    (e: Event) => ref - seconds as real <= e.stamp <= ref
  }

  function Window(events: seq<Event>, seconds: nat, ref: real): WindowStats {
    Stats(Select(events, InWindow(seconds, ref)), seconds)
  }

  function Recent(ref: real): Event -> bool {
    (e: Event) => e.stamp <= ref
  }

  function TrailingTimeouts(events: seq<Event>): (n: nat) {
    if events == [] || !events[|events| - 1].timeout then 0
    else 1 + TrailingTimeouts(events[..|events| - 1])
  }

  function StateAt(events: seq<Event>, ref: real): RailState {
    var w1, w5 := Window(events, 60, ref), Window(events, 300, ref);
    var isDown := w5.successRate < DEGRADED_MIN_SR
               || TrailingTimeouts(Select(events, Recent(ref))) >= CONSECUTIVE_TIMEOUT_THRESHOLD;
    var isDegraded := w5.successRate < HEALTHY_MIN_SR || w1.successRate < DEGRADED_MIN_SR;
    if w5.total < MIN_EVENTS_FOR_CLASSIFICATION then Healthy
    else if isDown then Down
    else if isDegraded then Degraded
    else Healthy
  }

  function SnapshotOf(railId: string, events: seq<Event>, ref: real): Snapshot {
    Snapshot(railId, StateAt(events, ref), Window(events, 60, ref), Window(events, 300, ref), Window(events, 900, ref))
  }

  // ---- the tracker ----------------------------------------------------------

  class RailHealthTracker {
    var events: map<string, seq<Event>>
    /** Everything ever recorded, in the order it was recorded. */
    ghost var history: map<string, seq<Event>>

    ghost predicate Valid()
      reads this
    {
      && events.Keys == history.Keys
      && forall r :: r in events ==> events[r] == PrunedLog(history[r])
    }

    constructor ()
      ensures Valid() && events == map[] && history == map[]
    {
      events, history := map[], map[];
    }

    function EventsOf(railId: string): seq<Event>
      reads this
    {
      if railId in events then events[railId] else []
    }

    ghost function HistoryOf(railId: string): seq<Event>
      reads this
    {
      if railId in history then history[railId] else []
    }

    method RecordOutcome(railId: string, success: bool, timeout: bool, stamp: real)
      requires Valid()
      modifies this
      ensures Valid()
      ensures railId == "" ==> events == old(events) && history == old(history)
      ensures railId != "" ==>
                && history == old(history)[railId := old(HistoryOf(railId)) + [Event(stamp, success, timeout)]]
                && events == old(events)[railId := PrunedLog(HistoryOf(railId))]
    {
      hide Select, PrunedLog;
      if railId == "" {
        return;
      }
      var e := Event(stamp, success, timeout);
      ghost var before := HistoryOf(railId);
      NothingRecorded();
      RecordOne(before, e);
      var appended := EventsOf(railId) + [e];
      var cutoff := stamp - RETENTION;
      events := events[railId := Select(appended, NotBefore(cutoff))];
      history := history[railId := before + [e]];
    }

    method GetSnapshot(railId: string, ref: real) returns (snapshot: Snapshot)
      ensures snapshot == SnapshotOf(railId, EventsOf(railId), ref)
      ensures Reports(snapshot, railId, EventsOf(railId), ref)
    {
      var log := EventsOf(railId);
      var w1 := Window(log, 60, ref);
      var w5 := Window(log, 300, ref);
      var w15 := Window(log, 900, ref);

      var recent := Select(log, Recent(ref));
      var consecutiveTimeouts := 0;
      var i := |recent|;
      assert recent[..i] == recent;
      while i > 0 && recent[i - 1].timeout
        invariant 0 <= i <= |recent|
        invariant consecutiveTimeouts + TrailingTimeouts(recent[..i]) == TrailingTimeouts(recent)
      {
        assert recent[..i][..i - 1] == recent[..i - 1];
        consecutiveTimeouts := consecutiveTimeouts + 1;
        i := i - 1;
      }

      var isDown := w5.successRate < DEGRADED_MIN_SR || consecutiveTimeouts >= CONSECUTIVE_TIMEOUT_THRESHOLD;
      var isDegraded := w5.successRate < HEALTHY_MIN_SR || w1.successRate < DEGRADED_MIN_SR;
      var state;
      if w5.total < MIN_EVENTS_FOR_CLASSIFICATION {
        state := Healthy;
      } else if isDown {
        state := Down;
      } else if isDegraded {
        state := Degraded;
      } else {
        state := Healthy;
      }
      snapshot := Snapshot(railId, state, w1, w5, w15);
      SnapshotReports(railId, log, ref);
    }

    /** What an operator reads from the pruned log is what the full history would have shown, as long as no outcome
        was recorded more than ten minutes late. */
    lemma SnapshotIsFaithful(railId: string, ref: real)
      requires Valid()
      requires forall e :: e in HistoryOf(railId) ==> ref >= e.stamp - 2700.0
      requires AtMostLate(HistoryOf(railId), 600.0)
      ensures SnapshotOf(railId, EventsOf(railId), ref) == SnapshotOf(railId, HistoryOf(railId), ref)
    {
      NothingRecorded();
      SnapshotSurvives(railId, HistoryOf(railId), 600.0, 2700.0, ref);
    }
  }

  // ---- selections -----------------------------------------------------------

  lemma {:induction false} SameSelection(events: seq<Event>, p: Event -> bool, q: Event -> bool)
    requires forall e :: e in events ==> p(e) == q(e)
    ensures Select(events, p) == Select(events, q)
  {
    if events != [] {
      SameSelection(events[1..], p, q);
    }
  }

  lemma {:induction false} SelectConcat(a: seq<Event>, b: seq<Event>, p: Event -> bool)
    ensures Select(a + b, p) == Select(a, p) + Select(b, p)
  {
    if a == [] {
      assert a + b == b;
    } else {
      SelectConcat(a[1..], b, p);
      assert (a + b)[0] == a[0] && (a + b)[1..] == a[1..] + b;
    }
  }

  lemma {:induction false} SelectMembers(events: seq<Event>, p: Event -> bool)
    ensures forall e :: e in Select(events, p) <==> e in events && p(e)
  {
    if events != [] {
      SelectMembers(events[1..], p);
    }
  }

  lemma {:induction false} KeepsAll(events: seq<Event>, p: Event -> bool)
    requires forall e :: e in events ==> p(e)
    ensures Select(events, p) == events
  {
    if events != [] {
      KeepsAll(events[1..], p);
    }
  }

  lemma {:induction false} KeepsNone(events: seq<Event>, p: Event -> bool)
    requires forall e :: e in events ==> !p(e)
    ensures Select(events, p) == []
  {
    if events != [] {
      KeepsNone(events[1..], p);
    }
  }

  lemma IgnoresTail(events: seq<Event>, tail: seq<Event>, p: Event -> bool)
    requires forall e :: e in tail ==> !p(e)
    ensures Select(events + tail, p) == Select(events, p)
  {
    SelectConcat(events, tail, p);
    KeepsNone(tail, p);
  }

  /** A filter that already rejects what another drops does not notice the other one. */
  lemma {:induction false} SelectThroughSelect(events: seq<Event>, wide: Event -> bool, narrow: Event -> bool)
    requires forall e :: e in events && narrow(e) ==> wide(e)
    ensures Select(Select(events, wide), narrow) == Select(events, narrow)
  {
    if events != [] {
      SelectThroughSelect(events[1..], wide, narrow);
      var head := if wide(events[0]) then [events[0]] else [];
      SelectConcat(head, Select(events[1..], wide), narrow);
      assert head != [] ==> head[1..] == [];
    }
  }

  // ---- what a snapshot says, by counting --------------------------------------

  /** The places of the log that are stamped within so many seconds before a time. */
  ghost function Within(events: seq<Event>, seconds: nat, ref: real): set<nat> {
    set i: nat | i < |events| && ref - seconds as real <= events[i].stamp <= ref
  }

  ghost function SuccessesWithin(events: seq<Event>, seconds: nat, ref: real): set<nat> {
    set i: nat | i < |events| && ref - seconds as real <= events[i].stamp <= ref && events[i].success
  }

  ghost function TimeoutsWithin(events: seq<Event>, seconds: nat, ref: real): set<nat> {
    set i: nat | i < |events| && ref - seconds as real <= events[i].stamp <= ref && events[i].timeout
  }

  /** The places from `j` on that are stamped no later than a time. */
  ghost function RecentFrom(events: seq<Event>, j: nat, ref: real): set<nat> {
    set i: nat | j <= i < |events| && events[i].stamp <= ref
  }

  /** The last three outcomes recorded, of those stamped no later than the reference time, are timeouts. */
  ghost predicate ThreeTimeouts(events: seq<Event>, ref: real) {
    exists j: nat ::
      |RecentFrom(events, j, ref)| == 3 && forall i :: i in RecentFrom(events, j, ref) ==> events[i].timeout
  }

  /** The kept places of a selection. */
  ghost function Places(events: seq<Event>, p: Event -> bool): set<nat> {
    set i: nat | i < |events| && p(events[i])
  }

  lemma {:induction false} SelectCounts(events: seq<Event>, p: Event -> bool)
    ensures |Select(events, p)| == |Places(events, p)|
  {
    if events == [] {
      assert Places(events, p) == {};
    } else {
      hide Select, Places;
      var n := |events| - 1;
      SelectCounts(events[..n], p);
      assert events == events[..n] + [events[n]];
      SelectConcat(events[..n], [events[n]], p);
      SelectOne(events[n], p);
      PlacesNext(events[..n], events[n], p);
    }
  }

  lemma PlacesNext(events: seq<Event>, e: Event, p: Event -> bool)
    ensures |Places(events + [e], p)| == |Places(events, p)| + if p(e) then 1 else 0
  {
    var n := |events|;
    assert Places(events + [e], p) == Places(events, p) + if p(e) then {n} else {};
  }

  lemma RecentNext(events: seq<Event>, e: Event, j: nat, ref: real)
    requires j <= |events|
    ensures |RecentFrom(events + [e], j, ref)| == |RecentFrom(events, j, ref)| + if e.stamp <= ref then 1 else 0
  {
    var n := |events|;
    assert RecentFrom(events + [e], j, ref) == RecentFrom(events, j, ref) + if e.stamp <= ref then {n} else {};
  }

  lemma SelectOne(e: Event, p: Event -> bool)
    ensures Select([e], p) == if p(e) then [e] else []
  {
    assert [e][1..] == [];
  }

  lemma {:induction false} SelectTwice(events: seq<Event>, p: Event -> bool, q: Event -> bool, both: Event -> bool)
    requires forall e :: both(e) <==> p(e) && q(e)
    ensures Select(Select(events, p), q) == Select(events, both)
  {
    if events != [] {
      SelectTwice(events[1..], p, q, both);
      if p(events[0]) {
        assert ([events[0]] + Select(events[1..], p))[1..] == Select(events[1..], p);
      }
    }
  }

  /** A window's numbers are those of its outcomes: its counts, the shares of successes and timeouts, and the failures
      a minute. An empty one has all successes. */
  ghost predicate Counts(w: WindowStats, events: seq<Event>, seconds: nat, minutes: real, ref: real) {
    && w.windowSeconds == seconds
    && w.total == |Within(events, seconds, ref)|
    && w.successes == |SuccessesWithin(events, seconds, ref)|
    && w.timeouts == |TimeoutsWithin(events, seconds, ref)|
    && w.failures == w.total - w.successes
    && w.successRate * w.total as real == w.successes as real
    && w.timeoutRatio * w.total as real == w.timeouts as real
    && w.failureVelocity * minutes == w.failures as real
    && (w.total == 0 ==> w.successRate == 1.0 && w.timeoutRatio == 0.0)
  }

  lemma WindowCounts(events: seq<Event>, seconds: nat, minutes: real, ref: real)
    requires (seconds, minutes) in {(60, 1.0), (300, 5.0), (900, 15.0)}
    ensures Counts(Window(events, seconds, ref), events, seconds, minutes, ref)
  {
    SizesAre(events, seconds, ref);
    hide Select;
    Quotient(|SuccessesWithin(events, seconds, ref)| as real, |Within(events, seconds, ref)| as real);
    Quotient(|TimeoutsWithin(events, seconds, ref)| as real, |Within(events, seconds, ref)| as real);
    hide Within, SuccessesWithin, TimeoutsWithin;
  }

  lemma Quotient(x: real, y: real)
    ensures y != 0.0 ==> x / y * y == x
  {
  }

  lemma SizesAre(events: seq<Event>, seconds: nat, ref: real)
    ensures var chosen := Select(events, InWindow(seconds, ref));
            && |chosen| == |Within(events, seconds, ref)|
            && |Select(chosen, Succeeded())| == |SuccessesWithin(events, seconds, ref)| <= |chosen|
            && |Select(chosen, TimedOut())| == |TimeoutsWithin(events, seconds, ref)| <= |chosen|
  {
    var p := InWindow(seconds, ref);
    var success: Event -> bool := e => p(e) && e.success;
    var timeout: Event -> bool := e => p(e) && e.timeout;
    SelectTwice(events, p, Succeeded(), success);
    SelectTwice(events, p, TimedOut(), timeout);
    SelectCounts(events, p);
    SelectCounts(events, success);
    SelectCounts(events, timeout);
    hide Select;
    assert Places(events, p) == Within(events, seconds, ref);
    assert Places(events, success) == SuccessesWithin(events, seconds, ref);
    assert Places(events, timeout) == TimeoutsWithin(events, seconds, ref);
    FewerPlaces(SuccessesWithin(events, seconds, ref), Within(events, seconds, ref));
    FewerPlaces(TimeoutsWithin(events, seconds, ref), Within(events, seconds, ref));
  }

  /** Trailing timeouts of the recent outcomes, told without selecting them. */
  lemma ThreeTimeoutsIff(events: seq<Event>, ref: real)
    ensures TrailingTimeouts(Select(events, Recent(ref))) >= 3 <==> ThreeTimeouts(events, ref)
  {
    hide Select, TrailingTimeouts;
    if |Select(events, Recent(ref))| >= 3 {
      var j := LastFew(events, Recent(ref), 3);
      LateThree(events, j, ref);
      forall k: nat | |RecentFrom(events, k, ref)| == 3
        ensures RecentFrom(events, k, ref) == RecentFrom(events, j, ref) {
        SameSuffix(events, j, k, ref);
      }
    } else {
      TrailingThree(Select(events, Recent(ref)));
      SelectCounts(events, Recent(ref));
      forall k: nat ensures |RecentFrom(events, k, ref)| < 3 {
        FewerPlaces(RecentFrom(events, k, ref), Places(events, Recent(ref)));
      }
    }
  }

  lemma LateThree(events: seq<Event>, j: nat, ref: real)
    requires j <= |events| && |Select(events[j..], Recent(ref))| == 3
    ensures |RecentFrom(events, j, ref)| == 3
    ensures TrailingTimeouts(Select(events, Recent(ref))) >= 3 <==>
            forall i :: i in RecentFrom(events, j, ref) ==> events[i].timeout
  {
    hide Select, TrailingTimeouts;
    var early, late := events[..j], events[j..];
    var tail := Select(late, Recent(ref));
    assert events == early + late;
    SelectConcat(early, late, Recent(ref));
    TailDecides(Select(early, Recent(ref)), tail);
    TrailingThree(tail);
    SelectCounts(late, Recent(ref));
    Shifted(events, j, ref);
    SelectMembers(late, Recent(ref));
    assert (forall e :: e in tail ==> e.timeout) <==> tail[0].timeout && tail[1].timeout && tail[2].timeout;
    forall i | i in RecentFrom(events, j, ref) ensures events[i] in tail {
      assert late[i - j] == events[i];
    }
    forall e | e in tail ensures exists i :: i in RecentFrom(events, j, ref) && events[i] == e {
      var k :| 0 <= k < |late| && late[k] == e;
      assert j + k in RecentFrom(events, j, ref) && events[j + k] == e;
    }
  }

  /** As many places in the late part as from there on in the whole. */
  lemma {:induction false} Shifted(events: seq<Event>, j: nat, ref: real)
    requires j <= |events|
    ensures |Places(events[j..], Recent(ref))| == |RecentFrom(events, j, ref)|
  {
    if j == |events| {
      assert Places(events[j..], Recent(ref)) == {} && RecentFrom(events, j, ref) == {};
    } else {
      var n := |events| - 1;
      var front, e := events[..n], events[n];
      Shifted(front, j, ref);
      assert events == front + [e] && events[j..] == front[j..] + [e];
      PlacesNext(front[j..], e, Recent(ref));
      RecentNext(front, e, j, ref);
    }
  }

  lemma FewerPlaces(a: set<nat>, b: set<nat>)
    requires a <= b
    ensures |a| <= |b|
    ensures |a| == |b| ==> a == b
  {
    assert b == a + (b - a);
  }

  lemma SameSuffix(events: seq<Event>, j: nat, k: nat, ref: real)
    requires |RecentFrom(events, j, ref)| == |RecentFrom(events, k, ref)|
    ensures RecentFrom(events, j, ref) == RecentFrom(events, k, ref)
  {
    var a, b := RecentFrom(events, j, ref), RecentFrom(events, k, ref);
    if j <= k {
      assert b <= a;
      FewerPlaces(b, a);
    } else {
      assert a <= b;
      FewerPlaces(a, b);
    }
  }

  /** A rail with fewer than five outcomes in the last five minutes is healthy. Another is down exactly if fewer than
      seven in ten of them succeeded or the last three outcomes are timeouts; if not, it is degraded exactly if fewer
      than 95 in a hundred succeeded, or fewer than seven in ten of the last minute's outcomes, of which there are
      some. */
  ghost predicate Classified(state: RailState, events: seq<Event>, ref: real) {
    var n5, s5 := |Within(events, 300, ref)|, |SuccessesWithin(events, 300, ref)|;
    var n1, s1 := |Within(events, 60, ref)|, |SuccessesWithin(events, 60, ref)|;
    var down := n5 >= 5 && (10 * s5 < 7 * n5 || ThreeTimeouts(events, ref));
    var degraded := n5 >= 5 && (100 * s5 < 95 * n5 || 10 * s1 < 7 * n1);
    && (state == Down <==> down)
    && (state == Degraded <==> !down && degraded)
  }

  lemma StateIsClassified(events: seq<Event>, ref: real)
    ensures Classified(StateAt(events, ref), events, ref)
  {
    hide Window, TrailingTimeouts, Select;
    var w1, w5 := Window(events, 60, ref), Window(events, 300, ref);
    WindowCounts(events, 60, 1.0, ref);
    WindowCounts(events, 300, 5.0, ref);
    ThreeTimeoutsIff(events, ref);
    Share(w5.successRate, w5.successes, w5.total, 7, 10);
    Share(w5.successRate, w5.successes, w5.total, 95, 100);
    Share(w1.successRate, w1.successes, w1.total, 7, 10);
    assert SuccessesWithin(events, 60, ref) <= Within(events, 60, ref);
    hide ThreeTimeouts, Within, SuccessesWithin;
  }

  /** A share below so many of so many. */
  lemma Share(rate: real, successes: nat, total: nat, a: nat, b: nat)
    requires rate * total as real == successes as real && b > 0
    ensures total > 0 ==> (rate < a as real / b as real <==> b * successes < a * total)
  {
    if total > 0 {
      var q, t := a as real / b as real, total as real;
      assert q * b as real == a as real;
      assert (b * successes) as real == b as real * (rate * t);
      assert (a * total) as real == b as real * (q * t);
      Compare(rate, q, t, b as real);
    }
  }

  lemma Compare(x: real, y: real, t: real, b: real)
    requires t > 0.0 && b > 0.0
    ensures x < y <==> b * (x * t) < b * (y * t)
  {
    var k := b * t;
    assert k > 0.0;
    assert b * (x * t) == x * k && b * (y * t) == y * k;
    if x < y {
      assert (y - x) * k > 0.0;
    } else {
      assert (x - y) * k >= 0.0;
    }
  }

  /** Had an outcome been a success, the state would be no worse. */
  lemma SuccessNeverWorsens(events: seq<Event>, i: nat, ref: real)
    requires i < |events|
    ensures var better := events[i := Event(events[i].stamp, true, false)];
            && (StateAt(events, ref) == Healthy ==> StateAt(better, ref) == Healthy)
            && (StateAt(events, ref) == Degraded ==> StateAt(better, ref) != Down)
  {
    hide StateAt;
    var better := events[i := Event(events[i].stamp, true, false)];
    StateIsClassified(events, ref);
    StateIsClassified(better, ref);
    MoreSucceed(events, i, 300, ref);
    MoreSucceed(events, i, 60, ref);
    if ThreeTimeouts(better, ref) {
      var j: nat :| |RecentFrom(better, j, ref)| == 3 && forall k :: k in RecentFrom(better, j, ref) ==>
            better[k].timeout;
      assert RecentFrom(better, j, ref) == RecentFrom(events, j, ref);
    }
    hide ThreeTimeouts, Within, SuccessesWithin;
  }

  lemma MoreSucceed(events: seq<Event>, i: nat, seconds: nat, ref: real)
    requires i < |events|
    ensures var better := events[i := Event(events[i].stamp, true, false)];
            && Within(better, seconds, ref) == Within(events, seconds, ref)
            && |SuccessesWithin(better, seconds, ref)| >= |SuccessesWithin(events, seconds, ref)|
  {
    var better := events[i := Event(events[i].stamp, true, false)];
    assert SuccessesWithin(events, seconds, ref) <= SuccessesWithin(better, seconds, ref);
    FewerPlaces(SuccessesWithin(events, seconds, ref), SuccessesWithin(better, seconds, ref));
  }

  /** All of it, for a snapshot. */
  ghost predicate Reports(snapshot: Snapshot, railId: string, events: seq<Event>, ref: real) {
    && snapshot.railId == railId
    && Classified(snapshot.state, events, ref)
    && Counts(snapshot.oneMinute, events, 60, 1.0, ref)
    && Counts(snapshot.fiveMinutes, events, 300, 5.0, ref)
    && Counts(snapshot.fifteenMinutes, events, 900, 15.0, ref)
  }

  lemma SnapshotReports(railId: string, events: seq<Event>, ref: real)
    ensures Reports(SnapshotOf(railId, events, ref), railId, events, ref)
  {
    hide StateAt, Window, Classified, Counts;
    StateIsClassified(events, ref);
    WindowCounts(events, 60, 1.0, ref);
    WindowCounts(events, 300, 5.0, ref);
    WindowCounts(events, 900, 15.0, ref);
  }

  // ---- pruning refines the full history -------------------------------------

  lemma NothingRecorded()
    ensures PrunedLog([]) == []
  {
  }

  lemma RecordOne(history: seq<Event>, e: Event)
    ensures PrunedLog(history + [e]) == Append(PrunedLog(history), e)
  {
    assert (history + [e])[..|history|] == history;
  }

  /** Anything a reader asks about the last hour before the latest stamp survives, in order. */
  lemma {:induction false} RetainedSurvive(history: seq<Event>, p: Event -> bool)
    requires forall x, e :: x in history && e in history && p(e) ==> e.stamp >= x.stamp - RETENTION
    ensures Select(PrunedLog(history), p) == Select(history, p)
  {
    if history != [] {
      var n := |history| - 1;
      var before, e := history[..n], history[n];
      assert history == before + [e];
      RetainedSurvive(before, p);
      PrunedMembers(before);
      SelectThroughSelect(PrunedLog(before) + [e], NotBefore(e.stamp - RETENTION), p);
      assert PrunedLog(history) == Select(PrunedLog(before) + [e], NotBefore(e.stamp - RETENTION));
      SelectConcat(PrunedLog(before), [e], p);
      SelectConcat(before, [e], p);
    }
  }

  lemma {:induction false} PrunedMembers(history: seq<Event>)
    ensures forall e :: e in PrunedLog(history) ==> e in history
  {
    if history != [] {
      var n := |history| - 1;
      PrunedMembers(history[..n]);
      SelectMembers(PrunedLog(history[..n]) + [history[n]], NotBefore(history[n].stamp - RETENTION));
    }
  }

  /** No stamp lies more than so far behind an earlier one. */
  ghost predicate AtMostLate(events: seq<Event>, lateness: real) {
    forall i, j :: 0 <= i < j < |events| ==> events[j].stamp >= events[i].stamp - lateness
  }

  /** The reference time is no further than so far behind the latest stamp. */
  ghost predicate Reaches(events: seq<Event>, back: real, ref: real) {
    forall e :: e in events ==> ref >= e.stamp - back
  }

  /** A window agrees with that of the unpruned history as long as it does not begin more than the retention before
      the latest stamp, in whatever order the stamps arrived. */
  lemma WindowsSurvivePruning(history: seq<Event>, seconds: nat, back: real, ref: real)
    requires Reaches(history, back, ref) && back + seconds as real <= RETENTION
    ensures Select(PrunedLog(history), InWindow(seconds, ref)) == Select(history, InWindow(seconds, ref))
    ensures Window(PrunedLog(history), seconds, ref) == Window(history, seconds, ref)
  {
    hide Stats, PrunedLog;
    RetainedSurvive(history, InWindow(seconds, ref));
  }

  /** Once the latest stamp is written, what is left is what it leaves. */
  lemma LatestPrunes(history: seq<Event>, e: Event)
    requires forall x :: x in history ==> x.stamp <= e.stamp
    ensures PrunedLog(history + [e]) == Select(history + [e], NotBefore(e.stamp - RETENTION))
  {
    hide Select, PrunedLog;
    var p := NotBefore(e.stamp - RETENTION);
    RecordOne(history, e);
    assert Append(PrunedLog(history), e) == Select(PrunedLog(history) + [e], p);
    RetainedSurvive(history, p);
    SelectConcat(PrunedLog(history), [e], p);
    SelectConcat(history, [e], p);
  }

  /** An outcome at the edge of a window that begins too early, and the write that drops it. */
  lemma WindowEdgeIsDropped(seconds: nat, back: real) returns (history: seq<Event>)
    requires back + seconds as real > RETENTION
    ensures Reaches(history, back, 0.0) && AtMostLate(history, 0.0)
    ensures Window(PrunedLog(history), seconds, 0.0) != Window(history, seconds, 0.0)
  {
    var edge, last := Event(-(seconds as real), true, false), Event(back, true, false);
    history := [edge] + [last];
    LatestPrunes([edge], last);
    var p, q := NotBefore(back - RETENTION), InWindow(seconds, 0.0);
    hide Select, PrunedLog;
    SelectConcat([edge], [last], p);
    KeepsNone([edge], p);
    KeepsAll([last], p);
    SelectConcat([edge], [last], q);
    KeepsAll([edge], q);
    assert PrunedLog(history) == [last];
    assert Window(history, seconds, 0.0).total == Window([last], seconds, 0.0).total + 1;
  }

  /** All histories keep a window at every reference time so far behind their latest stamp exactly when the two
      lengths fit in the retention: for the fifteen-minute window, up to 2700 seconds. */
  lemma WindowsSurviveIff(seconds: nat, back: real)
    ensures (forall history, ref :: Reaches(history, back, ref) ==>
               Window(PrunedLog(history), seconds, ref) == Window(history, seconds, ref)) <==>
            back + seconds as real <= RETENTION
  {
    hide Reaches, Window, PrunedLog;
    if back + seconds as real <= RETENTION {
      forall history, ref | Reaches(history, back, ref)
        ensures Window(PrunedLog(history), seconds, ref) == Window(history, seconds, ref)
      {
        WindowsSurvivePruning(history, seconds, back, ref);
      }
    } else {
      var history := WindowEdgeIsDropped(seconds, back);
      assert Reaches(history, back, 0.0);
    }
  }

  /** Three in a row at the end is decided by the last three entries. */
  lemma TrailingThree(events: seq<Event>)
    ensures TrailingTimeouts(events) >= 3 <==>
              |events| >= 3 && events[|events| - 1].timeout && events[|events| - 2].timeout &&
                  events[|events| - 3].timeout
  {
    if |events| >= 3 {
      assert TrailingTimeouts(events[..|events| - 1][..|events| - 2][..|events| - 3]) >= 0;
    }
  }

  lemma TailDecides(cut: seq<Event>, tail: seq<Event>)
    requires |tail| >= 3
    ensures TrailingTimeouts(cut + tail) >= 3 <==> TrailingTimeouts(tail) >= 3
  {
    TrailingThree(tail);
    TrailingThree(cut + tail);
  }

  lemma RecentCoversWindow(events: seq<Event>, ref: real)
    ensures Window(events, 300, ref).total <= |Select(events, Recent(ref))|
  {
    SelectThroughSelect(events, Recent(ref), InWindow(300, ref));
    SelectNoLonger(Select(events, Recent(ref)), InWindow(300, ref));
  }

  /** From some place on a history has just so many of the events asked for. */
  lemma {:induction false} LastFew(events: seq<Event>, p: Event -> bool, few: nat) returns (j: nat)
    requires |Select(events, p)| >= few
    ensures j <= |events| && |Select(events[j..], p)| == few
  {
    if |Select(events, p)| == few {
      j := 0;
    } else {
      var k := LastFew(events[1..], p, few);
      j := k + 1;
      assert events[1..][k..] == events[j..];
    }
  }

  /** Pruning a history prunes its two parts, and leaves in the second whatever is asked for that the whole history
      leaves within the retention. */
  lemma {:induction false} PruningSplits(early: seq<Event>, late: seq<Event>, p: Event -> bool)
    returns (a: seq<Event>, b: seq<Event>)
    requires forall x, e :: x in early + late && e in late && p(e) ==> e.stamp >= x.stamp - RETENTION
    ensures PrunedLog(early + late) == a + b && Select(b, p) == Select(late, p)
    ensures forall e :: e in b ==> e in late
  {
    if late == [] {
      a, b := PrunedLog(early), [];
      assert early + late == early;
    } else {
      hide Select, PrunedLog;
      var n := |late| - 1;
      var before, e := late[..n], late[n];
      assert early + late == early + before + [e] && late == before + [e];
      var q := NotBefore(e.stamp - RETENTION);
      var a', b' := PruningSplits(early, before, p);
      a, b := Select(a', q), Select(b' + [e], q);
      AppendToParts(early + before, e, a', b');
      forall x | x in b' + [e] && p(x) ensures q(x) {
        assert x in late && e in early + late;
      }
      SplitNext(before, b', e, p, q);
    }
  }

  lemma AppendToParts(history: seq<Event>, e: Event, a: seq<Event>, b: seq<Event>)
    requires PrunedLog(history) == a + b
    ensures var q := NotBefore(e.stamp - RETENTION);
            PrunedLog(history + [e]) == Select(a, q) + Select(b + [e], q)
  {
    hide Select, PrunedLog;
    RecordOne(history, e);
    assert a + b + [e] == a + (b + [e]);
    SelectConcat(a, b + [e], NotBefore(e.stamp - RETENTION));
  }

  lemma SplitNext(late: seq<Event>, b: seq<Event>, e: Event, p: Event -> bool, q: Event -> bool)
    requires Select(b, p) == Select(late, p) && forall x :: x in b + [e] && p(x) ==> q(x)
    ensures Select(Select(b + [e], q), p) == Select(late + [e], p)
    ensures forall x :: x in Select(b + [e], q) ==> x in b + [e]
  {
    hide Select;
    SelectThroughSelect(b + [e], q, p);
    SelectConcat(b, [e], p);
    SelectConcat(late, [e], p);
    SelectMembers(b + [e], q);
  }

  /** If the five-minute window can classify the rail, the last three recent outcomes survive pruning: one that did
      not would lie behind an earlier one, in the window, by more than stamps do. */
  lemma TailSurvivesPruning(history: seq<Event>, lateness: real, back: real, ref: real)
    requires AtMostLate(history, lateness) && Reaches(history, back, ref) && back + lateness <= 3300.0
    requires |Select(history, InWindow(300, ref))| >= MIN_EVENTS_FOR_CLASSIFICATION
    ensures TrailingTimeouts(Select(PrunedLog(history), Recent(ref))) >= 3 <==>
            TrailingTimeouts(Select(history, Recent(ref))) >= 3
  {
    hide Select, PrunedLog, TrailingTimeouts;
    RecentCoversWindow(history, ref);
    var j := LastFew(history, Recent(ref), 3);
    var early, late := history[..j], history[j..];
    assert history == early + late;
    SelectConcat(early, late, InWindow(300, ref));
    RecentCoversWindow(late, ref);
    var w := Select(early, InWindow(300, ref))[0];
    SelectMembers(early, InWindow(300, ref));
    LateStampsSurvive(early, late, w, lateness, back, ref);
    var a, b := PruningSplits(early, late, Recent(ref));
    SelectConcat(a, b, Recent(ref));
    SelectConcat(early, late, Recent(ref));
    TailDecides(Select(a, Recent(ref)), Select(b, Recent(ref)));
    TailDecides(Select(early, Recent(ref)), Select(late, Recent(ref)));
  }

  lemma LateStampsSurvive(early: seq<Event>, late: seq<Event>, w: Event, lateness: real, back: real, ref: real)
    requires AtMostLate(early + late, lateness) && Reaches(early + late, back, ref) && back + lateness <= 3300.0
    requires w in early && w.stamp >= ref - 300.0
    ensures forall x, e :: x in early + late && e in late ==> e.stamp >= x.stamp - RETENTION
  {
    forall x, e | x in early + late && e in late ensures e.stamp >= x.stamp - RETENTION {
      var i :| 0 <= i < |early| && early[i] == w;
      var j :| 0 <= j < |late| && late[j] == e;
      assert (early + late)[i] == w && (early + late)[|early| + j] == e;
    }
  }

  /** The health state agrees too, as far back as the lateness of the stamps leaves of 3300 seconds. */
  lemma StateSurvivesPruning(history: seq<Event>, lateness: real, back: real, ref: real)
    requires lateness >= 0.0 && back + lateness <= 3300.0
    requires AtMostLate(history, lateness) && Reaches(history, back, ref)
    ensures StateAt(PrunedLog(history), ref) == StateAt(history, ref)
  {
    hide Stats, Select, PrunedLog, StateAt, AtMostLate, Reaches;
    WindowsSurvivePruning(history, 60, back, ref);
    WindowsSurvivePruning(history, 300, back, ref);
    if |Select(history, InWindow(300, ref))| >= MIN_EVENTS_FOR_CLASSIFICATION {
      TailSurvivesPruning(history, lateness, back, ref);
    }
    SameState(PrunedLog(history), history, ref);
  }

  lemma SnapshotSurvives(railId: string, history: seq<Event>, lateness: real, back: real, ref: real)
    requires lateness >= 0.0 && back <= 2700.0 && back + lateness <= 3300.0
    requires AtMostLate(history, lateness) && Reaches(history, back, ref)
    ensures SnapshotOf(railId, PrunedLog(history), ref) == SnapshotOf(railId, history, ref)
  {
    hide Window, PrunedLog, StateAt, AtMostLate, Reaches;
    WindowsSurvivePruning(history, 60, back, ref);
    WindowsSurvivePruning(history, 300, back, ref);
    WindowsSurvivePruning(history, 900, back, ref);
    StateSurvivesPruning(history, lateness, back, ref);
  }

  lemma SameState(a: seq<Event>, b: seq<Event>, ref: real)
    requires Select(a, InWindow(60, ref)) == Select(b, InWindow(60, ref))
    requires Select(a, InWindow(300, ref)) == Select(b, InWindow(300, ref))
    requires |Select(a, InWindow(300, ref))| >= MIN_EVENTS_FOR_CLASSIFICATION ==>
               (TrailingTimeouts(Select(a, Recent(ref))) >= 3 <==> TrailingTimeouts(Select(b, Recent(ref))) >= 3)
    ensures StateAt(a, ref) == StateAt(b, ref)
  {
    hide Select, TrailingTimeouts;
  }

  lemma {:induction false} SelectNoLonger(events: seq<Event>, p: Event -> bool)
    ensures |Select(events, p)| <= |events|
  {
    if events != [] {
      SelectNoLonger(events[1..], p);
    }
  }

  // ---- point-in-time correctness --------------------------------------------

  /** Outcomes stamped after the reference time do not change what its windows say. */
  lemma LaterOutcomesLeaveWindows(history: seq<Event>, later: seq<Event>, seconds: nat, back: real, ref: real)
    requires Reaches(history + later, back, ref) && back + seconds as real <= RETENTION
    requires forall e :: e in later ==> e.stamp > ref
    ensures Window(PrunedLog(history + later), seconds, ref) == Window(PrunedLog(history), seconds, ref)
  {
    hide Stats, PrunedLog;
    WindowsSurvivePruning(history, seconds, back, ref);
    WindowsSurvivePruning(history + later, seconds, back, ref);
    IgnoresTail(history, later, InWindow(seconds, ref));
  }

  /** Nor the health state. */
  lemma LaterOutcomesLeaveState(history: seq<Event>, later: seq<Event>, lateness: real, back: real, ref: real)
    requires lateness >= 0.0 && back + lateness <= 3300.0
    requires AtMostLate(history + later, lateness) && Reaches(history + later, back, ref)
    requires forall e :: e in later ==> e.stamp > ref
    ensures StateAt(PrunedLog(history + later), ref) == StateAt(PrunedLog(history), ref)
  {
    hide Stats, PrunedLog;
    assert AtMostLate(history, lateness) by {
      forall i, j | 0 <= i < j < |history| ensures history[j].stamp >= history[i].stamp - lateness {
        assert (history + later)[i] == history[i] && (history + later)[j] == history[j];
      }
    }
    StateSurvivesPruning(history, lateness, back, ref);
    StateSurvivesPruning(history + later, lateness, back, ref);
    IgnoresTail(history, later, InWindow(60, ref));
    IgnoresTail(history, later, InWindow(300, ref));
    IgnoresTail(history, later, Recent(ref));
  }

  // ---- why lateness matters --------------------------------------------------

  function Success(stamp: real): Event {
    Event(stamp, true, false)
  }

  function Timeout(stamp: real): Event {
    Event(stamp, false, true)
  }

  /** Eight outcomes at the edge of the five-minute window before time nought, the last a timeout. */
  function Eight(): seq<Event> {
    seq(7, _ => Success(-300.0)) + [Timeout(-300.0)]
  }

  /** Timeouts, of which two are recent, up to the latest stamp. */
  function Rest(back: real): seq<Event> {
    if back > 0.0 then [Timeout(-300.0), Timeout(-300.0)] + [Timeout(back)] else [Timeout(-300.0)] + [Timeout(back)]
  }

  function RecentRest(back: real): seq<Event> {
    if back > 0.0 then [Timeout(-300.0), Timeout(-300.0)] else [Timeout(-300.0), Timeout(back)]
  }

  /** A success that comes late stands between three timeouts, until the latest write drops it. */
  function LateHistory(lateness: real, back: real): seq<Event> {
    Eight() + [Success(-300.0 - lateness)] + Rest(back)
  }

  lemma LateHistoryIsLate(lateness: real, back: real)
    requires lateness >= 0.0 && back >= 0.0
    ensures AtMostLate(LateHistory(lateness, back), lateness) && Reaches(LateHistory(lateness, back), back, 0.0)
  {
    var h := LateHistory(lateness, back);
    assert forall i :: 0 <= i < |h| ==>
             h[i].stamp == (if i == 8 then -300.0 - lateness else if i == |h| - 1 then back else -300.0);
  }

  lemma LateHistoryIsPruned(lateness: real, back: real)
    requires lateness >= 0.0 && 0.0 <= back <= 3300.0 < back + lateness
    ensures PrunedLog(LateHistory(lateness, back)) == Eight() + Rest(back)
  {
    hide Select, PrunedLog;
    var h := LateHistory(lateness, back);
    var p := NotBefore(back - RETENTION);
    assert h == h[..|h| - 1] + [Timeout(back)];
    assert forall e :: e in h ==> e.stamp <= back;
    LatestPrunes(h[..|h| - 1], Timeout(back));
    DropsStale(Eight(), Success(-300.0 - lateness), Rest(back), p);
  }

  lemma RestRecent(back: real, p: Event -> bool)
    requires 0.0 <= back && p(Timeout(-300.0)) && (p(Timeout(back)) <==> back == 0.0)
    ensures Select(Rest(back), p) == RecentRest(back)
  {
    hide Select;
    if back > 0.0 {
      SelectConcat([Timeout(-300.0), Timeout(-300.0)], [Timeout(back)], p);
      KeepsAll([Timeout(-300.0), Timeout(-300.0)], p);
      KeepsNone([Timeout(back)], p);
    } else {
      KeepsAll(Rest(back), p);
    }
  }

  lemma LateWindows(lateness: real, back: real)
    requires lateness > 0.0 && back >= 0.0
    ensures Select(LateHistory(lateness, back), InWindow(300, 0.0)) == Eight() + RecentRest(back)
    ensures Select(Eight() + Rest(back), InWindow(300, 0.0)) == Eight() + RecentRest(back)
    ensures Select(LateHistory(lateness, back), Recent(0.0)) ==
            Eight() + [Success(-300.0 - lateness)] + RecentRest(back)
    ensures Select(Eight() + Rest(back), Recent(0.0)) == Eight() + RecentRest(back)
  {
    hide Select;
    var w, r := InWindow(300, 0.0), Recent(0.0);
    RestRecent(back, w);
    RestRecent(back, r);
    KeepsAll(Eight(), w);
    KeepsAll(Eight(), r);
    KeepsNone([Success(-300.0 - lateness)], w);
    KeepsAll([Success(-300.0 - lateness)], r);
    SelectConcat(Eight(), Rest(back), w);
    SelectConcat(Eight(), Rest(back), r);
    SelectConcat(Eight(), [Success(-300.0 - lateness)], w);
    SelectConcat(Eight(), [Success(-300.0 - lateness)], r);
    SelectConcat(Eight() + [Success(-300.0 - lateness)], Rest(back), w);
    SelectConcat(Eight() + [Success(-300.0 - lateness)], Rest(back), r);
  }

  lemma SevenSucceed(back: real)
    ensures |Eight() + RecentRest(back)| == 10 && |Select(Eight() + RecentRest(back), Succeeded())| == 7
  {
    hide Select;
    var all := Eight() + RecentRest(back);
    assert all == all[..7] + all[7..];
    SelectConcat(all[..7], all[7..], Succeeded());
    KeepsAll(all[..7], Succeeded());
    KeepsNone(all[7..], Succeeded());
  }

  /** Three timeouts that were not consecutive read as consecutive: the pruned log says DOWN where the history says
      DEGRADED. */
  lemma LateHistoryDiffers(lateness: real, back: real)
    requires lateness > 0.0 && 0.0 <= back <= 3300.0 < back + lateness
    ensures StateAt(LateHistory(lateness, back), 0.0) == Degraded
    ensures StateAt(PrunedLog(LateHistory(lateness, back)), 0.0) == Down
  {
    LateHistoryIsPruned(lateness, back);
    LateWindows(lateness, back);
    SevenSucceed(back);
    hide Select, PrunedLog, LateHistory, Rest;
    TrailingThree(Eight() + RecentRest(back));
    TrailingThree(Eight() + [Success(-300.0 - lateness)] + RecentRest(back));
  }

  /** Five failures at the edge of the window, and the write that drops them: DOWN reads as HEALTHY. */
  lemma FailuresAreDropped(back: real) returns (history: seq<Event>)
    requires back > 3300.0
    ensures AtMostLate(history, 0.0) && Reaches(history, back, 0.0)
    ensures StateAt(history, 0.0) == Down && StateAt(PrunedLog(history), 0.0) == Healthy
  {
    var failure, last := Event(-300.0, false, false), Success(back);
    var five := [failure, failure, failure, failure, failure];
    history := five + [last];
    hide Select, PrunedLog, TrailingTimeouts, StateAt;
    LatestPrunes(five, last);
    Parted(five, last, NotBefore(back - RETENTION));
    OnlyFailures(five, last);
  }

  lemma Parted(a: seq<Event>, e: Event, p: Event -> bool)
    requires p(e) && forall x :: x in a ==> !p(x)
    ensures Select(a + [e], p) == [e]
  {
    hide Select;
    SelectConcat(a, [e], p);
    KeepsNone(a, p);
    KeepsAll([e], p);
  }

  lemma OnlyFailures(five: seq<Event>, last: Event)
    requires |five| == 5 && last.stamp > 0.0
    requires forall e :: e in five ==> !e.success && -300.0 <= e.stamp <= 0.0
    ensures StateAt(five + [last], 0.0) == Down && StateAt([last], 0.0) == Healthy
  {
    hide Select, TrailingTimeouts;
    var w := InWindow(300, 0.0);
    KeepsNone([last], w);
    SelectConcat(five, [last], w);
    KeepsAll(five, w);
    KeepsNone(five, Succeeded());
    assert Select(five + [last], w) == five;
  }

  /** Over histories with stamps at most so late, pruning keeps the health state at every reference time so far
      behind the latest stamp, exactly when the two add up to no more than 3300 seconds. */
  lemma StateSurvivesIff(lateness: real, back: real)
    requires lateness >= 0.0 && back >= 0.0
    ensures (forall history, ref :: AtMostLate(history, lateness) && Reaches(history, back, ref) ==>
               StateAt(PrunedLog(history), ref) == StateAt(history, ref)) <==>
            back + lateness <= 3300.0
  {
    hide AtMostLate, Reaches, StateAt, PrunedLog;
    if back + lateness <= 3300.0 {
      forall history, ref | AtMostLate(history, lateness) && Reaches(history, back, ref)
        ensures StateAt(PrunedLog(history), ref) == StateAt(history, ref)
      {
        StateSurvivesPruning(history, lateness, back, ref);
      }
    } else if back > 3300.0 {
      var history := FailuresAreDropped(back);
      EarlierIsLate(history, lateness);
      assert Reaches(history, back, 0.0);
    } else {
      var history := LateHistory(lateness, back);
      LateHistoryIsLate(lateness, back);
      LateHistoryDiffers(lateness, back);
      assert Reaches(history, back, 0.0);
    }
  }

  lemma EarlierIsLate(history: seq<Event>, lateness: real)
    requires AtMostLate(history, 0.0) && lateness >= 0.0
    ensures AtMostLate(history, lateness)
  {
  }

  /** So a whole snapshot is faithful exactly when its widest window fits and the state does. */
  lemma SnapshotSurvivesIff(railId: string, lateness: real, back: real)
    requires lateness >= 0.0 && back >= 0.0
    ensures (forall history, ref :: AtMostLate(history, lateness) && Reaches(history, back, ref) ==>
               SnapshotOf(railId, PrunedLog(history), ref) == SnapshotOf(railId, history, ref)) <==>
            back <= 2700.0 && back + lateness <= 3300.0
  {
    hide AtMostLate, Reaches, StateAt, PrunedLog, Window;
    if back > 2700.0 {
      var history := WindowEdgeIsDropped(900, back);
      EarlierIsLate(history, lateness);
      assert Reaches(history, back, 0.0);
    } else if back + lateness <= 3300.0 {
      forall history, ref | AtMostLate(history, lateness) && Reaches(history, back, ref)
        ensures SnapshotOf(railId, PrunedLog(history), ref) == SnapshotOf(railId, history, ref)
      {
        SnapshotSurvives(railId, history, lateness, back, ref);
      }
    } else {
      StateSurvivesIff(lateness, back);
      var history, ref :| AtMostLate(history, lateness) && Reaches(history, back, ref)
                          && StateAt(PrunedLog(history), ref) != StateAt(history, ref);
    }
  }

  /** What lies between is dropped alone. */
  lemma DropsStale(a: seq<Event>, x: Event, b: seq<Event>, p: Event -> bool)
    requires !p(x) && (forall e :: e in a ==> p(e)) && (forall e :: e in b ==> p(e))
    ensures Select(a + [x] + b, p) == a + b
  {
    hide Select;
    KeepsNone([x], p);
    SelectConcat(a + [x], b, p);
    SelectConcat(a, [x], p);
    KeepsAll(a, p);
    KeepsAll(b, p);
  }
}
