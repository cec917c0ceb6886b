/** The customer lock: a key with a lease. */
module LeaseLock {
  // It is set only if absent, and deleted only by the token that set it.

  import opened Common

  /** What a Redis call comes back as. A lost reply leaves the caller not knowing that it was executed. */
  datatype Link = Answered | ReplyLost | Unreachable

  datatype Entry = Entry(token: string, expires: int)

  datatype Handle = Handle(key: string, token: string)

  /** One successful set: who, from when, for how long, and when a release deleted it, if one did. */
  datatype Grant = Grant(key: string, token: string, from: int, lease: int, released: Option<int>) {
    /** The first moment the grant no longer holds the key. */
    function End(): int {
      if released.Some? && released.value < from + lease then released.value else from + lease
    }
  }

  /** `grants` is the history of every set that took effect; `open` are the handles clients still hold. */
  datatype State = State(now: int, store: map<string, Entry>, open: set<Handle>, grants: seq<Grant>) {
    predicate Held(key: string) {
      key in store && now < store[key].expires
    }
  }

  function LockKey(merchant: string, customer: string): string {
    "lock:customer:" + merchant + ":" + customer
  }

  // ---- the two operations -----------------------------------------------------

  function Acquire(s: State, key: string, token: string, lease: int, link: Link): (State, Option<Handle>) {
    if link.Unreachable? || lease <= 0 || s.Held(key) then (s, None)
    else
      var taken := s.(store := s.store[key := Entry(token, s.now + lease)],
                     grants := s.grants + [Grant(key, token, s.now, lease, None)]);
      if link.ReplyLost? then (taken, None)
      else (taken.(open := s.open + {Handle(key, token)}), Some(Handle(key, token)))
  }

  /** The grant a release ends is the one that set this token. */
  function MarkReleased(grants: seq<Grant>, token: string, now: int): (marked: seq<Grant>)
    ensures |marked| == |grants|
    ensures forall i :: 0 <= i < |grants| ==>
              marked[i] == if grants[i].token == token then grants[i].(released := Some(now)) else grants[i]
  {
    if grants == [] then []
    else
      var g := grants[0];
      [if g.token == token then g.(released := Some(now)) else g] + MarkReleased(grants[1..], token, now)
  }

  /** The script: delete the key if the token still matches. */
  function Release(s: State, key: string, token: string, link: Link): (State, bool) {
    if link.Unreachable? || !s.Held(key) || s.store[key].token != token then (s, false)
    else
      (s.(store := map k | k in s.store && k != key :: s.store[k],
          grants := MarkReleased(s.grants, token, s.now)),
       link.Answered?)
  }

  /** The manager, against the one shared store. */
  class DistributedLockManager {
    var state: State

    constructor (s: State)
      ensures state == s
    {
      state := s;
    }

    method TryAcquireCustomerLock(merchant: string, customer: string, lease: int, token: string, link: Link)
      returns (lock: Option<Handle>)
      modifies this
      ensures (state, lock) == Acquire(old(state), LockKey(merchant, customer), token, lease, link)
      ensures var key := LockKey(merchant, customer);
              var takes := !link.Unreachable? && lease > 0 && !old(state).Held(key);
              && (lock.Some? <==> takes && link.Answered?)
              && (lock.Some? ==> lock.value == Handle(key, token))
              && (takes ==> state.store == old(state).store[key := Entry(token, old(state).now + lease)])
              && (!takes ==> state == old(state))
    {
      var key := LockKey(merchant, customer);
      if link.Unreachable? || lease <= 0 {
        return None;
      }
      if state.Held(key) {
        return None;
      }
      state := state.(store := state.store[key := Entry(token, state.now + lease)],
                      grants := state.grants + [Grant(key, token, state.now, lease, None)]);
      if link.ReplyLost? {
        return None;
      }
      state := state.(open := state.open + {Handle(key, token)});
      lock := Some(Handle(key, token));
    }

    method ReleaseLock(key: string, token: string, link: Link) returns (released: bool)
      modifies this
      ensures (state, released) == Release(old(state), key, token, link)
      ensures var mine := old(state).Held(key) && old(state).store[key].token == token;
              && (released <==> link.Answered? && mine)
              && (link.Unreachable? || !mine ==> state == old(state))
              && (!link.Unreachable? && mine ==>
                    state.store.Keys == old(state).store.Keys - {key}
                    && forall k :: k in state.store ==> state.store[k] == old(state).store[k])
    {
      if link.Unreachable? {
        return false;
      }
      if !state.Held(key) || state.store[key].token != token {
        return false;
      }
      state := state.(store := map k | k in state.store && k != key :: state.store[k],
                      grants := MarkReleased(state.grants, token, state.now));
      released := link.Answered?;
    }

    /** Closing a handle leaves every key held under another token exactly as it was. */
    method Close(lock: Handle, link: Link)
      modifies this
      ensures forall k :: k in old(state).store && old(state).store[k].token != lock.token ==>
                k in state.store && state.store[k] == old(state).store[k]
      ensures forall k :: k in state.store ==> k in old(state).store && state.store[k] == old(state).store[k]
      ensures !link.Unreachable? && state.Held(lock.key) ==> state.store[lock.key].token != lock.token
    {
      var released := ReleaseLock(lock.key, lock.token, link);
    }
  }

  // ---- runs -------------------------------------------------------------------

  datatype Step =
    | TryAcquire(key: string, token: string, lease: int, link: Link)
    | Close(handle: Handle, link: Link)
    | Crash(lost: set<Handle>)
    | Tick(elapsed: nat)

  /** Tokens are random UUIDs, so an acquire always brings one never granted before. A handle may be closed
      late, or again, or by a client that has already lost the lock. */
  ghost predicate Next(s: State, s': State, step: Step) {
    match step
    case TryAcquire(key, token, lease, link) =>
      (forall g :: g in s.grants ==> g.token != token) && s' == Acquire(s, key, token, lease, link).0
    case Close(handle, link) =>
      s' == Release(s, handle.key, handle.token, link).0.(open := s.open - {handle})
    case Crash(lost) => s' == s.(open := s.open - lost)
    case Tick(elapsed) => s' == s.(now := s.now + elapsed)
  }

  /** A grant either holds its key right now, exactly as stored, or is over. */
  ghost predicate GrantOk(s: State, g: Grant) {
    && g.lease > 0 && g.from <= s.now
    && (g.released.Some? ==> g.released.value <= s.now)
    && (g.End() <= s.now
        || (g.released.None? && g.key in s.store && s.store[g.key] == Entry(g.token, g.from + g.lease)))
  }

  ghost predicate Granted(s: State, key: string, token: string) {
    exists g :: g in s.grants && g.key == key && g.token == token
  }

  /** The stored entry is that of a grant nobody has released. */
  ghost predicate Backed(s: State, key: string)
    requires key in s.store
  {
    exists g :: g in s.grants && g.key == key && g.token == s.store[key].token
             && g.released.None? && g.from + g.lease == s.store[key].expires
  }

  ghost predicate OneGrantPerToken(grants: seq<Grant>) {
    forall i, j :: 0 <= i < j < |grants| ==> grants[i].token != grants[j].token
  }

  /** On one key, each grant is over before the next begins. */
  ghost predicate OneAfterAnother(grants: seq<Grant>) {
    forall i, j :: 0 <= i < j < |grants| && grants[i].key == grants[j].key ==> grants[i].End() <= grants[j].from
  }

  ghost predicate Inv(s: State) {
    && OneGrantPerToken(s.grants)
    && OneAfterAnother(s.grants)
    && (forall i :: 0 <= i < |s.grants| ==> GrantOk(s, s.grants[i]))
    && (forall k :: k in s.store && s.Held(k) ==> Backed(s, k))
    && (forall h :: h in s.open ==> Granted(s, h.key, h.token))
  }

  ghost predicate Init(s: State) {
    s.store == map[] && s.open == {} && s.grants == []
  }

  lemma AcquireKeepsHistory(s: State, key: string, token: string, lease: int)
    requires Inv(s) && !s.Held(key) && lease > 0 && forall g :: g in s.grants ==> g.token != token
    ensures OneGrantPerToken(s.grants + [Grant(key, token, s.now, lease, None)])
    ensures OneAfterAnother(s.grants + [Grant(key, token, s.now, lease, None)])
  {
    forall i | 0 <= i < |s.grants| && s.grants[i].key == key ensures s.grants[i].End() <= s.now {
      assert GrantOk(s, s.grants[i]);
    }
  }

  lemma AcquireKeeps(s: State, key: string, token: string, lease: int, link: Link)
    requires Inv(s) && forall g :: g in s.grants ==> g.token != token
    ensures Inv(Acquire(s, key, token, lease, link).0)
  {
    var s' := Acquire(s, key, token, lease, link).0;
    if !link.Unreachable? && lease > 0 && !s.Held(key) {
      var g' := Grant(key, token, s.now, lease, None);
      AcquireKeepsHistory(s, key, token, lease);
      hide OneGrantPerToken, OneAfterAnother;
      forall i | 0 <= i < |s'.grants| ensures GrantOk(s', s'.grants[i]) {
        if i < |s.grants| {
          assert GrantOk(s, s.grants[i]);
        }
      }
      assert s'.grants[|s.grants|] == g';
      assert forall g :: g in s.grants ==> g in s'.grants;
      forall k | k in s'.store && s'.Held(k) ensures Backed(s', k) {
        if k != key {
          assert s.Held(k) && Backed(s, k);
        }
      }
      forall h | h in s'.open ensures Granted(s', h.key, h.token) {
        if h != Handle(key, token) {
          assert Granted(s, h.key, h.token);
        }
      }
    }
  }

  /** Of all grants ever made, only the one behind the stored entry carries its token, and it is still running. */
  lemma TokenNamesHolder(s: State, key: string)
    requires Inv(s) && s.Held(key)
    ensures forall i :: 0 <= i < |s.grants| && s.grants[i].token == s.store[key].token ==>
              s.grants[i].key == key && s.grants[i].released.None? && s.now < s.grants[i].End()
  {
    assert Backed(s, key);
    var g :| g in s.grants && g.key == key && g.token == s.store[key].token && g.released.None?
             && g.from + g.lease == s.store[key].expires;
    var j :| 0 <= j < |s.grants| && s.grants[j] == g;
    hide OneAfterAnother, GrantOk;
    forall i | 0 <= i < |s.grants| && s.grants[i].token == s.store[key].token ensures s.grants[i] == g {
      assert i == j;
    }
  }

  /** Releasing early only shortens a grant. */
  lemma ReleaseKeepsHistory(grants: seq<Grant>, token: string, now: int)
    requires OneGrantPerToken(grants) && OneAfterAnother(grants)
    requires forall i :: 0 <= i < |grants| && grants[i].token == token ==> now < grants[i].End()
    ensures OneGrantPerToken(MarkReleased(grants, token, now))
    ensures OneAfterAnother(MarkReleased(grants, token, now))
  {
    hide MarkReleased;
    var marked := MarkReleased(grants, token, now);
    forall i, k | 0 <= i < k < |marked| && marked[i].key == marked[k].key ensures marked[i].End() <= marked[k].from {
      assert grants[i].End() <= grants[k].from;
    }
  }

  lemma OtherGrantsUntouched(s: State, s': State, key: string, g: Grant)
    requires s.Held(key) && s'.now == s.now && s'.store == map k | k in s.store && k != key :: s.store[k]
    requires GrantOk(s, g) && g.token != s.store[key].token
    ensures GrantOk(s', g)
  {
  }

  lemma ReleasedIsOver(s: State, s': State, g: Grant)
    requires GrantOk(s, g) && s'.now == s.now
    ensures GrantOk(s', g.(released := Some(s.now)))
  {
  }

  lemma OtherKeysStayBacked(s: State, s': State, key: string, k: string)
    requires k in s.store && k != key && Backed(s, k) && s'.store == map k | k in s.store && k != key :: s.store[k]
    requires |s'.grants| == |s.grants|
    requires forall i :: 0 <= i < |s.grants| && s.grants[i].key != key ==> s'.grants[i] == s.grants[i]
    ensures Backed(s', k)
  {
    var g :| g in s.grants && g.key == k && g.token == s.store[k].token
             && g.released.None? && g.from + g.lease == s.store[k].expires;
    var i :| 0 <= i < |s.grants| && s.grants[i] == g;
    assert s'.grants[i] == g;
  }

  lemma ReleaseKeeps(s: State, key: string, token: string, link: Link)
    requires Inv(s)
    ensures Inv(Release(s, key, token, link).0)
  {
    var s' := Release(s, key, token, link).0;
    if !link.Unreachable? && s.Held(key) && s.store[key].token == token {
      TokenNamesHolder(s, key);
      ReleaseKeepsHistory(s.grants, token, s.now);
      hide OneGrantPerToken, OneAfterAnother, MarkReleased, GrantOk, Backed, Granted;
      StillGranted(s, s', token);
      forall i | 0 <= i < |s'.grants| ensures GrantOk(s', s'.grants[i]) {
        if s.grants[i].token == token {
          ReleasedIsOver(s, s', s.grants[i]);
        } else {
          OtherGrantsUntouched(s, s', key, s.grants[i]);
        }
      }
      forall k | k in s'.store && s'.Held(k) ensures Backed(s', k) {
        assert s.Held(k);
        OtherKeysStayBacked(s, s', key, k);
      }
    }
  }

  lemma StillGranted(s: State, s': State, token: string)
    requires |s'.grants| == |s.grants|
    requires forall i :: 0 <= i < |s.grants| ==>
               s'.grants[i].key == s.grants[i].key && s'.grants[i].token == s.grants[i].token
    ensures forall k, t :: Granted(s, k, t) ==> Granted(s', k, t)
  {
    forall k, t | Granted(s, k, t) ensures Granted(s', k, t) {
      var g :| g in s.grants && g.key == k && g.token == t;
      var i :| 0 <= i < |s.grants| && s.grants[i] == g;
      assert s'.grants[i] in s'.grants;
    }
  }

  lemma InvKept(s: State, s': State, step: Step)
    requires Inv(s) && Next(s, s', step)
    ensures Inv(s')
  {
    hide OneGrantPerToken, OneAfterAnother, GrantOk, Backed, Granted;
    match step {
      case TryAcquire(key, token, lease, link) => AcquireKeeps(s, key, token, lease, link);
      case Close(handle, link) =>
        ReleaseKeeps(s, handle.key, handle.token, link);
        FewerOpen(Release(s, handle.key, handle.token, link).0, s.open - {handle});
      case Crash(lost) => FewerOpen(s, s.open - lost);
      case Tick(elapsed) => TickKeeps(s, elapsed);
    }
  }

  lemma FewerOpen(s: State, open: set<Handle>)
    requires Inv(s) && open <= s.open
    ensures Inv(s.(open := open))
  {
    hide OneGrantPerToken, OneAfterAnother;
    var s' := s.(open := open);
    forall i | 0 <= i < |s.grants| ensures GrantOk(s', s.grants[i]) {
      assert GrantOk(s, s.grants[i]);
    }
    forall k | k in s'.store && s'.Held(k) ensures Backed(s', k) {
      assert s.Held(k) && Backed(s, k);
    }
    forall h | h in open ensures Granted(s', h.key, h.token) {
      assert Granted(s, h.key, h.token);
    }
  }

  lemma TickKeeps(s: State, elapsed: nat)
    requires Inv(s)
    ensures Inv(s.(now := s.now + elapsed))
  {
    hide OneGrantPerToken, OneAfterAnother;
    var s' := s.(now := s.now + elapsed);
    forall i | 0 <= i < |s.grants| ensures GrantOk(s', s.grants[i]) {
      assert GrantOk(s, s.grants[i]);
    }
    forall k | k in s'.store && s'.Held(k) ensures Backed(s', k) {
      assert s.Held(k) && Backed(s, k);
    }
    forall h | h in s'.open ensures Granted(s', h.key, h.token) {
      assert Granted(s, h.key, h.token);
    }
  }

  ghost predicate IsRun(run: seq<State>, steps: seq<Step>) {
    && |run| == |steps| + 1 && Init(run[0])
    && forall i :: 0 <= i < |steps| ==> Next(run[i], run[i + 1], steps[i])
  }

  lemma {:induction false} RunKeeps(run: seq<State>, steps: seq<Step>, n: nat)
    requires IsRun(run, steps) && n < |run|
    ensures Inv(run[n])
  {
    if n > 0 {
      RunKeeps(run, steps, n - 1);
      InvKept(run[n - 1], run[n], steps[n - 1]);
    }
  }

  // ---- what the lock guarantees --------------------------------------------------

  ghost predicate HoldsAt(g: Grant, moment: int) {
    g.from <= moment < g.End()
  }

  /** Mutual exclusion over time: at no moment do two grants hold the same key, however calls were lost,
      clients crashed, and closes came late or twice. */
  lemma MutualExclusion(run: seq<State>, steps: seq<Step>, n: nat, g: Grant, h: Grant, moment: int)
    requires IsRun(run, steps) && n < |run|
    requires g in run[n].grants && h in run[n].grants && g.key == h.key
    requires HoldsAt(g, moment) && HoldsAt(h, moment)
    ensures g == h
  {
    RunKeeps(run, steps, n);
    var i :| 0 <= i < |run[n].grants| && run[n].grants[i] == g;
    var j :| 0 <= j < |run[n].grants| && run[n].grants[j] == h;
  }

  /** An acquire that reaches the store with a positive lease succeeds exactly when no grant holds the key. So
      a key set by a call whose reply was lost, or by a client that crashed, is free again once its lease is over. */
  lemma AcquirableIffFree(run: seq<State>, steps: seq<Step>, n: nat, key: string, token: string, lease: int)
    requires IsRun(run, steps) && n < |run| && lease > 0
    ensures Acquire(run[n], key, token, lease, Answered).1 == Some(Handle(key, token))
       <==> forall g :: g in run[n].grants && g.key == key ==> !HoldsAt(g, run[n].now)
  {
    RunKeeps(run, steps, n);
    var s := run[n];
    if s.Held(key) {
      assert Backed(s, key);
      var g :| g in s.grants && g.key == key && g.token == s.store[key].token
               && g.released.None? && g.from + g.lease == s.store[key].expires;
      assert GrantOk(s, g) && HoldsAt(g, s.now);
    }
    forall g | g in s.grants && g.key == key && HoldsAt(g, s.now) ensures s.Held(key) {
      assert GrantOk(s, g);
    }
  }

  /** Two clients can both hold an open handle on one key, but then at least one of them is past its lease or
      already released. */
  lemma OpenHandlesExclude(run: seq<State>, steps: seq<Step>, n: nat, a: Handle, b: Handle)
    requires IsRun(run, steps) && n < |run|
    requires a in run[n].open && b in run[n].open && a != b && a.key == b.key
    ensures exists g ::
              g in run[n].grants && g.key == a.key && (g.token == a.token || g.token == b.token)
              && g.End() <= run[n].now
  {
    RunKeeps(run, steps, n);
    var s := run[n];
    assert Granted(s, a.key, a.token) && Granted(s, b.key, b.token);
    var g :| g in s.grants && g.key == a.key && g.token == a.token;
    var h :| h in s.grants && h.key == b.key && h.token == b.token;
    assert GrantOk(s, g) && GrantOk(s, h);
  }

  /** And that does happen: a holder that outlives its lease still has its handle when the next one is granted. */
  lemma LeaseCanExpireUnderHolder()
    ensures exists run: seq<State>, steps: seq<Step> ::
              && IsRun(run, steps)
              && Handle("k", "a") in run[|steps|].open && Handle("k", "b") in run[|steps|].open
  {
    var s0 := State(0, map[], {}, []);
    var s1 := Acquire(s0, "k", "a", 10, Answered).0;
    var s2 := s1.(now := 10);
    var s3 := Acquire(s2, "k", "b", 10, Answered).0;
    var run, steps := [s0, s1, s2, s3],
        [TryAcquire("k", "a", 10, Answered), Tick(10), TryAcquire("k", "b", 10, Answered)];
    assert s2.grants == [Grant("k", "a", 0, 10, None)];
    assert IsRun(run, steps);
    assert run[|steps|] == s3;
  }

  // ---- whose key is it --------------------------------------------------------------

  /** Two merchants can be given one and the same lock key exactly when one id extends the other past a colon. */
  lemma KeysClashIff(m1: string, m2: string)
    requires m1 != m2
    ensures (exists c1, c2 :: LockKey(m1, c1) == LockKey(m2, c2)) <==> m1 + ":" <= m2 || m2 + ":" <= m1
  {
    forall c1, c2 | LockKey(m1, c1) == LockKey(m2, c2) ensures m1 + ":" <= m2 || m2 + ":" <= m1 {
      var p := "lock:customer:";
      assert LockKey(m1, c1) == p + (m1 + ":" + c1) && LockKey(m2, c2) == p + (m2 + ":" + c2);
      assert (p + (m1 + ":" + c1))[|p|..] == m1 + ":" + c1;
      assert (p + (m2 + ":" + c2))[|p|..] == m2 + ":" + c2;
      SplitAtColon(m1, c1, m2, c2);
    }
    if m1 + ":" <= m2 {
      Clash(m1, m2);
    }
    if m2 + ":" <= m1 {
      Clash(m2, m1);
    }
  }

  lemma SplitAtColon(m1: string, c1: string, m2: string, c2: string)
    requires m1 != m2 && m1 + ":" + c1 == m2 + ":" + c2
    ensures m1 + ":" <= m2 || m2 + ":" <= m1
  {
    var whole := m1 + ":" + c1;
    assert whole[..|m1|] == m1 && whole[..|m2|] == m2;
    assert whole[..|m1| + 1] == m1 + ":" && whole[..|m2| + 1] == m2 + ":";
    if |m1| < |m2| {
      assert m2[..|m1| + 1] == whole[..|m1| + 1];
    } else if |m2| < |m1| {
      assert m1[..|m2| + 1] == whole[..|m2| + 1];
    }
  }

  lemma Clash(short: string, long: string)
    requires short + ":" <= long
    ensures LockKey(short, long[|short| + 1..] + ":" + "c") == LockKey(long, "c")
  {
    assert long == short + ":" + long[|short| + 1..];
  }
}
