/**
 The write lock on a wallet: one redis key per wallet, set if absent and with an expiry, deleted on release.

 Release does not check who holds the key. Mutual exclusion therefore rests on the callers, and one of them releases
 even when it did not acquire.
 */
module WalletLock {
  import opened Prelude

  const SECONDARY_SYNC := "secondarySyncFromPrimary"
  const PRIMARY_SYNC := "primarySyncFromSecondary"
  const EXPIRATION_SEC := 1800

  /** asyncRetry makes one call and five retries. */
  const ATTEMPTS := 6

  predicate ValidAcquirer(acquirer: string) {
    acquirer == SECONDARY_SYNC || acquirer == PRIMARY_SYNC
  }

  // ---------------------------------------------------------------------------------------------
  // Timed runs on one wallet
  // ---------------------------------------------------------------------------------------------

  datatype Key = Key(holder: string, setAt: nat, ttl: nat)

  predicate Live(key: Option<Key>, now: nat) {
    key.Some? && now < key.value.setAt + key.value.ttl
  }

  /** `active` maps each acquirer at work to the time at which its key expires. */
  datatype State = State(now: nat, key: Option<Key>, active: map<nat, nat>)

  datatype Step =
    | Tick
    | TryAcquire(p: nat, acquirer: string, ttl: nat)
    | Stop(p: nat)
    | Release(p: nat)
    | ReleaseUnheld

  /** SET key acquirer NX EX ttl. */
  function SetIfAbsent(key: Option<Key>, acquirer: string, now: nat, ttl: nat): Option<Key> {
    if Live(key, now) then key else Some(Key(acquirer, now, ttl))
  }

  ghost predicate Next(s: State, step: Step, s': State) {
    match step
    case Tick => s' == s.(now := s.now + 1)
    case TryAcquire(p, acquirer, ttl) =>
      && p !in s.active && ValidAcquirer(acquirer) && ttl > 0
      && s' == s.(key := SetIfAbsent(s.key, acquirer, s.now, ttl),
                  active := if Live(s.key, s.now) then s.active else s.active[p := s.now + ttl])
    case Stop(p) => p in s.active && s' == s.(active := s.active - {p})
    case Release(p) => p in s.active && s' == s.(key := None, active := s.active - {p})
    case ReleaseUnheld => s' == s.(key := None)
  }

  /** Every acquirer at work stops, or releases, before its key expires. */
  ghost predicate InTime(s: State) {
    forall p :: p in s.active ==> s.now < s.active[p]
  }

  ghost predicate Run(states: seq<State>, steps: seq<Step>) {
    && |states| == |steps| + 1
    && (forall i :: 0 <= i < |steps| ==> Next(states[i], steps[i], states[i + 1]))
    && (forall i :: 0 <= i < |states| ==> InTime(states[i]))
  }

  const IDLE := State(0, None, map[])

  /** At most one acquirer is active, and the key is its own. */
  ghost predicate Exclusive(s: State) {
    && (forall p, q :: p in s.active && q in s.active ==> p == q)
    && (forall p :: p in s.active ==> s.key.Some? && s.key.value.setAt + s.key.value.ttl == s.active[p])
    && (s.key.Some? ==> ValidAcquirer(s.key.value.holder))
  }

  /** No step up to the i-th lets anybody release a lock that another is working under. */
  ghost predicate NoIntrusion(states: seq<State>, steps: seq<Step>, i: nat)
    requires |states| == |steps| + 1 && i <= |steps|
  {
    forall j :: 0 <= j < i && steps[j].ReleaseUnheld? ==> states[j].active == map[]
  }

  lemma {:induction false} StaysExclusive(states: seq<State>, steps: seq<Step>, i: nat)
    requires Run(states, steps) && Exclusive(states[0]) && i <= |steps| && NoIntrusion(states, steps, i)
    ensures Exclusive(states[i])
  {
    if i > 0 {
      StaysExclusive(states, steps, i - 1);
      assert Next(states[i - 1], steps[i - 1], states[i]);
      assert InTime(states[i - 1]);
    }
  }

  /** Mutual exclusion: in every timed run without such a release, at most one acquirer is active, at any time. */
  lemma MutualExclusion(states: seq<State>, steps: seq<Step>, i: nat)
    requires Run(states, steps) && states[0] == IDLE && i <= |steps|
    requires forall j :: 0 <= j < i && steps[j].ReleaseUnheld? ==> states[j].active == map[]
    ensures Exclusive(states[i])
    ensures forall p, q :: p in states[i].active && q in states[i].active ==> p == q
    ensures states[i].key.Some? ==>
              states[i].key.value.holder in {"secondarySyncFromPrimary", "primarySyncFromSecondary"}
  {
    StaysExclusive(states, steps, i);
  }

  ghost predicate AtMostOneActive(s: State) {
    forall p, q :: p in s.active && q in s.active ==> p == q
  }

  /** A timed run that goes on from a state, with no intrusion in it. */
  ghost predicate Continues(s: State, states: seq<State>, steps: seq<Step>) {
    Run(states, steps) && states[0] == s && NoIntrusion(states, steps, |steps|)
  }

  /** A release by somebody who does not hold the lock is harmless, in that no run from there on ever has two active
      acquirers, exactly when nobody is at work under it. */
  lemma StrangersReleaseIsSafeExactlyWhenIdle(s: State)
    requires Exclusive(s) && InTime(s)
    ensures (forall states, steps :: Continues(s.(key := None), states, steps) ==>
                                       AtMostOneActive(states[|steps|])) <==> s.active == map[]
  {
    var open := s.(key := None);
    if s.active == map[] {
      forall states, steps | Continues(open, states, steps)
        ensures AtMostOneActive(states[|steps|])
      {
        StaysExclusive(states, steps, |steps|);
      }
    } else {
      assert s.active.Keys != {};
      var p :| p in s.active;
      IntrusionAdmitsASecond(s, p, p + 1, EXPIRATION_SEC);
      var both := open.(key := Some(Key(SECONDARY_SYNC, s.now, EXPIRATION_SEC)),
                        active := s.active[p + 1 := s.now + EXPIRATION_SEC]);
      assert Continues(open, [open, both], [TryAcquire(p + 1, SECONDARY_SYNC, EXPIRATION_SEC)]);
      assert !AtMostOneActive(both);
    }
  }

  /** While an acquirer is at work the next acquisition fails; after a release by a stranger it succeeds. */
  lemma IntrusionAdmitsASecond(s: State, p: nat, q: nat, ttl: nat)
    requires Exclusive(s) && InTime(s) && p in s.active && q != p && ttl > 0
    ensures var open := s.(key := None);
            var both := open.(key := Some(Key(SECONDARY_SYNC, s.now, ttl)), active := s.active[q := s.now + ttl]);
            && Next(s, ReleaseUnheld, open) && Next(open, TryAcquire(q, SECONDARY_SYNC, ttl), both)
            && InTime(open) && InTime(both) && p in both.active && q in both.active
    ensures SetIfAbsent(s.key, SECONDARY_SYNC, s.now, ttl) == s.key
  {
    assert q !in s.active;
  }

  /** The key goes at its expiry at the latest: while it is live, less than its ttl has passed since the last set. */
  lemma {:induction false} KeyOutlivesNoExpiry(states: seq<State>, steps: seq<Step>, i: nat)
    requires Run(states, steps) && states[0] == IDLE && i <= |steps|
    ensures states[i].key.Some? ==> states[i].key.value.setAt <= states[i].now
    ensures Live(states[i].key, states[i].now) ==>
              exists j :: 0 <= j < i && steps[j].TryAcquire? && !Live(states[j].key, states[j].now)
                          && states[i].key == Some(Key(steps[j].acquirer, states[j].now, steps[j].ttl))
                          && states[i].now - states[j].now < steps[j].ttl
  {
    if i > 0 {
      KeyOutlivesNoExpiry(states, steps, i - 1);
      assert Next(states[i - 1], steps[i - 1], states[i]);
      var s, s' := states[i - 1], states[i];
      if Live(s'.key, s'.now) && s'.key != s.key {
        assert steps[i - 1].TryAcquire? && !Live(s.key, s.now);
      }
    }
  }

  /** A live key stays until it is released or expires, whoever else stops working, and keeps everybody else out. */
  lemma {:induction false} LiveKeyStays(states: seq<State>, steps: seq<Step>, i: nat, j: nat)
    requires Run(states, steps) && i <= j <= |steps|
    requires Live(states[i].key, states[j].now)
    requires forall k :: i <= k < j ==> !steps[k].Release? && !steps[k].ReleaseUnheld?
    ensures states[i].now <= states[j].now && states[j].key == states[i].key
    ensures forall p :: p in states[j].active ==> p in states[i].active
    decreases j
  {
    if i < j {
      assert Next(states[j - 1], steps[j - 1], states[j]);
      LiveKeyStays(states, steps, i, j - 1);
    }
  }

  /** A timed run in which the first acquirer stops without a release: the second is kept out until the key expires. */
  lemma TheSecondWaitsForTheExpiry()
    ensures var key, next := Key("primarySyncFromSecondary", 0, 2), Key("secondarySyncFromPrimary", 2, 3);
            var acquire := TryAcquire(2, "secondarySyncFromPrimary", 3);
            var states := [IDLE, State(0, Some(key), map[1 := 2]), State(1, Some(key), map[1 := 2]),
                           State(1, Some(key), map[]), State(1, Some(key), map[]), State(2, Some(key), map[]),
                           State(2, Some(next), map[2 := 5]), State(2, None, map[])];
            Run(states,
                [TryAcquire(1, "primarySyncFromSecondary", 2), Tick, Stop(1), acquire, Tick, acquire, Release(2)])
  {
    assert map[1 := 2] - {1} == map[] && map[2 := 5] - {2} == map[];
  }

  // ---------------------------------------------------------------------------------------------
  // The lock and its callers
  // ---------------------------------------------------------------------------------------------

  datatype AcquireResult = Acquired | InvalidAcquirer | CallFailed | AlreadyHeld

  /** What happens to the calls of one operation: call k fails without effect or not, after some waiting. */
  datatype Calls = Calls(fails: nat -> bool, wait: nat -> nat)

  /** The first of the attempts from k on that does not fail. */
  function FirstWorking(calls: Calls, k: nat): (r: Option<nat>)
    requires k <= ATTEMPTS
    ensures r.None? <==> forall j :: k <= j < 6 ==> calls.fails(j)
    ensures r.Some? ==> k <= r.value < 6 && !calls.fails(r.value) && forall j :: k <= j < r.value ==> calls.fails(j)
    decreases ATTEMPTS - k
  {
    if k == ATTEMPTS then None else if !calls.fails(k) then Some(k) else FirstWorking(calls, k + 1)
  }

  /** The time spent waiting before attempts 0 to k. */
  function Waited(calls: Calls, k: nat): nat {
    calls.wait(k) + if k == 0 then 0 else Waited(calls, k - 1)
  }

  class WalletWriteLock {
    var now: nat
    var keys: map<string, Key>

    constructor ()
      ensures now == 0 && keys == map[] && Valid()
    {
      now, keys := 0, map[];
    }

    /** Only valid acquirers ever get into a key. */
    ghost predicate Valid()
      reads this
    {
      forall w :: w in keys ==> ValidAcquirer(keys[w].holder)
    }

    function KeyOf(wallet: string): Option<Key>
      reads this
    {
      if wallet in keys then Some(keys[wallet]) else None
    }

    /** getCurrentHolder: null once the key has expired. */
    function Holder(wallet: string): Option<string>
      reads this
    {
      if Live(KeyOf(wallet), now) then Some(keys[wallet].holder) else None
    }

    method SyncIsInProgress(wallet: string) returns (b: bool)
      requires Valid()
      ensures b == Live(KeyOf(wallet), now)
    {
      var holder := Holder(wallet);
      b := holder == Some(PRIMARY_SYNC) || holder == Some(SECONDARY_SYNC);
    }

    method IsHeld(wallet: string) returns (b: bool)
      requires Valid()
      ensures b == Live(KeyOf(wallet), now)
    {
      var holder := Holder(wallet);
      b := holder.Some? && holder.value != "";
    }

    /** In every state the two questions have the same answer. */
    method BothQuestions(wallet: string) returns (syncing: bool, held: bool)
      requires Valid()
      ensures syncing == held
    {
      syncing := SyncIsInProgress(wallet);
      held := IsHeld(wallet);
    }

    /** acquire: the first call that works sets the key, unless it is held. */
    method Acquire(wallet: string, acquirer: string, ttl: nat, calls: Calls) returns (r: AcquireResult)
      requires Valid() && ttl > 0
      modifies this
      ensures Valid()
      ensures r == InvalidAcquirer <==> !ValidAcquirer(acquirer)
      ensures r == CallFailed <==> ValidAcquirer(acquirer) && FirstWorking(calls, 0).None?
      ensures r == InvalidAcquirer || r == CallFailed ==> keys == old(keys)
      ensures ValidAcquirer(acquirer) && FirstWorking(calls, 0).Some? ==>
                && now == old(now) + Waited(calls, FirstWorking(calls, 0).value)
                && (r == AlreadyHeld <==> Live(old(KeyOf(wallet)), now))
                && keys == (if r == AlreadyHeld then old(keys) else old(keys)[wallet := Key(acquirer, now, ttl)])
                && KeyOf(wallet) == SetIfAbsent(old(KeyOf(wallet)), acquirer, now, ttl)
    {
      if !ValidAcquirer(acquirer) {
        return InvalidAcquirer;
      }
      var k := 0;
      while k < ATTEMPTS
        invariant 0 <= k <= ATTEMPTS
        invariant keys == old(keys)
        invariant FirstWorking(calls, 0) == FirstWorking(calls, k)
        invariant now == old(now) + if k == 0 then 0 else Waited(calls, k - 1)
      {
        now := now + calls.wait(k);
        if !calls.fails(k) {
          if Live(KeyOf(wallet), now) {
            return AlreadyHeld;
          }
          keys := keys[wallet := Key(acquirer, now, ttl)];
          return Acquired;
        }
        k := k + 1;
      }
      r := CallFailed;
    }

    /** release: the first call that works deletes the key, whoever set it. */
    method Release(wallet: string, calls: Calls) returns (ok: bool)
      requires Valid()
      modifies this
      ensures Valid()
      ensures ok <==> FirstWorking(calls, 0).Some?
      ensures keys == if ok then old(keys) - {wallet} else old(keys)
      ensures now >= old(now)
    {
      var k := 0;
      while k < ATTEMPTS
        invariant 0 <= k <= ATTEMPTS
        invariant keys == old(keys) && now >= old(now)
        invariant FirstWorking(calls, 0) == FirstWorking(calls, k)
      {
        now := now + calls.wait(k);
        if !calls.fails(k) {
          keys := keys - {wallet};
          return true;
        }
        k := k + 1;
      }
      ok := false;
    }

    /** The time at which an acquisition that starts now gets through to redis. */
    function SetTime(calls: Calls): Option<nat>
      reads this
    {
      var k := FirstWorking(calls, 0);
      if k.None? then None else Some(now + Waited(calls, k.value))
    }

    /** The locking of secondarySyncFromPrimary: without the lock it returns, and leaves the key alone. A release that
        fails is only logged; then the key is left to expire. */
    method SecondarySync(wallet: string, calls: Calls, work: nat, release: Calls) returns (synced: bool)
      requires Valid()
      modifies this
      ensures Valid()
      ensures synced <==> old(SetTime(calls)).Some? && !Live(old(KeyOf(wallet)), old(SetTime(calls)).value)
      ensures !synced ==> keys == old(keys)
      ensures synced ==>
                keys == if FirstWorking(release, 0).Some? then old(keys) - {wallet}
                        else old(keys)[wallet := Key("secondarySyncFromPrimary", old(SetTime(calls)).value, 1800)]
    {
      var r := Acquire(wallet, SECONDARY_SYNC, EXPIRATION_SEC, calls);
      if r != Acquired {
        return false;
      }
      now := now + work;
      var ok := Release(wallet, release);
      synced := true;
    }

    /** The locking of primarySyncFromSecondary: the release is in a finally block, so whenever it works the key is gone
        afterwards, even if the lock was somebody else's or was never asked for. Only a failing release throws. */
    method PrimarySync(wallet: string, libsFail: bool, calls: Calls, work: nat, release: Calls)
      returns (synced: bool, threw: bool)
      requires Valid()
      modifies this
      ensures Valid()
      ensures synced <==> !libsFail && old(SetTime(calls)).Some? && !Live(old(KeyOf(wallet)), old(SetTime(calls)).value)
      ensures threw <==> FirstWorking(release, 0).None?
      ensures !threw ==> keys == old(keys) - {wallet}
      ensures threw ==>
                keys == if !synced then old(keys)
                        else old(keys)[wallet := Key("primarySyncFromSecondary", old(SetTime(calls)).value, 1800)]
    {
      synced := false;
      if !libsFail {
        var r := Acquire(wallet, PRIMARY_SYNC, EXPIRATION_SEC, calls);
        synced := r == Acquired;
      }
      if synced {
        now := now + work;
      }
      var ok := Release(wallet, release);
      threw := !ok;
    }
  }
}
