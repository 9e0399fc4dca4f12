/**
 The background cache: answers served at once, recomputed behind the reader.

 Readers, refresh threads and synchronous recomputes share the cache and the flags. Every
 lock section, and every unlocked read, is one atomic action; they interleave in any order.
 */
module SlowCache {
  import opened Wrappers

  datatype Entry = Entry(at: nat, payload: int)

  /** A refresh: the flag is set, then the thread is started, computes, stores or fails, and clears the flag. */
  datatype Phase = Claimed | Computing | Computed(payload: int) | Finishing | Lost
  datatype Job = Job(key: int, phase: Phase)

  datatype State = State(clock: nat, cache: map<int, Entry>, refreshing: map<int, bool>, jobs: map<nat, Job>)

  datatype Action =
    | Tick(elapsed: nat)
    | Begin(id: nat, key: int)        // start_refresh's lock section
    | Spawn(id: nat)                  // Thread.start sets the thread running; it may return later
    | SpawnFails(id: nat)             // Thread.start raises
    | Returns(id: nat, payload: int)  // the thread's compute returns
    | Raises(id: nat)                 // the thread's compute raises
    | Store(id: nat)                  // the thread stores its answer
    | Clear(id: nat)                  // the thread's finally
    | StoreNow(key: int, payload: int) // compute_now stores its answer

  predicate Flag(s: State, key: int) {
    key in s.refreshing && s.refreshing[key]
  }

  predicate At(s: State, id: nat, phase: Phase) {
    id in s.jobs && s.jobs[id].phase == phase
  }

  function Move(s: State, id: nat, phase: Phase): State
    requires id in s.jobs
  {
    s.(jobs := s.jobs[id := Job(s.jobs[id].key, phase)])
  }

  /** An action that cannot happen in a state changes nothing. */
  function Step(s: State, a: Action): State {
    match a
    case Tick(elapsed) => s.(clock := s.clock + elapsed)
    case Begin(id, key) =>
      if Flag(s, key) || id in s.jobs then s
      else s.(refreshing := s.refreshing[key := true], jobs := s.jobs[id := Job(key, Claimed)])
    case Spawn(id) => if At(s, id, Claimed) then Move(s, id, Computing) else s
    case SpawnFails(id) => if At(s, id, Claimed) then Move(s, id, Lost) else s
    case Returns(id, payload) => if At(s, id, Computing) then Move(s, id, Computed(payload)) else s
    case Raises(id) => if At(s, id, Computing) then Move(s, id, Finishing) else s
    case Store(id) =>
      if id in s.jobs && s.jobs[id].phase.Computed? then
        Move(s, id, Finishing).(cache := s.cache[s.jobs[id].key := Entry(s.clock, s.jobs[id].phase.payload)])
      else s
    case Clear(id) =>
      if At(s, id, Finishing) then s.(refreshing := s.refreshing[s.jobs[id].key := false], jobs := s.jobs - {id}) else s
    case StoreNow(key, payload) => s.(cache := s.cache[key := Entry(s.clock, payload)])
  }

  function Run(s: State, actions: seq<Action>): State {
    if actions == [] then s else Step(Run(s, actions[..|actions| - 1]), actions[|actions| - 1])
  }

  // ------------------------------------------------------------------ the invariant

  ghost predicate InFlight(s: State, key: int) {
    exists id :: id in s.jobs && s.jobs[id].key == key
  }

  /** The flag is set exactly while a refresh is in flight, at most one is, and no answer is from the future. */
  ghost predicate Inv(s: State) {
    && (forall key :: Flag(s, key) <==> InFlight(s, key))
    && (forall i, j :: i in s.jobs && j in s.jobs && s.jobs[i].key == s.jobs[j].key ==> i == j)
    && (forall key :: key in s.cache ==> s.cache[key].at <= s.clock)
  }

  lemma MoveKeeps(s: State, id: nat, phase: Phase)
    requires Inv(s) && id in s.jobs
    ensures Inv(Move(s, id, phase))
  {
    var s' := Move(s, id, phase);
    forall key ensures Flag(s', key) <==> InFlight(s', key) {
      assert Flag(s, key) <==> InFlight(s, key);
      if InFlight(s, key) {
        var i :| i in s.jobs && s.jobs[i].key == key;
        assert i in s'.jobs && s'.jobs[i].key == key;
      }
    }
  }

  lemma ClearKeeps(s: State, id: nat)
    requires Inv(s) && At(s, id, Finishing)
    ensures Inv(Step(s, Clear(id))) && !Flag(Step(s, Clear(id)), s.jobs[id].key)
  {
    var s' := Step(s, Clear(id));
    forall key ensures Flag(s', key) <==> InFlight(s', key) {
      assert Flag(s, key) <==> InFlight(s, key);
      if key != s.jobs[id].key && InFlight(s, key) {
        var i :| i in s.jobs && s.jobs[i].key == key;
        assert i in s'.jobs;
      }
    }
  }

  lemma BeginKeeps(s: State, id: nat, key: int)
    requires Inv(s)
    ensures Inv(Step(s, Begin(id, key)))
    ensures id !in s.jobs ==> Flag(Step(s, Begin(id, key)), key)
  {
    var s' := Step(s, Begin(id, key));
    if s' != s {
      forall k ensures Flag(s', k) <==> InFlight(s', k) {
        assert Flag(s, k) <==> InFlight(s, k);
        assert s'.jobs[id].key == key;
        if InFlight(s, k) {
          var i :| i in s.jobs && s.jobs[i].key == k;
          assert i in s'.jobs && s'.jobs[i].key == k;
        }
      }
      assert !InFlight(s, key);
    }
  }

  lemma StepKeeps(s: State, a: Action)
    requires Inv(s)
    ensures Inv(Step(s, a))
  {
    match a
    case Tick(elapsed) => assert forall key :: InFlight(Step(s, a), key) <==> InFlight(s, key);
    case Begin(id, key) => BeginKeeps(s, id, key);
    case Spawn(id) => if At(s, id, Claimed) { MoveKeeps(s, id, Computing); }
    case SpawnFails(id) => if At(s, id, Claimed) { MoveKeeps(s, id, Lost); }
    case Returns(id, payload) => if At(s, id, Computing) { MoveKeeps(s, id, Computed(payload)); }
    case Raises(id) => if At(s, id, Computing) { MoveKeeps(s, id, Finishing); }
    case Store(id) =>
      if id in s.jobs && s.jobs[id].phase.Computed? {
        MoveKeeps(s, id, Finishing);
        assert forall key :: InFlight(Step(s, a), key) <==> InFlight(Move(s, id, Finishing), key);
        assert forall key :: Flag(Step(s, a), key) <==> Flag(Move(s, id, Finishing), key);
      }
    case Clear(id) => if At(s, id, Finishing) { ClearKeeps(s, id); }
    case StoreNow(key, payload) => assert forall k :: InFlight(Step(s, a), k) <==> InFlight(s, k);
  }

  /** Under every interleaving: one refresh a key at most, and the flag says so. */
  lemma {:induction false} RunKeeps(s: State, actions: seq<Action>)
    requires Inv(s)
    ensures Inv(Run(s, actions))
  {
    if actions != [] {
      RunKeeps(s, actions[..|actions| - 1]);
      StepKeeps(Run(s, actions[..|actions| - 1]), actions[|actions| - 1]);
    }
  }

  // -------------------------------------------------------------------- the answers

  /** An answer changes only when a compute that returned is stored, and is stamped with that moment. */
  lemma OnlyStoresChange(s: State, a: Action, key: int)
    requires key in Step(s, a).cache && (key !in s.cache || Step(s, a).cache[key] != s.cache[key])
    ensures Step(s, a).cache[key].at == s.clock
    ensures || a == StoreNow(key, Step(s, a).cache[key].payload)
            || (a.Store? && a.id in s.jobs && s.jobs[a.id] == Job(key, Computed(Step(s, a).cache[key].payload)))
  {
  }

  /** An answer once there stays, and its stamp never goes back. */
  ghost predicate Onward(s: State, s': State) {
    s.clock <= s'.clock && forall key :: key in s.cache ==> key in s'.cache && s.cache[key].at <= s'.cache[key].at
  }

  lemma {:induction false} RunGoesOnward(s: State, actions: seq<Action>)
    requires Inv(s)
    ensures Onward(s, Run(s, actions))
  {
    if actions != [] {
      RunGoesOnward(s, actions[..|actions| - 1]);
      RunKeeps(s, actions[..|actions| - 1]);
    }
  }

  lemma {:induction false} RunAppend(s: State, a: seq<Action>, b: seq<Action>)
    ensures Run(s, a + b) == Run(Run(s, a), b)
  {
    if b == [] {
      assert a + b == a;
    } else {
      assert (a + b)[..|a + b| - 1] == a + b[..|b| - 1];
      RunAppend(s, a, b[..|b| - 1]);
    }
  }

  // ------------------------------------------------------------------------ the flag

  /** Actions of other threads: none of them names this refresh. */
  predicate Foreign(a: Action, id: nat) {
    a.Tick? || a.StoreNow? || a.id != id
  }

  predicate AllForeign(actions: seq<Action>, id: nat) {
    forall a :: a in actions ==> Foreign(a, id)
  }

  /** What other threads do leaves this refresh where it is. */
  lemma {:induction false} OthersLeaveMine(s: State, actions: seq<Action>, id: nat)
    requires AllForeign(actions, id) && id in s.jobs
    ensures id in Run(s, actions).jobs && Run(s, actions).jobs[id] == s.jobs[id]
  {
    if actions != [] {
      var n := |actions| - 1;
      assert actions[n] in actions && forall a :: a in actions[..n] ==> a in actions;
      OthersLeaveMine(s, actions[..n], id);
    }
  }

  /** When the thread could not be started the flag stays set for good, whatever anyone does. */
  lemma {:induction false} LostFlagSticks(s: State, actions: seq<Action>, id: nat)
    requires Inv(s) && At(s, id, Lost)
    ensures At(Run(s, actions), id, Lost) && Run(s, actions).jobs[id].key == s.jobs[id].key
    ensures Flag(Run(s, actions), s.jobs[id].key)
  {
    RunKeeps(s, actions);
    if actions != [] { LostFlagSticks(s, actions[..|actions| - 1], id); }
  }

  /** What is left for a refresh to do, its compute raising. */
  function Rest(phase: Phase, id: nat): seq<Action> {
    match phase
    case Claimed => [Spawn(id), Raises(id), Clear(id)]
    case Computing => [Raises(id), Clear(id)]
    case Computed(_) => [Store(id), Clear(id)]
    case Finishing => [Clear(id)]
    case Lost => []
  }

  /** A set flag can be cleared again exactly when its thread was started or still may be. */
  lemma FlagClearsIff(s: State, id: nat)
    requires Inv(s) && id in s.jobs
    ensures s.jobs[id].phase != Lost <==> exists actions :: !Flag(Run(s, actions), s.jobs[id].key)
  {
    var phase := s.jobs[id].phase;
    if phase == Lost {
      forall actions ensures Flag(Run(s, actions), s.jobs[id].key) {
        LostFlagSticks(s, actions, id);
      }
    } else {
      RestClears(s, id);
    }
  }

  lemma RunOne(s: State, a: Action)
    ensures Run(s, [a]) == Step(s, a)
  {
    assert [a][..0] == [];
  }

  lemma {:induction false} RestClears(s: State, id: nat)
    requires Inv(s) && id in s.jobs && s.jobs[id].phase != Lost
    ensures !Flag(Run(s, Rest(s.jobs[id].phase, id)), s.jobs[id].key)
    decreases |Rest(s.jobs[id].phase, id)|
  {
    var rest := Rest(s.jobs[id].phase, id);
    RunOne(s, rest[0]);
    StepKeeps(s, rest[0]);
    if s.jobs[id].phase.Finishing? {
      ClearKeeps(s, id);
    } else {
      var s' := Step(s, rest[0]);
      assert rest == [rest[0]] + Rest(s'.jobs[id].phase, id);
      RunAppend(s, [rest[0]], Rest(s'.jobs[id].phase, id));
      RestClears(s', id);
    }
  }

  /** A refresh's compute ends: its answer is stored, or it raised and nothing is. */
  function Settled(s: State, id: nat, outcome: Option<int>): State {
    if outcome.None? then Step(s, Raises(id)) else Step(Step(s, Returns(id, outcome.value)), Store(id))
  }

  /**
   A reader of a fresh answer is told that nothing is on its way even while a refresh is: a
   synchronous recompute may have stored an answer behind the refresh's back.
   */
  lemma FreshWhileRefreshing(s: State, id: nat, key: int, payload: int)
    requires Inv(s) && id !in s.jobs && !Flag(s, key)
    ensures var s' := Run(s, [Begin(id, key), Spawn(id), StoreNow(key, payload)]);
            && Inv(s') && InFlight(s', key) && key in s'.cache
            && s'.cache[key].at == s'.clock
  {
    var all := [Begin(id, key), Spawn(id), StoreNow(key, payload)];
    RunKeeps(s, all);
    assert all == [Begin(id, key)] + [Spawn(id)] + [StoreNow(key, payload)];
    RunThree(s, Begin(id, key), [Spawn(id)], StoreNow(key, payload));
    RunOne(Step(s, Begin(id, key)), Spawn(id));
    assert id in Run(s, all).jobs && Run(s, all).jobs[id].key == key;
  }

  // --------------------------------------------------------------------- the object

  /** What `read` gives: nothing yet, an answer with its age, or the exception of a thread that would not start. */
  datatype Reply = Empty | Answer(payload: int, age: int) | Raised

  /** Where the caller goes from the lock section: straight on, or to the thread it starts. */
  function Onwards(seen: State, id: nat, running: bool, beforeStart: seq<Action>, startFails: bool): State {
    if running then seen else Step(Run(seen, beforeStart), if startFails then SpawnFails(id) else Spawn(id))
  }

  /**
   The refresh a caller is told of may be over when it is told: its thread may store and
   clear the flag before `Thread.start` returns.
   */
  lemma OverBeforeReturn(s: State, id: nat, key: int, payload: int)
    requires Inv(s) && id !in s.jobs && !Flag(s, key)
    ensures var seen := Step(s, Begin(id, key));
            var after := Run(Onwards(seen, id, false, [], false), [Returns(id, payload), Store(id), Clear(id)]);
            && Flag(seen, key) && !Flag(after, key)
            && key in after.cache && after.cache[key] == Entry(s.clock, payload)
  {
    BeginKeeps(s, id, key);
    var computing := Step(Run(Step(s, Begin(id, key)), []), Spawn(id));
    assert [Returns(id, payload), Store(id), Clear(id)] == [Returns(id, payload)] + [Store(id)] + [Clear(id)];
    RunThree(computing, Returns(id, payload), [Store(id)], Clear(id));
    RunOne(Step(computing, Returns(id, payload)), Store(id));
  }

  class BackgroundCache {
    const ttl: nat
    var clock: nat
    var cache: map<int, Entry>
    var refreshing: map<int, bool>
    var jobs: map<nat, Job>

    function View(): State
      reads this
    {
      State(clock, cache, refreshing, jobs)
    }

    /** Whatever the other threads do in the meantime. */
    method Meanwhile(actions: seq<Action>)
      modifies this
      ensures View() == Run(old(View()), actions)
    {
      var s := Run(View(), actions);
      clock, cache, refreshing, jobs := s.clock, s.cache, s.refreshing, s.jobs;
    }

    /**
     Ensure a refresh is in flight. Only the section that looks at the flag and sets it holds
     the lock; `seen` is the state it leaves. The thread is started after it, and may be done
     before the call returns.
     */
    method StartRefresh(id: nat, key: int, beforeStart: seq<Action>, startFails: bool, beforeReturn: seq<Action>)
      returns (computing: bool, raised: bool, ghost seen: State)
      requires Inv(View()) && id !in jobs && AllForeign(beforeStart, id)
      modifies this
      ensures seen == (if old(Flag(View(), key)) then old(View()) else Step(old(View()), Begin(id, key)))
      ensures Flag(seen, key)
      ensures View() == Run(Onwards(seen, id, old(Flag(View(), key)), beforeStart, startFails), beforeReturn)
      ensures raised == (startFails && !old(Flag(View(), key)))
      ensures computing == !raised
      // A thread that would not start is never heard of again, and leaves the flag set.
      ensures raised ==> id in jobs && jobs[id] == Job(key, Lost) && key in refreshing && refreshing[key]
      ensures Inv(seen) && Inv(View()) && Onward(old(View()), View())
    {
      ghost var s0 := View();
      if Flag(View(), key) {
        RunKeeps(s0, beforeReturn);
        RunGoesOnward(s0, beforeReturn);
        Meanwhile(beforeReturn);
        return true, false, s0;
      }
      BeginKeeps(s0, id, key);
      refreshing := refreshing[key := true];
      jobs := jobs[id := Job(key, Claimed)];
      seen := View();
      StartThread(id, key, beforeStart, startFails);
      RunKeeps(View(), beforeReturn);
      RunGoesOnward(View(), beforeReturn);
      if startFails { LostFlagSticks(View(), beforeReturn, id); }
      Meanwhile(beforeReturn);
      computing, raised := !startFails, startFails;
    }

    method StartThread(id: nat, key: int, beforeStart: seq<Action>, startFails: bool)
      requires Inv(View()) && At(View(), id, Claimed) && AllForeign(beforeStart, id)
      modifies this
      ensures View() == Onwards(old(View()), id, false, beforeStart, startFails)
      ensures At(View(), id, if startFails then Lost else Computing) && jobs[id].key == old(jobs[id].key)
      ensures Inv(View()) && Onward(old(View()), View())
    {
      OthersLeaveMine(View(), beforeStart, id);
      RunKeeps(View(), beforeStart);
      RunGoesOnward(View(), beforeStart);
      Meanwhile(beforeStart);
      var phase := if startFails then Lost else Computing;
      MoveKeeps(View(), id, phase);
      jobs := jobs[id := Job(jobs[id].key, phase)];
    }

    /** The thread's try: store the answer, or keep the last good one when the compute raised. */
    method StoreOrKeep(id: nat, outcome: Option<int>)
      requires Inv(View()) && At(View(), id, Computing)
      modifies this
      ensures View() == Settled(old(View()), id, outcome)
      ensures cache == if outcome.None? then old(cache)
              else old(cache)[old(jobs[id].key) := Entry(clock, outcome.value)]
      ensures clock == old(clock)
      ensures Inv(View()) && At(View(), id, Finishing) && jobs[id].key == old(jobs[id].key)
    {
      var key := jobs[id].key;
      if outcome.Some? {
        StepKeeps(View(), Returns(id, outcome.value));
        StepKeeps(Step(View(), Returns(id, outcome.value)), Store(id));
        cache := cache[key := Entry(clock, outcome.value)];
      } else {
        StepKeeps(View(), Raises(id));
      }
      jobs := jobs[id := Job(key, Finishing)];
      assert View().jobs == Settled(old(View()), id, outcome).jobs;
    }

    /** The thread's finally. */
    method ClearFlag(id: nat)
      requires Inv(View()) && At(View(), id, Finishing)
      modifies this
      ensures View() == Step(old(View()), Clear(id))
      ensures Inv(View()) && id !in jobs && !Flag(View(), old(jobs[id].key))
    {
      ClearKeeps(View(), id);
      refreshing := refreshing[jobs[id].key := false];
      jobs := jobs - {id};
    }

    /**
     The refresh thread: compute, store the answer if there is one, and clear the flag in
     either case, others running before and after the store.
     */
    method RunThread(id: nat, outcome: Option<int>, during: seq<Action>, after: seq<Action>)
      requires Inv(View()) && At(View(), id, Computing) && AllForeign(during, id) && AllForeign(after, id)
      modifies this
      ensures View() == Step(Run(Settled(Run(old(View()), during), id, outcome), after), Clear(id))
      ensures outcome.Some? ==> old(jobs[id].key) in cache && cache[old(jobs[id].key)].at >= old(clock)
      ensures Inv(View()) && id !in jobs && !Flag(View(), old(jobs[id].key))
    {
      OthersLeaveMine(View(), during, id);
      RunKeeps(View(), during);
      RunGoesOnward(View(), during);
      Meanwhile(during);
      StoreOrKeep(id, outcome);
      OthersLeaveMine(View(), after, id);
      RunKeeps(View(), after);
      RunGoesOnward(View(), after);
      Meanwhile(after);
      ClearFlag(id);
    }

    /** The synchronous path: compute, then store; a compute that raises stores nothing. */
    method ComputeNow(key: int, outcome: Option<int>, during: seq<Action>) returns (r: Reply)
      requires Inv(View())
      modifies this
      ensures Inv(View())
      ensures outcome.None? ==> r == Raised && View() == Run(old(View()), during)
      ensures outcome.Some?
              ==> r == Answer(outcome.value, 0)
                  && View() == Step(Run(old(View()), during), StoreNow(key, outcome.value))
    {
      RunKeeps(View(), during);
      Meanwhile(during);
      if outcome.None? { return Raised; }
      StepKeeps(View(), StoreNow(key, outcome.value));
      cache := cache[key := Entry(clock, outcome.value)];
      r := Answer(outcome.value, 0);
    }

    /**
     The cached answer, starting a refresh when it is stale. The clock is read first, then
     the entry, neither under the lock. `seen` is the state in which the flag was looked at
     or set, for a reader that came so far.
     */
    method Read(id: nat, key: int, beforeGet: seq<Action>, beforeLock: seq<Action>, beforeStart: seq<Action>,
                startFails: bool, beforeReturn: seq<Action>)
      returns (r: Reply, computing: bool, ghost seen: State)
      requires Inv(View()) && id !in jobs
      requires AllForeign(beforeGet, id) && AllForeign(beforeLock, id) && AllForeign(beforeStart, id)
      modifies this
      ensures Inv(View()) && Onward(old(View()), View())
      ensures old(key in cache) ==> r != Empty
      ensures var peeked := Run(old(View()), beforeGet);
              && (r == Empty ==> key !in peeked.cache)
              && (r.Answer? ==>
                    && key in peeked.cache
                    && r == Answer(peeked.cache[key].payload, old(clock) - peeked.cache[key].at))
              && (r != Raised ==> (computing <==> key !in peeked.cache || old(clock) - peeked.cache[key].at > ttl))
      // A missing or stale entry has a refresh in flight, begun here unless one was; a fresh one begins none.
      ensures var peeked := Run(old(View()), beforeGet);
              if key in peeked.cache && old(clock) - peeked.cache[key].at <= ttl then r.Answer? && !computing
              else key in seen.refreshing && seen.refreshing[key]
                   && exists i :: i in seen.jobs && seen.jobs[i].key == key
      ensures r == Raised ==> startFails
      ensures var peeked := Run(old(View()), beforeGet);
              var locked := Run(peeked, beforeLock);
              if key in peeked.cache && old(clock) - peeked.cache[key].at <= ttl
              then View() == Run(peeked, beforeReturn)
              else
                && seen == (if Flag(locked, key) then locked else Step(locked, Begin(id, key))) && Flag(seen, key)
                && View() == Run(Onwards(seen, id, Flag(locked, key), beforeStart, startFails), beforeReturn)
    {
      ghost var s0 := View();
      var now := clock;
      RunKeeps(s0, beforeGet);
      RunGoesOnward(s0, beforeGet);
      ForeignStaysOut(s0, beforeGet, id);
      Meanwhile(beforeGet);
      seen := View();
      var hit := if key in cache then Some(cache[key]) else None;
      computing := hit.None? || now - hit.value.at > ttl;
      if computing {
        RunKeeps(View(), beforeLock);
        RunGoesOnward(View(), beforeLock);
        ForeignStaysOut(View(), beforeLock, id);
        Meanwhile(beforeLock);
        var raised;
        computing, raised, seen := StartRefresh(id, key, beforeStart, startFails, beforeReturn);
        if raised { return Raised, false, seen; }
        if hit.None? { return Empty, computing, seen; }
      } else {
        RunKeeps(View(), beforeReturn);
        RunGoesOnward(View(), beforeReturn);
        Meanwhile(beforeReturn);
      }
      r := Answer(hit.value.payload, now - hit.value.at);
    }
  }

  lemma RunThree(s: State, first: Action, middle: seq<Action>, last: Action)
    ensures Run(s, [first] + middle + [last]) == Step(Run(Step(s, first), middle), last)
  {
    RunAppend(s, [first] + middle, [last]);
    RunAppend(s, [first], middle);
    RunOne(s, first);
    RunOne(Run(s, [first] + middle), last);
  }

  /** Others never start a refresh under this one's name. */
  lemma {:induction false} ForeignStaysOut(s: State, actions: seq<Action>, id: nat)
    requires AllForeign(actions, id) && id !in s.jobs
    ensures id !in Run(s, actions).jobs
  {
    if actions != [] {
      var n := |actions| - 1;
      assert actions[n] in actions && forall a :: a in actions[..n] ==> a in actions;
      ForeignStaysOut(s, actions[..n], id);
    }
  }
}
