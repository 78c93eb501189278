/** The lease protocol that keeps two indexer processes from working on the same token. */
module Lease {
  import opened Base

  /** A row of the lease table. */
  datatype Row = Row(holder: nat, expires: nat)

  type Rows = map<nat, Row>

  /** What a process keeps after acquiring: when it last acquired or renewed. A guard that was dropped counts until
      its delete, a task of its own, has run. */
  datatype Guard = Guard(process: nat, key: nat, stamp: nat)

  datatype State = State(rows: Rows, now: nat, guards: map<nat, Guard>, next: nat)

  datatype Action =
    | Acquire(process: nat, key: nat)
    | Renew(guard: nat)
    | Release(guard: nat)
    | Abandon(guard: nat)
    | Tick(span: nat)

  // ------------------------------------------------------------- the three statements

  /** The insert goes through: no row, one's own row, or a row that expired strictly before now. */
  predicate CanTake(rows: Rows, holder: nat, key: nat, now: nat) {
    key in rows ==> rows[key].holder == holder || rows[key].expires < now
  }

  predicate Holds(rows: Rows, holder: nat, key: nat) { key in rows && rows[key].holder == holder }

  // ---------------------------------------------------------------------- all runs

  /** One step of the system; each statement is one step. A release without effect on the table, and a process
      that dies, both abandon the guard. */
  function Step(ttl: nat, s: State, a: Action): State {
    match a
    case Acquire(p, k) =>
      if CanTake(s.rows, p, k, s.now)
      then State(s.rows[k := Row(p, s.now + ttl)], s.now, s.guards[s.next := Guard(p, k, s.now)], s.next + 1)
      else s
    case Renew(i) =>
      if i in s.guards && Holds(s.rows, s.guards[i].process, s.guards[i].key)
      then
        var g := s.guards[i];
        s.(rows := s.rows[g.key := Row(g.process, s.now + ttl)], guards := s.guards[i := g.(stamp := s.now)])
      else s
    case Release(i) =>
      if i !in s.guards then s
      else
        var g := s.guards[i];
        s.(rows := if Holds(s.rows, g.process, g.key) then s.rows - {g.key} else s.rows, guards := s.guards - {i})
    case Abandon(i) => s.(guards := s.guards - {i})
    case Tick(d) => s.(now := s.now + d)
  }

  function Empty(now: nat): State { State(map[], now, map[], 0) }

  /** Acquired or renewed at most one TTL ago. */
  predicate Fresh(ttl: nat, s: State, i: nat)
    requires i in s.guards
  {
    s.now <= s.guards[i].stamp + ttl
  }

  /** Guard `i` stands behind its row. */
  predicate OwnsRow(ttl: nat, s: State, i: nat)
    requires i in s.guards
  {
    var g := s.guards[i];
    Holds(s.rows, g.process, g.key) && s.rows[g.key].expires >= g.stamp + ttl
  }

  ghost predicate Owned(ttl: nat, s: State) {
    forall i :: i in s.guards && Fresh(ttl, s, i) ==> OwnsRow(ttl, s, i)
  }

  /** Stamps lie in the past and numbers are given out once. */
  ghost predicate Ordered(s: State) {
    forall i :: i in s.guards ==> i < s.next && s.guards[i].stamp <= s.now
  }

  /** Two guards of one process for one key. */
  predicate Twins(s: State, i: nat, j: nat) {
    && i in s.guards && j in s.guards && i != j
    && s.guards[i].process == s.guards[j].process && s.guards[i].key == s.guards[j].key
  }

  /** The step deletes a row that a second fresh guard of the same process relies on. */
  ghost predicate CutsTwin(ttl: nat, s: State, a: Action) {
    a.Release? && exists j :: Twins(s, a.guard, j) && Fresh(ttl, s, j)
  }

  /** Every step but one keeps ownership, and that one never does. */
  lemma OwnedKeptIff(ttl: nat, s: State, a: Action)
    requires Ordered(s) && Owned(ttl, s)
    ensures Owned(ttl, Step(ttl, s, a)) <==> !CutsTwin(ttl, s, a)
  {
    var s' := Step(ttl, s, a);
    if CutsTwin(ttl, s, a) {
      var j :| Twins(s, a.guard, j) && Fresh(ttl, s, j);
      assert OwnsRow(ttl, s, j);
      assert j in s'.guards && Fresh(ttl, s', j) && !OwnsRow(ttl, s', j);
    } else {
      forall i | i in s'.guards && Fresh(ttl, s', i) ensures OwnsRow(ttl, s', i) {
        if i in s.guards && Fresh(ttl, s, i) {
          assert OwnsRow(ttl, s, i);
          if a.Release? { assert !Twins(s, a.guard, i); }
        }
      }
    }
  }

  function Exec(ttl: nat, s: State, actions: seq<Action>): State
    decreases |actions|
  {
    if actions == [] then s else Exec(ttl, Step(ttl, s, actions[0]), actions[1..])
  }

  ghost predicate AlwaysOwned(ttl: nat, s: State, actions: seq<Action>)
    decreases |actions|
  {
    Owned(ttl, s) && (actions == [] || AlwaysOwned(ttl, Step(ttl, s, actions[0]), actions[1..]))
  }

  ghost predicate NeverCuts(ttl: nat, s: State, actions: seq<Action>)
    decreases |actions|
  {
    actions == [] || (!CutsTwin(ttl, s, actions[0]) && NeverCuts(ttl, Step(ttl, s, actions[0]), actions[1..]))
  }

  /** Over whole runs: fresh guards own their rows throughout exactly when no release cuts a twin. */
  lemma {:induction false} LeaseRunIff(ttl: nat, s: State, actions: seq<Action>)
    requires Ordered(s) && Owned(ttl, s)
    ensures AlwaysOwned(ttl, s, actions) <==> NeverCuts(ttl, s, actions)
    decreases |actions|
  {
    if actions == [] {
    } else {
      OwnedKeptIff(ttl, s, actions[0]);
      if !CutsTwin(ttl, s, actions[0]) { LeaseRunIff(ttl, Step(ttl, s, actions[0]), actions[1..]); }
    }
  }

  /** Two guards for one key, both fresh. */
  predicate BothFresh(ttl: nat, s: State, i: nat, j: nat) {
    i in s.guards && j in s.guards && Fresh(ttl, s, i) && Fresh(ttl, s, j) && s.guards[i].key == s.guards[j].key
  }

  /** No two processes hold fresh guards for one key. */
  ghost predicate Exclusive(ttl: nat, s: State) {
    forall i, j :: BothFresh(ttl, s, i, j) ==> s.guards[i].process == s.guards[j].process
  }

  /** A process acquires a key only when it has no guard for it, dropped ones included. */
  ghost predicate OneGuard(ttl: nat, s: State, actions: seq<Action>)
    decreases |actions|
  {
    actions == [] ||
    (&& (actions[0].Acquire? ==> forall i :: i in s.guards ==>
           !(s.guards[i].process == actions[0].process && s.guards[i].key == actions[0].key))
     && OneGuard(ttl, Step(ttl, s, actions[0]), actions[1..]))
  }

  lemma {:induction false} OneGuardNeverCuts(ttl: nat, s: State, actions: seq<Action>)
    requires Ordered(s) && forall i, j :: !Twins(s, i, j)
    requires OneGuard(ttl, s, actions)
    ensures NeverCuts(ttl, s, actions) && forall i, j :: !Twins(Exec(ttl, s, actions), i, j)
    decreases |actions|
  {
    if actions == [] {
    } else {
      var s' := Step(ttl, s, actions[0]);
      forall i, j ensures !Twins(s', i, j) {
        assert !Twins(s, i, j);
      }
      OneGuardNeverCuts(ttl, s', actions[1..]);
    }
  }

  lemma {:induction false} OwnedAtEnd(ttl: nat, s: State, actions: seq<Action>)
    requires AlwaysOwned(ttl, s, actions)
    ensures Owned(ttl, Exec(ttl, s, actions))
    decreases |actions|
  {
    if actions == [] {
    } else {
      OwnedAtEnd(ttl, Step(ttl, s, actions[0]), actions[1..]);
    }
  }

  /**
   Lease exclusion. In every run in which a process has at most one guard per key, whatever the order of acquires,
   renewals, releases, deaths and clock ticks: a guard stamped at most one TTL ago owns its row, and all
   fresh guards for one key are one and the same guard.
   */
  lemma LeaseExclusion(ttl: nat, now: nat, actions: seq<Action>, i: nat, j: nat)
    requires OneGuard(ttl, Empty(now), actions)
    ensures var s := Exec(ttl, Empty(now), actions);
            && (i in s.guards && Fresh(ttl, s, i) ==> OwnsRow(ttl, s, i))
            && (BothFresh(ttl, s, i, j) ==> i == j)
  {
    var s := Exec(ttl, Empty(now), actions);
    OneGuardNeverCuts(ttl, Empty(now), actions);
    LeaseRunIff(ttl, Empty(now), actions);
    OwnedAtEnd(ttl, Empty(now), actions);
    assert !Twins(s, i, j);
  }

  // -------------------------------------------------------------------- a lease ends

  /** No row outlives one TTL from now. */
  ghost predicate Timely(ttl: nat, s: State) {
    forall k :: k in s.rows ==> s.rows[k].expires <= s.now + ttl
  }

  lemma {:induction false} TimelyRun(ttl: nat, s: State, actions: seq<Action>)
    requires Timely(ttl, s)
    ensures Timely(ttl, Exec(ttl, s, actions))
    decreases |actions|
  {
    if actions == [] {
    } else {
      TimelyRun(ttl, Step(ttl, s, actions[0]), actions[1..]);
    }
  }

  /** The step tries to take or to renew the lease of the key. */
  predicate Stamps(s: State, a: Action, key: nat) {
    || (a.Acquire? && a.key == key)
    || (a.Renew? && a.guard in s.guards && s.guards[a.guard].key == key)
  }

  ghost predicate LeftAlone(ttl: nat, s: State, actions: seq<Action>, key: nat)
    decreases |actions|
  {
    actions == [] || (!Stamps(s, actions[0], key) && LeftAlone(ttl, Step(ttl, s, actions[0]), actions[1..], key))
  }

  lemma {:induction false} AloneKeepsExpiry(ttl: nat, s: State, actions: seq<Action>, key: nat)
    requires LeftAlone(ttl, s, actions, key)
    ensures var s' := Exec(ttl, s, actions);
            key in s'.rows ==> key in s.rows && s'.rows[key] == s.rows[key]
    decreases |actions|
  {
    if actions == [] {
    } else {
      AloneKeepsExpiry(ttl, Step(ttl, s, actions[0]), actions[1..], key);
    }
  }

  /**
   A lease ends. In every run, if more than one TTL passes without anyone acquiring or renewing a key, whatever its
   holder does or however it died: any process that asks next gets a guard, and its row ends one TTL later.
   */
  lemma LeaseEnds(ttl: nat, now: nat, before: seq<Action>, after: seq<Action>, process: nat, key: nat)
    requires LeftAlone(ttl, Exec(ttl, Empty(now), before), after, key)
    ensures var s := Exec(ttl, Empty(now), before);
            var s' := Exec(ttl, s, after);
            var s'' := Step(ttl, s', Acquire(process, key));
            s'.now > s.now + ttl ==>
              && s'.next in s''.guards && s''.guards[s'.next] == Guard(process, key, s'.now)
              && key in s''.rows && s''.rows[key] == Row(process, s'.now + ttl)
  {
    TimelyRun(ttl, Empty(now), before);
    AloneKeepsExpiry(ttl, Exec(ttl, Empty(now), before), after, key);
  }

  /** So a process that died is replaced at the first try after its TTL. */
  lemma DeadHolderIsReplaced(ttl: nat, now: nat, before: seq<Action>, process: nat, key: nat)
    ensures var s := Exec(ttl, Empty(now), before);
            var s' := Step(ttl, Step(ttl, s, Tick(ttl + 1)), Acquire(process, key));
            && s'.now == s.now + ttl + 1
            && key in s'.rows && s'.rows[key] == Row(process, s.now + ttl + 1 + ttl)
            && s.next in s'.guards && s'.guards[s.next] == Guard(process, key, s.now + ttl + 1)
  {
    var s := Exec(ttl, Empty(now), before);
    assert Exec(ttl, s, [Tick(ttl + 1)]) == Exec(ttl, Step(ttl, s, Tick(ttl + 1)), []);
    LeaseEnds(ttl, now, before, [Tick(ttl + 1)], process, key);
  }

  /** Whatever a process does with a guard, it never changes a row of another holder. */
  lemma SuccessorKept(ttl: nat, s: State, a: Action, i: nat, k: nat)
    requires i in s.guards && (a == Renew(i) || a == Release(i) || a == Abandon(i))
    requires k in s.rows && s.rows[k].holder != s.guards[i].process
    ensures k in Step(ttl, s, a).rows && Step(ttl, s, a).rows[k] == s.rows[k]
  {
  }

  /** One guard per process and key is needed: the delete of a dropped guard that runs after the process acquired
      again removes the new guard's row, and a second process gets in beside a fresh guard. */
  lemma LateDeleteBreaksExclusion(ttl: nat, now: nat)
    ensures var run := [Acquire(1, 0), Acquire(1, 0), Release(0), Acquire(2, 0)];
            !Exclusive(ttl, Exec(ttl, Empty(now), run))
  {
    var run := [Acquire(1, 0), Acquire(1, 0), Release(0), Acquire(2, 0)];
    var s1 := Step(ttl, Empty(now), run[0]);
    var s2 := Step(ttl, s1, run[1]);
    var s3 := Step(ttl, s2, run[2]);
    var s4 := Step(ttl, s3, run[3]);
    assert run[1..][1..] == run[2..] && run[2..][1..] == run[3..] && run[3..][1..] == [];
    assert Exec(ttl, Empty(now), run) == Exec(ttl, s1, run[1..]) == Exec(ttl, s2, run[2..]) == Exec(ttl, s3, run[3..])
        == s4;
    assert s4.guards[1] == Guard(1, 0, now) && s4.guards[2] == Guard(2, 0, now);
    assert BothFresh(ttl, s4, 1, 2);
  }

  // ------------------------------------------------------------------ the three statements at work

  /** The lease table and the guards the processes hold; every method is the statement of the same name. */
  class Leases {
    const ttl: nat
    var s: State

    ghost predicate Valid()
      reads this
    {
      Ordered(s) && Owned(ttl, s) && Timely(ttl, s)
    }

    constructor (ttl: nat, now: nat)
      ensures Valid() && s == Empty(now) && this.ttl == ttl
    {
      this.ttl, s := ttl, Empty(now);
    }

    /** `try_acquire_lock`: a guard it hands out owns its row, and no other process has a fresh guard for the key. */
    method TryAcquire(process: nat, key: nat) returns (guard: Option<nat>)
      requires Valid()
      modifies this
      ensures Valid() && s == Step(ttl, old(s), Acquire(process, key))
      ensures guard.Some? ==> guard.value in s.guards && Fresh(ttl, s, guard.value) && OwnsRow(ttl, s, guard.value)
      ensures guard.Some? ==> forall i :: i in s.guards && Fresh(ttl, s, i) && s.guards[i].key == key ==>
                s.guards[i].process == process
      ensures guard.Some? ==> s.guards[guard.value] == Guard(process, key, s.now)
      ensures guard.Some? ==> s.rows == old(s).rows[key := Row(process, s.now + ttl)]
      ensures guard.None? <==> key in old(s).rows && var row := old(s).rows[key];
                               row.holder != process && row.expires >= s.now
      ensures guard.None? ==> s == old(s)
    {
      OwnedKeptIff(ttl, s, Acquire(process, key));
      if key in s.rows && s.rows[key].holder != process && s.rows[key].expires >= s.now { return None; }
      guard := Some(s.next);
      s := State(s.rows[key := Row(process, s.now + ttl)], s.now,
                 s.guards[s.next := Guard(process, key, s.now)], s.next + 1);
      forall i | i in s.guards && Fresh(ttl, s, i) && s.guards[i].key == key ensures s.guards[i].process == process {
        assert OwnsRow(ttl, s, i);
      }
    }

    /** `renew_lease`: a fresh guard never fails to renew, and a guard that fails changes nothing. */
    method Renew(i: nat) returns (renewed: bool)
      requires Valid() && i in s.guards
      modifies this
      ensures Valid() && s == Step(ttl, old(s), Action.Renew(i)) && i in s.guards
      ensures Fresh(ttl, old(s), i) ==> renewed
      ensures renewed ==> Fresh(ttl, s, i) && OwnsRow(ttl, s, i)
      ensures renewed ==> var g := s.guards[i];
                g.stamp == s.now && s.rows == old(s).rows[g.key := Row(g.process, s.now + ttl)]
      ensures renewed <==> var g := old(s).guards[i]; g.key in old(s).rows && old(s).rows[g.key].holder == g.process
      ensures !renewed ==> s == old(s)
    {
      OwnedKeptIff(ttl, s, Action.Renew(i));
      var g := s.guards[i];
      if g.key !in s.rows || s.rows[g.key].holder != g.process { return false; }
      s := s.(rows := s.rows[g.key := Row(g.process, s.now + ttl)], guards := s.guards[i := g.(stamp := s.now)]);
      return true;
    }

    /** `release_lease` after the renewal task has ended: a fresh guard always finds its row, a lost guard deletes
        nothing, and ownership survives exactly when no second fresh guard of the process relied on the row. */
    method Release(i: nat) returns (deleted: bool)
      requires Valid() && i in s.guards
      modifies this
      ensures Ordered(s) && Timely(ttl, s) && s == Step(ttl, old(s), Action.Release(i))
      ensures s.guards == old(s).guards - {i}
      ensures deleted <==> var g := old(s).guards[i]; g.key in old(s).rows && old(s).rows[g.key].holder == g.process
      ensures deleted ==> s.rows == old(s).rows - {old(s).guards[i].key}
      ensures Fresh(ttl, old(s), i) ==> deleted
      ensures !deleted ==> s.rows == old(s).rows
      ensures Owned(ttl, s) <==> !CutsTwin(ttl, old(s), Action.Release(i))
    {
      OwnedKeptIff(ttl, s, Action.Release(i));
      var g := s.guards[i];
      deleted := g.key in s.rows && s.rows[g.key].holder == g.process;
      if deleted {
        s := s.(rows := s.rows - {g.key}, guards := s.guards - {i});
      } else {
        s := s.(guards := s.guards - {i});
      }
    }
  }
}
