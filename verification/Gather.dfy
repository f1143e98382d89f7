/** The goroutines of `fetchMemberReport`: one per repository group, appending to a shared slice
    under a mutex, with a wait group. Every load, store, lock and unlock is a step of its own and
    the steps of different goroutines interleave freely. */
module Gather {
  import opened Seqs
  import opened Domain

  /** What one call to a fetcher brings: its activities, or an error. */
  type Outcome = Option<seq<Activity>>

  /** The calls of one goroutine in order: one per repository of the group, then the search. */
  type Script = seq<Outcome>

  /** Where a goroutine is within its call number `k`. */
  datatype Routine =
    | Calling(k: nat)
    | Locking(k: nat)
    | Loading(k: nat)
    | Storing(k: nat, local: seq<Activity>)
    | Unlocking(k: nat)
    | Exited

  /** A batch as it was stored, with the goroutine that stored it. */
  datatype Entry = Entry(owner: nat, batch: seq<Activity>)

  /** `waiting` is the wait group's counter; `log` records the stores and steers nothing. */
  datatype State = State(routines: seq<Routine>, shared: seq<Activity>, mutex: Option<nat>, waiting: nat, log: seq<Entry>)

  const INITIAL := State([], [], None, 0, [])

  /** `wg.Add(1)` and the `go` statement. */
  function Spawn(s: State): State {
    s.(routines := s.routines + [Calling(0)], waiting := s.waiting + 1)
  }

  /** One step of goroutine `t`, or `None` when it cannot move. */
  function Advance(scripts: seq<Script>, s: State, t: nat): Option<State>
    requires t < |s.routines| <= |scripts|
  {
    var script := scripts[t];
    match s.routines[t]
    case Calling(k) =>
      if k < |script| then
        // A failed call is logged and skipped.
        Some(s.(routines := s.routines[t := if script[k].Some? then Locking(k) else Calling(k + 1)]))
      else
        // Deferred `wg.Done()`.
        Some(s.(routines := s.routines[t := Exited], waiting := if s.waiting == 0 then 0 else s.waiting - 1))
    case Locking(k) =>
      if s.mutex.None? then Some(s.(routines := s.routines[t := Loading(k)], mutex := Some(t))) else None
    case Loading(k) =>
      Some(s.(routines := s.routines[t := Storing(k, s.shared)]))
    case Storing(k, local) =>
      if k < |script| && script[k].Some? then
        Some(s.(routines := s.routines[t := Unlocking(k)], shared := local + script[k].value,
                log := s.log + [Entry(t, script[k].value)]))
      else None
    case Unlocking(k) =>
      Some(s.(routines := s.routines[t := Calling(k + 1)], mutex := None))
    case Exited => None
  }

  // ----- What the log says

  /** The batches of goroutine `t`, in the order it stored them. */
  function Projection(log: seq<Entry>, t: nat): seq<seq<Activity>> {
    if log == [] then []
    else
      var last := log[|log| - 1];
      Projection(log[..|log| - 1], t) + if last.owner == t then [last.batch] else []
  }

  function Flat(log: seq<Entry>): seq<Activity> {
    if log == [] then [] else Flat(log[..|log| - 1]) + log[|log| - 1].batch
  }

  /** The batches of the calls that did not fail, in order. */
  function Successes(script: Script): seq<seq<Activity>> {
    if script == [] then []
    else
      var last := script[|script| - 1];
      Successes(script[..|script| - 1]) + if last.Some? then [last.value] else []
  }

  /** `shared` interleaves the successful batches of the scripts, each script's in order. */
  ghost predicate Merges(scripts: seq<Script>, shared: seq<Activity>) {
    exists log :: IsMergeLog(scripts, log) && Flat(log) == shared
  }

  ghost predicate IsMergeLog(scripts: seq<Script>, log: seq<Entry>) {
    && (forall e :: e in log ==> e.owner < |scripts|)
    && (forall t: nat :: t < |scripts| ==> Projection(log, t) == Successes(scripts[t]))
  }

  // ----- The invariant

  predicate Holding(r: Routine) {
    r.Loading? || r.Storing? || r.Unlocking?
  }

  /** How many of its calls a goroutine has dealt with. */
  function Dealt(script: Script, r: Routine): nat {
    match r
    case Unlocking(k) => k + 1
    case Exited => |script|
    case _ => r.k
  }

  ghost predicate RoutineOk(script: Script, s: State, t: nat)
    requires t < |s.routines|
  {
    var r := s.routines[t];
    && Dealt(script, r) <= |script|
    && (!r.Calling? && !r.Exited? ==> r.k < |script| && script[r.k].Some?)
    && (r.Storing? ==> r.local == s.shared)
    && (Holding(r) <==> s.mutex == Some(t))
    && Projection(s.log, t) == Successes(script[..Dealt(script, r)])
  }

  function Running(routines: seq<Routine>): nat {
    if routines == [] then 0
    else Running(routines[..|routines| - 1]) + if routines[|routines| - 1].Exited? then 0 else 1
  }

  ghost predicate Inv(scripts: seq<Script>, s: State) {
    && |s.routines| <= |scripts|
    && (forall t: nat :: t < |s.routines| ==> RoutineOk(scripts[t], s, t))
    && (s.mutex.Some? ==> s.mutex.value < |s.routines|)
    && s.waiting == Running(s.routines)
    && s.shared == Flat(s.log)
    && (forall e :: e in s.log ==> e.owner < |s.routines|)
  }

  lemma {:induction false} RunningUpdate(routines: seq<Routine>, t: nat, r: Routine)
    requires t < |routines|
    ensures Running(routines[t := r]) + (if routines[t].Exited? then 0 else 1)
         == Running(routines) + if r.Exited? then 0 else 1
  {
    var last := |routines| - 1;
    if t == last {
      assert routines[t := r][..last] == routines[..last];
    } else {
      RunningUpdate(routines[..last], t, r);
      assert routines[t := r][..last] == routines[..last][t := r];
    }
  }

  lemma {:induction false} ProjectionOfNone(log: seq<Entry>, t: nat)
    requires forall e :: e in log ==> e.owner < t
    ensures Projection(log, t) == []
  {
    if log != [] {
      assert log[|log| - 1] in log;
      ProjectionOfNone(log[..|log| - 1], t);
    }
  }

  lemma SpawnKeeps(scripts: seq<Script>, s: State)
    requires Inv(scripts, s) && |s.routines| < |scripts|
    ensures Inv(scripts, Spawn(s))
  {
    var s', n := Spawn(s), |s.routines|;
    assert s'.routines[..n] == s.routines;
    ProjectionOfNone(s.log, n);
    forall t: nat | t < n + 1
      ensures RoutineOk(scripts[t], s', t)
    {
      if t < n {
        assert RoutineOk(scripts[t], s, t);
      } else {
        assert Successes(scripts[t][..0]) == [];
      }
    }
  }

  lemma PrefixSuccesses(script: Script, k: nat)
    requires k < |script|
    ensures Successes(script[..k + 1]) == Successes(script[..k]) + if script[k].Some? then [script[k].value] else []
  {
    assert script[..k + 1][..k] == script[..k];
  }

  lemma AdvanceKeeps(scripts: seq<Script>, s: State, t: nat)
    requires Inv(scripts, s) && t < |s.routines| && Advance(scripts, s, t).Some?
    ensures Inv(scripts, Advance(scripts, s, t).value)
  {
    var s' := Advance(scripts, s, t).value;
    assert RoutineOk(scripts[t], s, t);
    RunningUpdate(s.routines, t, s'.routines[t]);
    assert s'.waiting == Running(s'.routines);
    if s.routines[t].Storing? {
      assert s'.log[..|s.log|] == s.log;
    }
    AdvanceKeepsSelf(scripts, s, t);
    forall u: nat | u < |s'.routines|
      ensures RoutineOk(scripts[u], s', u)
    {
      if u != t {
        AdvanceKeepsOther(scripts, s, t, u);
      }
    }
  }

  lemma CallKeepsSelf(scripts: seq<Script>, s: State, t: nat)
    requires Inv(scripts, s) && t < |s.routines| && s.routines[t].Calling?
    ensures RoutineOk(scripts[t], Advance(scripts, s, t).value, t)
  {
    var script, k := scripts[t], s.routines[t].k;
    assert RoutineOk(script, s, t);
    if k < |script| {
      PrefixSuccesses(script, k);
    } else {
      assert script[..k] == script;
      assert script[..|script|] == script;
    }
  }

  lemma StoreKeepsSelf(scripts: seq<Script>, s: State, t: nat)
    requires Inv(scripts, s) && t < |s.routines| && s.routines[t].Storing? && Advance(scripts, s, t).Some?
    ensures RoutineOk(scripts[t], Advance(scripts, s, t).value, t)
  {
    var s' := Advance(scripts, s, t).value;
    assert RoutineOk(scripts[t], s, t);
    PrefixSuccesses(scripts[t], s.routines[t].k);
    assert s'.log[..|s.log|] == s.log;
  }

  lemma AdvanceKeepsSelf(scripts: seq<Script>, s: State, t: nat)
    requires Inv(scripts, s) && t < |s.routines| && Advance(scripts, s, t).Some?
    ensures RoutineOk(scripts[t], Advance(scripts, s, t).value, t)
  {
    if s.routines[t].Calling? {
      CallKeepsSelf(scripts, s, t);
    } else if s.routines[t].Storing? {
      StoreKeepsSelf(scripts, s, t);
    } else {
      assert RoutineOk(scripts[t], s, t);
    }
  }

  lemma AdvanceKeepsOther(scripts: seq<Script>, s: State, t: nat, u: nat)
    requires Inv(scripts, s) && t < |s.routines| && u < |s.routines| && u != t && Advance(scripts, s, t).Some?
    ensures RoutineOk(scripts[u], Advance(scripts, s, t).value, u)
  {
    var s' := Advance(scripts, s, t).value;
    assert RoutineOk(scripts[t], s, t) && RoutineOk(scripts[u], s, u);
    if s.routines[t].Storing? {
      assert s'.log[..|s.log|] == s.log;
    }
  }

  /** No two goroutines are ever between lock and unlock together. */
  lemma MutualExclusion(scripts: seq<Script>, s: State, t: nat, u: nat)
    requires Inv(scripts, s) && t < |s.routines| && u < |s.routines|
    requires Holding(s.routines[t]) && Holding(s.routines[u])
    ensures t == u
  {
    assert RoutineOk(scripts[t], s, t) && RoutineOk(scripts[u], s, u);
  }

  // ----- What `wg.Wait()` guarantees

  lemma {:induction false} NoneRunning(routines: seq<Routine>, t: nat)
    requires Running(routines) == 0 && t < |routines|
    ensures routines[t].Exited?
  {
    if t < |routines| - 1 {
      NoneRunning(routines[..|routines| - 1], t);
    }
  }

  /** Once every goroutine was started and the counter is back at zero, the slice holds every
      successful batch exactly once, each goroutine's in its own order: no update was lost, and
      a failed call cost its own batch only. */
  lemma WaitGathersAll(scripts: seq<Script>, s: State)
    requires Inv(scripts, s) && |s.routines| == |scripts| && s.waiting == 0
    ensures Merges(scripts, s.shared)
  {
    forall t: nat | t < |scripts|
      ensures Projection(s.log, t) == Successes(scripts[t])
    {
      NoneRunning(s.routines, t);
      assert RoutineOk(scripts[t], s, t);
      assert scripts[t][..|scripts[t]|] == scripts[t];
    }
    assert IsMergeLog(scripts, s.log);
  }

  /** Everything the scripts bring, group by group. */
  function InOrder(scripts: seq<Script>): seq<Activity> {
    if scripts == [] then []
    else InOrder(scripts[..|scripts| - 1]) + Flatten(Successes(scripts[|scripts| - 1]))
  }

  ghost function Total<T>(part: nat -> multiset<T>, n: nat): multiset<T> {
    if n == 0 then multiset{} else Total(part, n - 1) + part(n - 1)
  }

  lemma {:induction false} TotalSame<T>(before: nat -> multiset<T>, after: nat -> multiset<T>, n: nat)
    requires forall t: nat :: t < n ==> after(t) == before(t)
    ensures Total(after, n) == Total(before, n)
  {
    if n != 0 {
      TotalSame(before, after, n - 1);
    }
  }

  /** One part growing makes the total grow by as much. */
  lemma {:induction false} TotalGrows<T>(before: nat -> multiset<T>, after: nat -> multiset<T>, n: nat, k: nat,
                                         more: multiset<T>)
    requires k < n && after(k) == before(k) + more
    requires forall t: nat :: t < n && t != k ==> after(t) == before(t)
    ensures Total(after, n) == Total(before, n) + more
  {
    if k == n - 1 {
      TotalSame(before, after, n - 1);
    } else {
      TotalGrows(before, after, n - 1, k, more);
    }
  }

  ghost function Parts(log: seq<Entry>): nat -> multiset<Activity> {
    (t: nat) => multiset(Flatten(Projection(log, t)))
  }

  lemma PartsPush(log: seq<Entry>, e: Entry, t: nat)
    ensures e.owner == t ==> Parts(log + [e])(t) == Parts(log)(t) + multiset(e.batch)
    ensures e.owner != t ==> Parts(log + [e])(t) == Parts(log)(t)
  {
    assert (log + [e])[..|log|] == log;
    if e.owner == t {
      FlattenPush(Projection(log, t), e.batch);
    } else {
      assert Projection(log, t) + [] == Projection(log, t);
    }
  }

  lemma PartsTotal(log: seq<Entry>, e: Entry, n: nat)
    requires e.owner < n
    ensures Total(Parts(log + [e]), n) == Total(Parts(log), n) + multiset(e.batch)
  {
    forall t: nat
      ensures e.owner == t ==> Parts(log + [e])(t) == Parts(log)(t) + multiset(e.batch)
      ensures e.owner != t ==> Parts(log + [e])(t) == Parts(log)(t)
    {
      PartsPush(log, e, t);
    }
    TotalGrows(Parts(log), Parts(log + [e]), n, e.owner, multiset(e.batch));
  }

  lemma {:induction false} FlatIsTotal(log: seq<Entry>, n: nat)
    requires forall e :: e in log ==> e.owner < n
    ensures multiset(Flat(log)) == Total(Parts(log), n)
  {
    if log == [] {
      TotalOfNone(n);
    } else {
      var front, last := log[..|log| - 1], log[|log| - 1];
      assert last in log && log == front + [last];
      FlatIsTotal(front, n);
      PartsTotal(front, last, n);
    }
  }

  lemma {:induction false} TotalOfNone(n: nat)
    ensures Total(Parts([]), n) == multiset{}
  {
    if n != 0 {
      TotalOfNone(n - 1);
    }
  }

  lemma {:induction false} TotalOfSteps<T>(part: nat -> multiset<T>, sum: nat -> multiset<T>, n: nat)
    requires sum(0) == multiset{}
    requires forall t: nat :: t < n ==> sum(t + 1) == sum(t) + part(t)
    ensures Total(part, n) == sum(n)
  {
    if n != 0 {
      TotalOfSteps(part, sum, n - 1);
      assert sum(n - 1 + 1) == sum(n - 1) + part(n - 1);
    }
  }

  ghost function Sums(scripts: seq<Script>): nat -> multiset<Activity> {
    (n: nat) => if n <= |scripts| then multiset(InOrder(scripts[..n])) else multiset{}
  }

  lemma SumsStep(scripts: seq<Script>, log: seq<Entry>, n: nat)
    requires n < |scripts| && Projection(log, n) == Successes(scripts[n])
    ensures Sums(scripts)(n + 1) == Sums(scripts)(n) + Parts(log)(n)
  {
    assert scripts[..n + 1][..n] == scripts[..n];
  }

  lemma SumsEnds(scripts: seq<Script>)
    ensures Sums(scripts)(0) == multiset{} && Sums(scripts)(|scripts|) == multiset(InOrder(scripts))
  {
    assert scripts[..|scripts|] == scripts;
  }

  lemma SumsSteps(scripts: seq<Script>, log: seq<Entry>)
    requires IsMergeLog(scripts, log)
    ensures forall t: nat :: t < |scripts| ==> Sums(scripts)(t + 1) == Sums(scripts)(t) + Parts(log)(t)
  {
    forall t: nat | t < |scripts|
      ensures Sums(scripts)(t + 1) == Sums(scripts)(t) + Parts(log)(t)
    {
      SumsStep(scripts, log, t);
    }
  }

  lemma TotalInOrder(scripts: seq<Script>, log: seq<Entry>)
    requires IsMergeLog(scripts, log)
    ensures Total(Parts(log), |scripts|) == Sums(scripts)(|scripts|)
  {
    SumsSteps(scripts, log);
    SumsEnds(scripts);
    TotalOfSteps(Parts(log), Sums(scripts), |scripts|);
  }

  /** A merge is the multiset sum of the goroutines' successful batches. */
  lemma MergeConserves(scripts: seq<Script>, shared: seq<Activity>)
    requires Merges(scripts, shared)
    ensures multiset(shared) == multiset(InOrder(scripts))
  {
    var log :| IsMergeLog(scripts, log) && Flat(log) == shared;
    FlatIsTotal(log, |scripts|);
    TotalInOrder(scripts, log);
    SumsEnds(scripts);
  }

  // ----- Progress

  /** Steps goroutine `r` still has before it. */
  function Remaining(script: Script, r: Routine): nat {
    match r
    case Calling(k) => if k <= |script| then 5 * (|script| - k) + 1 else 0
    case Locking(k) => if k < |script| then 5 * (|script| - k) else 0
    case Loading(k) => if k < |script| then 5 * (|script| - k) - 1 else 0
    case Storing(k, _) => if k < |script| then 5 * (|script| - k) - 2 else 0
    case Unlocking(k) => if k < |script| then 5 * (|script| - k) - 3 else 0
    case Exited => 0
  }

  function Work(scripts: seq<Script>, routines: seq<Routine>): nat
    requires |routines| <= |scripts|
  {
    if routines == [] then 0
    else
      var last := |routines| - 1;
      Work(scripts, routines[..last]) + Remaining(scripts[last], routines[last])
  }

  lemma {:induction false} WorkUpdate(scripts: seq<Script>, routines: seq<Routine>, t: nat, r: Routine)
    requires t < |routines| <= |scripts|
    ensures Work(scripts, routines[t := r]) + Remaining(scripts[t], routines[t])
         == Work(scripts, routines) + Remaining(scripts[t], r)
  {
    var last := |routines| - 1;
    if t == last {
      assert routines[t := r][..last] == routines[..last];
    } else {
      WorkUpdate(scripts, routines[..last], t, r);
      assert routines[t := r][..last] == routines[..last][t := r];
    }
  }

  lemma AdvanceWorks(scripts: seq<Script>, s: State, t: nat)
    requires Inv(scripts, s) && t < |s.routines| && Advance(scripts, s, t).Some?
    ensures Work(scripts, Advance(scripts, s, t).value.routines) < Work(scripts, s.routines)
  {
    assert RoutineOk(scripts[t], s, t);
    WorkUpdate(scripts, s.routines, t, Advance(scripts, s, t).value.routines[t]);
  }

  lemma {:induction false} SomeRunning(routines: seq<Routine>) returns (t: nat)
    requires 0 < Running(routines)
    ensures t < |routines| && !routines[t].Exited?
  {
    if routines[|routines| - 1].Exited? {
      t := SomeRunning(routines[..|routines| - 1]);
    } else {
      t := |routines| - 1;
    }
  }

  /** While the counter is positive some goroutine can move: there is no deadlock. */
  lemma SomeoneCanMove(scripts: seq<Script>, s: State) returns (t: nat)
    requires Inv(scripts, s) && 0 < s.waiting
    ensures t < |s.routines| && Advance(scripts, s, t).Some?
  {
    if s.mutex.Some? {
      t := s.mutex.value;
    } else {
      t := SomeRunning(s.routines);
    }
    assert RoutineOk(scripts[t], s, t);
  }
}
