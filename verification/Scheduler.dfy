/** The coroutine scheduler: an abstract machine and the linked list that implements it.  A context
    switch is a step between the worker and a coroutine. */
module Scheduler {
  import opened Options

  // ---------------------------------------------------------------- the abstract machine

  /** The ready queue, the running coroutine, the one waiting to be freed, and the history: what was
      spawned, what finished, what was freed, and whether the worker has returned. */
  datatype Sched = Sched(ready: seq<nat>, current: Option<nat>, cleanup: Option<nat>,
                                spawned: seq<nat>, finished: seq<nat>, freed: seq<nat>, returned: bool)

  datatype Op = Spawn(c: nat) | Yield | Finish | Work

  function Empty(): Sched {
    Sched([], None, None, [], [], [], false)
  }

  /** Whether the step can happen: coroutines act while one is running, the worker while none is;
      a spawned coroutine is new. */
  predicate Enabled(s: Sched, op: Op) {
    match op
    case Spawn(c) => c !in s.spawned && !s.returned
    case Yield => s.current.Some?
    case Finish => s.current.Some?
    case Work => s.current.None? && !s.returned
  }

  /** The worker first frees what has finished, then runs the next ready coroutine, or returns. */
  function Step(s: Sched, op: Op): Sched
    requires Enabled(s, op)
  {
    match op
    case Spawn(c) => s.(ready := s.ready + [c], spawned := s.spawned + [c])
    case Yield => s.(ready := s.ready + [s.current.value], current := None)
    case Finish => s.(current := None, cleanup := s.current, finished := s.finished + [s.current.value])
    case Work =>
      var t := if s.cleanup.Some? then s.(cleanup := None, freed := s.freed + [s.cleanup.value]) else s;
      if t.ready == [] then t.(returned := true) else t.(ready := t.ready[1..], current := Some(t.ready[0]))
  }

  predicate Distinct(s: seq<nat>) {
    forall i, j | 0 <= i < j < |s| :: s[i] != s[j]
  }

  /** The coroutines that have not finished. */
  function Unfinished(s: Sched): seq<nat> {
    s.ready + if s.current.Some? then [s.current.value] else []
  }

  /** Every spawned coroutine is ready, running or finished, in one way and once; the finished ones
      are freed in the order they finished, all but one that is waiting for the worker. */
  ghost predicate Inv(s: Sched) {
    && Distinct(s.spawned) && multiset(s.spawned) == multiset(Unfinished(s)) + multiset(s.finished)
    && s.finished == s.freed + (if s.cleanup.Some? then [s.cleanup.value] else [])
    && (s.current.Some? ==> s.cleanup.None?)
    && (s.returned ==> Unfinished(s) == [] && s.cleanup.None?)
  }

  lemma EmptyInv()
    ensures Inv(Empty())
  {
  }

  /** Every step keeps the invariant. */
  lemma StepInv(s: Sched, op: Op)
    requires Inv(s) && Enabled(s, op)
    ensures Inv(Step(s, op))
  {
    match op
    case Spawn(c) => SpawnInv(s, c);
    case Yield => YieldInv(s);
    case Finish => FinishInv(s);
    case Work => WorkInv(s);
  }

  lemma YieldInv(s: Sched)
    requires Inv(s) && s.current.Some?
    ensures Inv(Step(s, Yield))
  {
    assert Unfinished(Step(s, Yield)) == Unfinished(s);
  }

  lemma FinishInv(s: Sched)
    requires Inv(s) && s.current.Some?
    ensures Inv(Step(s, Finish))
  {
    assert Unfinished(s) == s.ready + [s.current.value] && Unfinished(Step(s, Finish)) == s.ready;
    Moved(s.spawned, s.ready, s.finished, s.current.value);
    assert s.finished == s.freed;
  }

  lemma WorkInv(s: Sched)
    requires Inv(s) && s.current.None? && !s.returned
    ensures Inv(Step(s, Work))
  {
    hide Distinct;
    var s' := Step(s, Work);
    assert Unfinished(s) == s.ready && s'.finished == s.finished && s'.spawned == s.spawned && s'.cleanup.None?;
    assert s'.freed + [] == s'.freed;
    if s.ready != [] {
      Rotated(s.ready);
      assert Unfinished(s') == s.ready[1..] + [s.ready[0]];
    } else {
      assert Unfinished(s') == [];
    }
  }

  lemma SpawnInv(s: Sched, c: nat)
    requires Inv(s) && c !in s.spawned && !s.returned
    ensures Inv(Step(s, Spawn(c)))
  {
    var tail := if s.current.Some? then [s.current.value] else [];
    Inserted(s.ready, c, tail);
    assert multiset(s.spawned + [c]) == multiset(s.spawned) + multiset{c};
  }

  lemma Inserted(a: seq<nat>, c: nat, b: seq<nat>)
    ensures multiset(a + [c] + b) == multiset(a + b) + multiset{c}
  {
    assert multiset(a + [c] + b) == multiset(a) + multiset{c} + multiset(b);
    assert multiset(a + b) == multiset(a) + multiset(b);
  }

  lemma Moved(whole: seq<nat>, a: seq<nat>, b: seq<nat>, c: nat)
    requires multiset(whole) == multiset(a + [c]) + multiset(b)
    ensures multiset(whole) == multiset(a) + multiset(b + [c])
  {
    assert multiset(a + [c]) == multiset(a) + multiset{c} && multiset(b + [c]) == multiset(b) + multiset{c};
  }

  lemma Rotated(a: seq<nat>)
    requires a != []
    ensures multiset(a[1..] + [a[0]]) == multiset(a)
  {
    assert a == [a[0]] + a[1..];
    assert multiset(a) == multiset{a[0]} + multiset(a[1..]);
  }

  /** A list without repetitions that is made up of two parts. */
  lemma PartsDistinct(whole: seq<nat>, a: seq<nat>, b: seq<nat>)
    requires Distinct(whole) && multiset(whole) == multiset(a) + multiset(b)
    ensures Distinct(a) && Distinct(b) && (forall c | c in b :: c !in a)
    ensures forall c :: c in whole <==> c in a || c in b
  {
    DistinctCounts(whole);
    assert forall c :: multiset(a)[c] <= multiset(whole)[c] && multiset(b)[c] <= multiset(whole)[c];
    CountsDistinct(a);
    CountsDistinct(b);
    forall c | c in b
      ensures c !in a
    {
      assert multiset(whole)[c] == multiset(a)[c] + multiset(b)[c] && multiset(b)[c] >= 1;
    }
    forall c ensures c in whole <==> c in a || c in b {
      assert c in multiset(whole) <==> c in multiset(a) || c in multiset(b);
    }
  }

  lemma {:induction false} DistinctCounts(a: seq<nat>)
    requires Distinct(a)
    ensures forall c :: multiset(a)[c] <= 1
    decreases |a|
  {
    if a != [] {
      var n := |a| - 1;
      DistinctCounts(a[..n]);
      assert a == a[..n] + [a[n]];
      assert a[n] !in multiset(a[..n]);
    }
  }

  lemma CountsDistinct(b: seq<nat>)
    requires forall c :: multiset(b)[c] <= 1
    ensures Distinct(b)
  {
    forall i, j | 0 <= i < j < |b|
      ensures b[i] != b[j]
    {
      CountOf(b, j);
      assert b[i] == b[..j][i] && b[i] in multiset(b[..j]);
    }
  }

  lemma CountOf(b: seq<nat>, j: nat)
    requires j < |b|
    ensures multiset(b)[b[j]] >= multiset(b[..j])[b[j]] + 1
  {
    assert b == b[..j + 1] + b[j + 1..] && b[..j + 1] == b[..j] + [b[j]];
    assert multiset(b) == multiset(b[..j + 1]) + multiset(b[j + 1..]);
    assert multiset(b[..j + 1]) == multiset(b[..j]) + multiset{b[j]};
  }

  // ---------------------------------------------------------------- runs

  /** The ops can happen one after the other. */
  predicate Runs(s: Sched, ops: seq<Op>)
    decreases |ops|
  {
    ops != [] ==> Enabled(s, ops[0]) && Runs(Step(s, ops[0]), ops[1..])
  }

  function After(s: Sched, ops: seq<Op>): Sched
    requires Runs(s, ops)
    decreases |ops|
  {
    if ops == [] then s else After(Step(s, ops[0]), ops[1..])
  }

  lemma {:induction false} RunInv(s: Sched, ops: seq<Op>)
    requires Inv(s) && Runs(s, ops)
    ensures Inv(After(s, ops))
    decreases |ops|
  {
    if ops != [] {
      StepInv(s, ops[0]);
      RunInv(Step(s, ops[0]), ops[1..]);
    }
  }

  /** In every run from the start each unfinished coroutine is ready or running, exactly once, and
      what is freed has finished and is freed once. */
  lemma EveryRun(ops: seq<Op>)
    requires Runs(Empty(), ops)
    ensures var s := After(Empty(), ops);
            && Distinct(Unfinished(s)) && Distinct(s.freed)
            && (forall c :: c in Unfinished(s) <==> c in s.spawned && c !in s.finished)
            && (forall c | c in s.freed :: c in s.finished && c !in Unfinished(s))
  {
    EmptyInv();
    RunInv(Empty(), ops);
    var s := After(Empty(), ops);
    PartsDistinct(s.spawned, Unfinished(s), s.finished);
    DistinctPrefix(s.finished, s.freed);
  }

  lemma DistinctPrefix(a: seq<nat>, b: seq<nat>)
    requires Distinct(a) && b <= a
    ensures Distinct(b) && forall c | c in b :: c in a
  {
  }

  /** The worker returns only when every spawned coroutine has finished and been freed. */
  lemma ReturnsWhenDone(ops: seq<Op>)
    requires Runs(Empty(), ops) && After(Empty(), ops).returned
    ensures var s := After(Empty(), ops);
            Distinct(s.freed) && forall c :: c in s.spawned <==> c in s.freed
  {
    EmptyInv();
    RunInv(Empty(), ops);
    var s := After(Empty(), ops);
    PartsDistinct(s.spawned, Unfinished(s), s.finished);
    assert s.freed + [] == s.freed;
  }

  /** When the worker acts everything that has finished is freed, and it returns if and only if every
      coroutine spawned has finished; otherwise one of those that have not runs. */
  lemma ReturnsExactly(ops: seq<Op>)
    requires Runs(Empty(), ops) && Enabled(After(Empty(), ops), Work)
    ensures var s := After(Empty(), ops);
            var s' := Step(s, Work);
            && s'.freed == s.finished && s'.cleanup.None?
            && (s'.returned <==> forall c | c in s.spawned :: c in s.finished)
            && (!s'.returned ==> s'.current.Some? && s'.current.value in s.spawned && s'.current.value !in s.finished)
  {
    EmptyInv();
    RunInv(Empty(), ops);
    var s := After(Empty(), ops);
    PartsDistinct(s.spawned, Unfinished(s), s.finished);
    assert Unfinished(s) == s.ready;
    assert s.freed + [] == s.freed;
    if s.ready != [] { assert s.ready[0] in s.ready; }
  }

  /** The number of times the worker acts. */
  function Works(ops: seq<Op>): nat {
    if ops == [] then 0 else (if ops[0].Work? then 1 else 0) + Works(ops[1..])
  }

  /** First in, first out: the coroutine at place k of the queue moves up one place each time the
      worker acts, whatever is spawned, yields or finishes in between, and runs when it is first. */
  lemma {:induction false} FirstInFirstOut(s: Sched, ops: seq<Op>, k: nat)
    requires Runs(s, ops) && k < |s.ready| && Works(ops) <= k
    ensures var s' := After(s, ops); k - Works(ops) < |s'.ready| && s'.ready[k - Works(ops)] == s.ready[k]
    decreases |ops|
  {
    if ops != [] {
      FirstInFirstOut(Step(s, ops[0]), ops[1..], if ops[0].Work? then k - 1 else k);
    }
  }

  /** Exactly k other dispatches come before it: the next time the worker acts, it runs. */
  lemma RunsInTurn(s: Sched, ops: seq<Op>, k: nat)
    requires Runs(s, ops) && k < |s.ready| && Works(ops) == k && Enabled(After(s, ops), Work)
    ensures Step(After(s, ops), Work).current == Some(s.ready[k])
  {
    FirstInFirstOut(s, ops, k);
  }

  // ---------------------------------------------------------------- the linked list

  /** A coroutine; the number only serves to tell coroutines apart in the specification. */
  class Coro {
    ghost const id: nat
    var prev: Coro?
    var next: Coro?

    constructor (ghost id: nat)
      ensures prev == null && next == null && this.id == id
    {
      this.id := id;
      prev, next := null, null;
    }
  }

  ghost function Ids(s: seq<Coro>): seq<nat> {
    seq(|s|, i requires 0 <= i < |s| => s[i].id)
  }

  lemma IdsAppend(s: seq<Coro>, t: seq<Coro>)
    ensures Ids(s + t) == Ids(s) + Ids(t)
  {
  }

  ghost function IdOf(c: Coro?): Option<nat> {
    if c == null then None else Some(c.id)
  }

  class Scheduler {
    var readyHead: Coro?
    var readyTail: Coro?
    var current: Coro?
    var cleanup: Coro?

    ghost var ready: seq<Coro>
    ghost var spawned: seq<nat>
    ghost var finished: seq<nat>
    ghost var freed: seq<nat>
    ghost var returned: bool

    ghost function State(): Sched
      reads this
    {
      Sched(Ids(ready), IdOf(current), IdOf(cleanup), spawned, finished, freed, returned)
    }

    /** The pointers describe the queue. */
    ghost predicate Linked()
      reads this, ready
    {
      && (if |ready| == 0 then readyHead == null && readyTail == null else readyHead == ready[0] && readyTail == ready[|ready| - 1])
      && (forall i | 0 <= i < |ready| - 1 :: ready[i].next == ready[i + 1])
      && (forall i | 0 < i < |ready| :: ready[i].prev == ready[i - 1])
      && (|ready| > 0 ==> ready[0].prev == null && ready[|ready| - 1].next == null)
      && (forall i, j | 0 <= i < j < |ready| :: ready[i] != ready[j])
    }

    ghost predicate Valid()
      reads this, ready
    {
      Linked() && Inv(State())
    }

    constructor ()
      ensures Valid() && State() == Empty()
    {
      readyHead, readyTail, current, cleanup := null, null, null, null;
      ready, spawned, finished, freed, returned := [], [], [], [], false;
      new;
      assert Ids(ready) == [];
      assert State() == Empty();
      EmptyInv();
    }

    /** Appends to the ready queue. */
    method Queue(coro: Coro)
      requires Linked() && coro !in ready
      modifies `readyHead, `readyTail, `ready, ready, coro
      ensures Linked() && ready == old(ready) + [coro]
    {
      coro.next := null;
      if readyTail != null {
        coro.prev := readyTail;
        readyTail.next := coro;
        readyTail := coro;
      } else {
        coro.prev := null;
        readyHead, readyTail := coro, coro;
      }
      ghost var q := ready;
      ready := ready + [coro];
      assert forall i | 0 <= i < |q| :: ready[i] == q[i] && ready[i] != coro;
      assert forall i | 0 < i < |q| :: ready[i].prev == ready[i - 1];
    }

    /** A number no coroutine has. */
    ghost function NewId(): (n: nat)
      reads this
      ensures n !in spawned
    {
      Fresh(spawned)
    }

    method Spawn() returns (coro: Coro)
      requires Valid() && !returned
      modifies this, ready
      ensures fresh(coro) && Enabled(old(State()), Op.Spawn(coro.id))
      ensures Valid() && State() == Step(old(State()), Op.Spawn(coro.id))
    {
      hide Inv;
      ghost var id := NewId();
      coro := new Coro(id);
      ghost var s := State();
      Queue(coro);
      IdsAppend(old(ready), [coro]);
      assert Ids([coro]) == [coro.id];
      spawned := spawned + [coro.id];
      StepInv(s, Op.Spawn(coro.id));
    }

    method YieldCurrent()
      requires Valid() && current != null
      modifies this, ready, current
      ensures Valid() && State() == Step(old(State()), Yield)
    {
      hide Inv;
      CurrentApart();
      ghost var s := State();
      IdsAppend(ready, [current]);
      assert Ids([current]) == [current.id];
      Queue(current);
      current := null;
      StepInv(s, Yield);
    }

    lemma CurrentApart()
      requires Valid() && current != null
      ensures current !in ready && cleanup == null
    {
      PartsDistinct(spawned, Unfinished(State()), finished);
      assert Unfinished(State())[|ready|] == current.id;
      assert forall i | 0 <= i < |ready| :: Unfinished(State())[i] == ready[i].id;
    }

    /** A coroutine's function has returned. */
    method FinishCurrent()
      requires Valid() && current != null
      modifies this
      ensures Valid() && State() == Step(old(State()), Finish)
    {
      hide Inv;
      CurrentApart();
      ghost var s := State();
      var coro := current;
      current := null;
      assert cleanup == null;
      cleanup := coro;
      finished := finished + [coro.id];
      StepInv(s, Finish);
    }

    /** The worker: frees the coroutine that has finished, then switches to the first ready one;
        with none ready it returns. */
    method WorkerStep()
      requires Valid() && current == null && !returned
      modifies this, ready
      ensures Valid() && State() == Step(old(State()), Work)
    {
      hide Inv;
      ghost var s := State();
      if cleanup != null {
        freed := freed + [cleanup.id];
        cleanup := null;
      }
      if readyHead != null {
        Dispatch();
      } else {
        returned := true;
      }
      StepInv(s, Work);
    }

    /** Takes the first coroutine off the queue and makes it the running one. */
    method Dispatch()
      requires Linked() && readyHead != null && current == null
      modifies `readyHead, `readyTail, `ready, `current, ready
      ensures Linked() && old(ready) != [] && ready == old(ready)[1..] && current == old(ready)[0]
      ensures Ids(ready) == Ids(old(ready))[1..]
    {
      var c := readyHead;
      assert c == ready[0] && c.prev == null;
      assert |ready| > 1 ==> c.next == ready[1] && ready[1] in ready;
      ghost var q := ready;
      if c.next != null {
        assert |q| > 1;
        c.next.prev := null;
        readyHead := c.next;
        c.next := null;
      } else {
        assert |q| == 1;
        assert readyTail == c;
        readyHead, readyTail := null, null;
      }
      ready := ready[1..];
      assert forall i | 0 <= i < |ready| :: ready[i] == q[i + 1] && ready[i] != c;
      assert Ids(ready) == Ids(q)[1..];
      current := c;
    }
  }

  /** A number larger than all of s. */
  ghost function Fresh(s: seq<nat>): (n: nat)
    ensures forall x | x in s :: x < n
  {
    if s == [] then 0
    else
      var m := Fresh(s[1..]);
      assert forall x | x in s :: x == s[0] || x in s[1..];
      if s[0] < m then m else s[0] + 1
  }
}
