/** Threads interleaving the steps of `AuditLog.append` under, or without, its lock. */
module AuditThreads {
  import opened Wrappers
  import opened Audit

  type Thread = nat

  /** Where a thread is inside `append`. */
  datatype Pc =
    | Idle
    | Waiting(entry: Entry)
    | Holding(entry: Entry)
    | HasRead(entry: Entry, prev: string)
    | Inserted

  datatype Action = Call(entry: Entry) | Acquire | ReadLast | Insert | Release | Abort

  /** `order` records the entries in the order their rows were inserted. */
  datatype State = State(
    table: seq<Row>, nextId: int, holder: Option<Thread>, pc: map<Thread, Pc>, order: seq<Entry>)

  function PcOf(s: State, t: Thread): Pc {
    if t in s.pc then s.pc[t] else Idle
  }

  function At(s: State, t: Thread, pc: Pc): State {
    s.(pc := s.pc[t := pc])
  }

  /** One step of thread `t`; a step that is not possible in `s` leaves it unchanged. Without
      `locking`, acquiring never waits. An exception inside the critical section releases the lock. */
  function Step(h: Hashing, locking: bool, s: State, t: Thread, a: Action): State {
    match (PcOf(s, t), a)
    case (Idle, Call(e)) => At(s, t, Waiting(e))
    case (Waiting(e), Acquire) =>
      if locking && s.holder.Some? then s else At(s.(holder := Some(t)), t, Holding(e))
    case (Holding(e), ReadLast) => At(s, t, HasRead(e, Head(s.table)))
    case (HasRead(e, prev), Insert) =>
      At(s.(table := s.table + [Row(s.nextId, Stored(e), prev, Hash(h, prev, e))],
            nextId := s.nextId + 1, order := s.order + [e]), t, Inserted)
    case (Inserted, Release) => At(s.(holder := None), t, Idle)
    case (Holding(_), Abort) => At(s.(holder := None), t, Idle)
    case (HasRead(_, _), Abort) => At(s.(holder := None), t, Idle)
    case _ => s
  }

  function Exec(h: Hashing, locking: bool, s: State, schedule: seq<(Thread, Action)>): State {
    if schedule == [] then s
    else
      var n := |schedule| - 1;
      Step(h, locking, Exec(h, locking, s, schedule[..n]), schedule[n].0, schedule[n].1)
  }

  predicate InCriticalSection(pc: Pc) {
    pc.Holding? || pc.HasRead? || pc.Inserted?
  }

  predicate ReadIsCurrent(pc: Pc, head: string) {
    pc.HasRead? ==> pc.prev == head
  }

  /** What every step keeps, relative to the state `s0` the run began in. */
  ghost predicate Inv(h: Hashing, s0: State, s: State) {
    && s.table == AppendAll(h, s0.table, s0.nextId, s.order)
    && s.nextId == s0.nextId + |s.order|
    && (forall t: Thread :: InCriticalSection(PcOf(s, t)) ==> s.holder == Some(t))
    && (forall t: Thread :: ReadIsCurrent(PcOf(s, t), Head(s.table)))
  }

  ghost predicate Quiet(s: State) {
    s.pc == map[] && s.holder == None && s.order == []
  }

  lemma StepKeepsInv(h: Hashing, s0: State, s: State, t: Thread, a: Action)
    requires Inv(h, s0, s)
    ensures Inv(h, s0, Step(h, true, s, t, a))
  {
    hide Hash, Head, AppendAll, Stored;
    var s' := Step(h, true, s, t, a);
    if a.Insert? && PcOf(s, t).HasRead? {
      var e := PcOf(s, t).entry;
      AppendAllLast(h, s0.table, s0.nextId, s.order, e);
    }
    forall u: Thread
      ensures InCriticalSection(PcOf(s', u)) ==> s'.holder == Some(u)
      ensures ReadIsCurrent(PcOf(s', u), Head(s'.table))
    {
      assert u != t ==> PcOf(s', u) == PcOf(s, u);
      assert InCriticalSection(PcOf(s, t)) ==> s.holder == Some(t);
    }
  }

  lemma {:induction false} ExecKeepsInv(h: Hashing, s0: State, schedule: seq<(Thread, Action)>)
    requires Quiet(s0)
    ensures Inv(h, s0, Exec(h, true, s0, schedule))
  {
    hide Step;
    if schedule != [] {
      var n := |schedule| - 1;
      ExecKeepsInv(h, s0, schedule[..n]);
      StepKeepsInv(h, s0, Exec(h, true, s0, schedule[..n]), schedule[n].0, schedule[n].1);
    }
  }

  /** However the threads interleave, the table is what appending the inserted entries one after
      another, in the order of their inserts, gives. */
  lemma ThreadsActInSequence(h: Hashing, s0: State, schedule: seq<(Thread, Action)>)
    requires Quiet(s0)
    ensures var s := Exec(h, true, s0, schedule);
            s.table == AppendAll(h, s0.table, s0.nextId, s.order)
  {
    hide Exec, AppendAll;
    ExecKeepsInv(h, s0, schedule);
  }

  /** So from an intact log, with storable entries, every reachable table is an intact chain. */
  lemma ThreadsKeepTheChain(h: Hashing, s0: State, schedule: seq<(Thread, Action)>)
    requires Quiet(s0) && Chain(h, s0.table) && AllStorable(Exec(h, true, s0, schedule).order)
    ensures Chain(h, Exec(h, true, s0, schedule).table)
  {
    hide Exec, AppendAll, Chain, AllStorable;
    ThreadsActInSequence(h, s0, schedule);
    AppendAllIsChain(h, s0.table, s0.nextId, Exec(h, true, s0, schedule).order);
  }

  /** And no two of its rows follow the same row. */
  lemma ThreadsNeverFork(h: Hashing, s0: State, schedule: seq<(Thread, Action)>)
    requires Quiet(s0) && Chain(h, s0.table) && AllStorable(Exec(h, true, s0, schedule).order) && Sound(h)
    requires CollisionFree(h, Inputs(h, Exec(h, true, s0, schedule).table))
    ensures NoFork(Exec(h, true, s0, schedule).table)
  {
    hide Exec, CollisionFree, Sound, Inputs, Chain, AllStorable;
    ThreadsKeepTheChain(h, s0, schedule);
    ChainHasNoFork(h, Exec(h, true, s0, schedule).table);
  }

  ghost predicate NoFork(rows: seq<Row>) {
    forall i, j :: 0 <= i < j < |rows| ==> rows[i].prevHash != rows[j].prevHash
  }

  lemma ChainHasNoFork(h: Hashing, rows: seq<Row>)
    requires Sound(h) && Chain(h, rows) && CollisionFree(h, Inputs(h, rows))
    ensures NoFork(rows)
  {
    hide CollisionFree, Inputs, Hash, Head;
    forall i: nat, j: nat | i < j < |rows|
      ensures rows[i].prevHash != rows[j].prevHash
    {
      LinkAt(h, rows, i);
      LinkAt(h, rows, j);
      DistinctHeads(h, rows, i, j);
    }
  }

  /** The lock is what does it: without it two threads can both read the head before either inserts,
      and the table forks and no longer verifies. */
  lemma WithoutLockTheChainForks(h: Hashing, d: Entry, e: Entry)
    requires Hash(h, GENESIS, d) != GENESIS
    ensures var s0 := State([], 1, None, map[], []);
            var schedule := [(0, Call(d)), (1, Call(e)), (0, Acquire), (1, Acquire), (0, ReadLast),
                             (1, ReadLast), (0, Insert), (1, Insert)];
            var s := Exec(h, false, s0, schedule);
            Quiet(s0) && !Chain(h, s.table) && !NoFork(s.table)
  {
    hide Hash, Exec, Chain, NoFork, Step;
    var s0 := State([], 1, None, map[], []);
    var c0, c1, a0, a1, r0, r1 :=
      (0, Call(d)), (1, Call(e)), (0, Acquire), (1, Acquire), (0, ReadLast), (1, ReadLast);
    BothRead(h, d, e);
    ExecStep(h, s0, [c0, c1, a0, a1, r0, r1], (0, Insert), [c0, c1, a0, a1, r0, r1, (0, Insert)]);
    ExecStep(h, s0, [c0, c1, a0, a1, r0, r1, (0, Insert)], (1, Insert),
             [c0, c1, a0, a1, r0, r1, (0, Insert), (1, Insert)]);
    BothInsert(h, d, e, Exec(h, false, s0, [c0, c1, a0, a1, r0, r1]));
  }

  lemma ExecStep(h: Hashing, s: State, schedule: seq<(Thread, Action)>, step: (Thread, Action),
                 more: seq<(Thread, Action)>)
    requires more == schedule + [step]
    ensures Exec(h, false, s, more) == Step(h, false, Exec(h, false, s, schedule), step.0, step.1)
  {
    hide Step;
    assert more[..|schedule|] == schedule;
  }

  lemma BothRead(h: Hashing, d: Entry, e: Entry)
    ensures Exec(h, false, State([], 1, None, map[], []),
              [(0, Call(d)), (1, Call(e)), (0, Acquire), (1, Acquire), (0, ReadLast), (1, ReadLast)])
            == State([], 1, Some(1), map[0 := HasRead(d, GENESIS), 1 := HasRead(e, GENESIS)], [])
  {
    hide Hash, Exec;
    var s0 := State([], 1, None, map[], []);
    var c0, c1, a0, a1, r0, r1 :=
      (0, Call(d)), (1, Call(e)), (0, Acquire), (1, Acquire), (0, ReadLast), (1, ReadLast);
    assert Exec(h, false, s0, []) == s0 by { EmptySchedule(h, s0); }
    ExecStep(h, s0, [], c0, [c0]);
    ExecStep(h, s0, [c0], c1, [c0, c1]);
    ExecStep(h, s0, [c0, c1], a0, [c0, c1, a0]);
    ExecStep(h, s0, [c0, c1, a0], a1, [c0, c1, a0, a1]);
    assert Exec(h, false, s0, [c0, c1, a0, a1]).pc == map[0 := Holding(d), 1 := Holding(e)];
    ExecStep(h, s0, [c0, c1, a0, a1], r0, [c0, c1, a0, a1, r0]);
    ExecStep(h, s0, [c0, c1, a0, a1, r0], r1, [c0, c1, a0, a1, r0, r1]);
    assert Exec(h, false, s0, [c0, c1, a0, a1, r0, r1]).pc
        == map[0 := HasRead(d, GENESIS), 1 := HasRead(e, GENESIS)];
  }

  lemma EmptySchedule(h: Hashing, s: State)
    ensures Exec(h, false, s, []) == s
  {
  }

  lemma BothInsert(h: Hashing, d: Entry, e: Entry, s: State)
    requires Hash(h, GENESIS, d) != GENESIS
    requires s == State([], 1, Some(1), map[0 := HasRead(d, GENESIS), 1 := HasRead(e, GENESIS)], [])
    ensures var r := Step(h, false, Step(h, false, s, 0, Insert), 1, Insert).table;
            !Chain(h, r) && !NoFork(r)
  {
    hide Hash, Chain, NoFork, Stored;
    var r, q := Row(1, Stored(d), GENESIS, Hash(h, GENESIS, d)), Row(2, Stored(e), GENESIS, Hash(h, GENESIS, e));
    assert Step(h, false, Step(h, false, s, 0, Insert), 1, Insert).table == [r, q];
    NotLinked(h, r, q);
  }

  lemma NotLinked(h: Hashing, r: Row, q: Row)
    requires r.hash != GENESIS == q.prevHash == r.prevHash
    ensures !Chain(h, [r, q]) && !NoFork([r, q])
  {
    assert [r, q][..1] == [r] && !LinkOk(h, [r, q], 1);
    assert [r, q][0].prevHash == [r, q][1].prevHash;
  }
}
