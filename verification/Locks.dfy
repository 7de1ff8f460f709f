/**
 * The supervisor's locks: one mutex per mount name, made on demand, dropped again for a name
 * that turns out to mean nothing, and taken twice by an unmount that acts under another name.
 */
module Locks {
  import opened Base
  import N = Names

  /** A mutex, told apart from every other made for the same name. */
  datatype Lock = Lock(name: string, serial: nat)

  datatype Phase =
    | Start
    | Queued(lock: Lock)                                        // has a clone, waits for the mutex
    | Resolving(lock: Lock)                                     // holds it, finds out what to act on
    | Redirected(lock: Lock, target: string)                    // must act under another name
    | QueuedAgain(lock: Lock, target: string, second: Lock)     // waits for that name's mutex, bounded
    | Working(lock: Lock, target: string, again: Option<Lock>)  // stops, starts, resets the target's unit
    | Evicted(lock: Lock)                                       // dropped the entry, about to return
    | Dropping(lock: Lock, again: Option<Lock>)                 // guards gone, clones not yet
    | Done
  {
    /** Whether a clone of this lock is alive in the operation. */
    predicate Refers(l: Lock) {
      match this
      case Start => false
      case Done => false
      case Queued(p) => p == l
      case Resolving(p) => p == l
      case Redirected(p, _) => p == l
      case QueuedAgain(p, _, q) => p == l || q == l
      case Working(p, _, q) => p == l || q == Some(l)
      case Evicted(p) => p == l
      case Dropping(p, q) => p == l || q == Some(l)
    }

    /** Whether a guard on this lock is alive in the operation. */
    predicate Holds(l: Lock) {
      match this
      case Resolving(p) => p == l
      case Redirected(p, _) => p == l
      case QueuedAgain(p, _, _) => p == l
      case Working(p, _, q) => p == l || q == Some(l)
      case Evicted(p) => p == l
      case _ => false
    }

    function Rank(): nat {
      match this
      case Start => 7
      case Queued(_) => 6
      case Resolving(_) => 5
      case Redirected(_, _) => 4
      case QueuedAgain(_, _, _) => 3
      case Working(_, _, _) => 2
      case Evicted(_) => 2
      case Dropping(_, _) => 1
      case Done => 0
    }
  }

  /** One call: `mount` acts on its own name, `unmount` on whatever the name resolves to. */
  datatype Op = Op(name: string, isMount: bool, phase: Phase)

  datatype State = State(table: map<string, Lock>, made: nat, ops: seq<Op>)

  /** What the world decides: what a name resolved to, if that could be told, or that a bounded wait ran out. */
  datatype Choice = Unknown | Found(target: string) | Untold | TimeUp

  predicate Free(s: State, l: Lock) { forall op <- s.ops :: !op.phase.Holds(l) }

  function Clones(s: State, l: Lock): set<nat> { set j: nat | j < |s.ops| && s.ops[j].phase.Refers(l) }

  /** `Arc::strong_count`: the table's own reference and every operation's clone. */
  function StrongCount(s: State, l: Lock): nat {
    |Clones(s, l)| + if l.name in s.table && s.table[l.name] == l then 1 else 0
  }

  function Into(s: State, i: nat, phase: Phase): State
    requires i < |s.ops|
  {
    s.(ops := s.ops[i := s.ops[i].(phase := phase)])
  }

  /** `lock_for`: the table with an entry for this name, made now if there was none. */
  function WithEntry(s: State, name: string): (t: State)
    ensures name in t.table && t.ops == s.ops
    ensures forall n :: n in s.table ==> n in t.table && t.table[n] == s.table[n]
  {
    if name in s.table then s
    else s.(table := s.table[name := Lock(name, s.made)], made := s.made + 1)
  }

  /** One step of operation `i`, or nothing when it cannot take one. */
  function Step(s: State, i: nat, c: Choice): Option<State>
    requires i < |s.ops|
  {
    var op := s.ops[i];
    match op.phase
    case Start =>
      var t := WithEntry(s, op.name);
      Some(Into(t, i, Queued(t.table[op.name])))
    case Queued(l) => if Free(s, l) then Some(Into(s, i, Resolving(l))) else None
    case Resolving(l) =>
      if op.isMount then Some(Into(s, i, Working(l, op.name, None)))
      else (match c
            case TimeUp => None
            case Untold => Some(Into(s, i, Dropping(l, None)))
            case Unknown =>
              var left := if StrongCount(s, l) == 2 then s.(table := s.table - {op.name}) else s;
              Some(Into(left, i, Evicted(l)))
            case Found(t) =>
              Some(Into(s, i, if t == op.name then Working(l, t, None) else Redirected(l, t))))
    case Redirected(l, target) =>
      var t := WithEntry(s, target);
      Some(Into(t, i, QueuedAgain(l, target, t.table[target])))
    case QueuedAgain(l, target, l2) =>
      if c == TimeUp then Some(Into(s, i, Dropping(l, Some(l2))))
      else if Free(s, l2) then Some(Into(s, i, Working(l, target, Some(l2))))
      else None
    case Working(l, _, again) => Some(Into(s, i, Dropping(l, again)))
    case Evicted(l) => Some(Into(s, i, Dropping(l, None)))
    case Dropping(_, _) => Some(Into(s, i, Done))
    case Done => None
  }

  // --- the invariant ------------------------------------------------------------------

  /** The table's entry for a name is this lock. */
  predicate Listed(s: State, name: string, l: Lock) {
    name in s.table && s.table[name] == l
  }

  /** Past `lock_for`, and not in the tail after dropping its entry or its guards. */
  predicate LocksAreListed(s: State, op: Op) {
    match op.phase
    case Queued(l) => Listed(s, op.name, l)
    case Resolving(l) => Listed(s, op.name, l)
    case Redirected(l, t) => Listed(s, op.name, l) && t != op.name
    case QueuedAgain(l, t, l2) => Listed(s, op.name, l) && Listed(s, t, l2) && t != op.name
    case Working(l, t, None) => Listed(s, op.name, l) && t == op.name
    case Working(l, t, Some(l2)) => Listed(s, op.name, l) && Listed(s, t, l2) && t != op.name
    case _ => true
  }

  ghost predicate Inv(s: State) {
    && (forall n :: n in s.table ==> s.table[n].name == n)
    && (forall i :: 0 <= i < |s.ops| ==> LocksAreListed(s, s.ops[i]))
    && Exclusive(s)
  }

  /** No two operations hold one lock. */
  ghost predicate Exclusive(s: State) {
    forall i, j, l :: 0 <= i < j < |s.ops| && s.ops[i].phase.Holds(l) ==> !s.ops[j].phase.Holds(l)
  }

  /**
   * The eviction test is sound: a count of two means no other operation has a clone of the
   * lock, so nobody is left holding, or queued on, a mutex the table no longer names.
   */
  lemma CountOfTwoMeansAlone(s: State, i: nat, j: nat, l: Lock)
    requires i < |s.ops| && j < |s.ops| && i != j
    requires Listed(s, l.name, l) && StrongCount(s, l) == 2
    requires s.ops[i].phase.Refers(l)
    ensures !s.ops[j].phase.Refers(l)
  {
    if s.ops[j].phase.Refers(l) {
      var pair: set<nat> := {i, j};
      assert pair <= Clones(s, l);
      SubsetsAreNoBigger(pair, Clones(s, l));
    }
  }

  lemma {:induction false} SubsetsAreNoBigger(a: set<nat>, b: set<nat>)
    requires a <= b
    ensures |a| <= |b|
  {
    if a != {} {
      var x :| x in a;
      SubsetsAreNoBigger(a - {x}, b - {x});
    }
  }

  lemma EvictionKeepsOthersListed(s: State, i: nat)
    requires Inv(s) && i < |s.ops| && s.ops[i].phase.Resolving?
    requires StrongCount(s, s.ops[i].phase.lock) == 2
    ensures forall j :: 0 <= j < |s.ops| && j != i ==>
      LocksAreListed(s.(table := s.table - {s.ops[i].name}), s.ops[j])
  {
    var op, l := s.ops[i], s.ops[i].phase.lock;
    assert LocksAreListed(s, op);
    forall j: nat | j < |s.ops| && j != i
      ensures LocksAreListed(s.(table := s.table - {op.name}), s.ops[j])
    {
      CountOfTwoMeansAlone(s, i, j, l);
      assert LocksAreListed(s, s.ops[j]);
    }
  }

  lemma GrowingKeepsListed(s: State, name: string)
    requires Inv(s)
    ensures Inv(WithEntry(s, name))
  {
    var t := WithEntry(s, name);
    forall i | 0 <= i < |t.ops| ensures LocksAreListed(t, t.ops[i]) {
      assert LocksAreListed(s, s.ops[i]);
    }
  }

  lemma MovingKeepsInv(s: State, i: nat, phase: Phase)
    requires i < |s.ops|
    requires forall n :: n in s.table ==> s.table[n].name == n
    requires forall j :: 0 <= j < |s.ops| && j != i ==> LocksAreListed(s, s.ops[j])
    requires Exclusive(s)
    requires LocksAreListed(s, s.ops[i].(phase := phase))
    requires forall l :: phase.Holds(l) ==> s.ops[i].phase.Holds(l) || Free(s, l)
    ensures Inv(Into(s, i, phase))
  {}

  lemma StepKeepsInv(s: State, i: nat, c: Choice)
    requires Inv(s) && i < |s.ops| && Step(s, i, c).Some?
    ensures Inv(Step(s, i, c).value)
  {
    var op, phase := s.ops[i], Step(s, i, c).value.ops[i].phase;
    assert LocksAreListed(s, op);
    if op.phase.Start? {
      GrowingKeepsListed(s, op.name);
      MovingKeepsInv(WithEntry(s, op.name), i, phase);
    } else if op.phase.Redirected? {
      GrowingKeepsListed(s, op.phase.target);
      MovingKeepsInv(WithEntry(s, op.phase.target), i, phase);
    } else if phase.Evicted? && StrongCount(s, op.phase.lock) == 2 {
      EvictionKeepsOthersListed(s, i);
      MovingKeepsInv(s.(table := s.table - {op.name}), i, phase);
    } else {
      MovingKeepsInv(s, i, phase);
    }
  }

  // --- runs ---------------------------------------------------------------------------

  /** Which operation stepped, and what the world decided. */
  datatype Move = Move(op: nat, choice: Choice)

  /** A run from an empty table, every operation yet to start, in any interleaving. */
  ghost predicate IsRun(states: seq<State>, moves: seq<Move>) {
    && |states| == |moves| + 1
    && states[0].table == map[] && (forall op <- states[0].ops :: op.phase == Start)
    && forall t :: 0 <= t < |moves| ==> Moves(states[t], moves[t], states[t + 1])
  }

  ghost predicate Moves(s: State, m: Move, t: State) {
    m.op < |s.ops| && Step(s, m.op, m.choice) == Some(t)
  }

  lemma {:induction false} InvAlways(states: seq<State>, moves: seq<Move>, t: nat)
    requires IsRun(states, moves) && t <= |moves|
    ensures Inv(states[t])
  {
    if t > 0 {
      InvAlways(states, moves, t - 1);
      assert Moves(states[t - 1], moves[t - 1], states[t]);
      StepKeepsInv(states[t - 1], moves[t - 1].op, moves[t - 1].choice);
    }
  }

  ghost predicate Reachable(s: State) {
    exists states, moves :: IsRun(states, moves) && states[|moves|] == s
  }

  lemma StepsAreReachable(s: State, m: Move)
    requires Reachable(s) && m.op < |s.ops| && Step(s, m.op, m.choice).Some?
    ensures Reachable(Step(s, m.op, m.choice).value)
  {
    var states, moves :| IsRun(states, moves) && states[|moves|] == s;
    var next := Step(s, m.op, m.choice).value;
    var longer, more := states + [next], moves + [m];
    forall t | 0 <= t < |more| ensures Moves(longer[t], more[t], longer[t + 1]) {
      if t < |moves| { assert Moves(states[t], moves[t], states[t + 1]); }
    }
    assert IsRun(longer, more) && longer[|more|] == next;
  }

  /**
   * In every reachable state, an operation that has its lock has the one the table names --
   * the mutex the next caller for that name will queue on -- until it has dropped its own entry.
   */
  lemma TheTableNamesTheLock(s: State, i: nat)
    requires Reachable(s) && i < |s.ops|
    ensures var op := s.ops[i];
      (op.phase.Queued? || op.phase.Resolving? || op.phase.Redirected? || op.phase.QueuedAgain? || op.phase.Working?)
      ==> op.name in s.table && s.table[op.name] == op.phase.lock
  {
    var states, moves :| IsRun(states, moves) && states[|moves|] == s;
    InvAlways(states, moves, |moves|);
    assert LocksAreListed(s, s.ops[i]);
  }

  /** The unit every operation on this name stops, starts and resets. */
  function UnitOf(target: string): string { N.UNIT_PREFIX + target + N.UNIT_SUFFIX }

  /**
   * Exclusion: in every interleaving, however names redirect and entries are dropped, no two
   * operations act on one unit.
   */
  lemma OneOperationPerUnit(s: State, i: nat, j: nat)
    requires Reachable(s) && i < |s.ops| && j < |s.ops|
    requires s.ops[i].phase.Working? && s.ops[j].phase.Working?
    requires UnitOf(s.ops[i].phase.target) == UnitOf(s.ops[j].phase.target)
    ensures i == j
  {
    var states, moves :| IsRun(states, moves) && states[|moves|] == s;
    InvAlways(states, moves, |moves|);
    SameUnitSameTarget(s.ops[i].phase.target, s.ops[j].phase.target);
    assert LocksAreListed(s, s.ops[i]) && LocksAreListed(s, s.ops[j]);
    var l := s.table[s.ops[i].phase.target];
    assert s.ops[i].phase.Holds(l) && s.ops[j].phase.Holds(l);
  }

  lemma SameUnitSameTarget(a: string, b: string)
    requires UnitOf(a) == UnitOf(b)
    ensures a == b
  {
    var n := |N.UNIT_PREFIX|;
    assert UnitOf(a)[n..n + |a|] == a && UnitOf(b)[n..n + |b|] == b;
  }

  // --- progress -----------------------------------------------------------------------

  predicate Finished(s: State) { forall op <- s.ops :: op.phase == Done }

  /** From any state some unfinished operation can step: whoever waits without a bound holds nothing. */
  lemma SomebodyCanStep(s: State)
    requires !Finished(s)
    ensures exists i: nat, c :: i < |s.ops| && Step(s, i, c).Some?
  {
    if i: nat :| i < |s.ops| && s.ops[i].phase != Done && !s.ops[i].phase.Queued? {
      var c := if s.ops[i].phase.QueuedAgain? then TimeUp else Unknown;
      assert Step(s, i, c).Some?;
    } else {
      var op :| op in s.ops && op.phase != Done;
      var i: nat :| i < |s.ops| && s.ops[i] == op;
      assert forall other <- s.ops :: other.phase == Done || other.phase.Queued?;
      assert Step(s, i, Unknown).Some?;
    }
  }

  function Work(ops: seq<Op>): nat {
    if ops == [] then 0 else Work(ops[..|ops| - 1]) + ops[|ops| - 1].phase.Rank()
  }

  lemma {:induction false} OneOpMoves(ops: seq<Op>, i: nat, op: Op)
    requires i < |ops|
    ensures Work(ops[i := op]) + ops[i].phase.Rank() == Work(ops) + op.phase.Rank()
  {
    var k := |ops| - 1;
    if i < k {
      OneOpMoves(ops[..k], i, op);
      assert ops[i := op][..k] == ops[..k][i := op];
    } else {
      assert ops[i := op][..k] == ops[..k];
    }
  }

  /** Every step brings the end nearer. */
  lemma StepsUseUpWork(s: State, i: nat, c: Choice)
    requires i < |s.ops| && Step(s, i, c).Some?
    ensures Work(Step(s, i, c).value.ops) < Work(s.ops)
    ensures |Step(s, i, c).value.ops| == |s.ops|
  {
    StepMovesOneOp(s, i, c);
    StepLowersItsRank(s, i, c);
    OneOpMoves(s.ops, i, Step(s, i, c).value.ops[i]);
  }

  lemma StepMovesOneOp(s: State, i: nat, c: Choice)
    requires i < |s.ops| && Step(s, i, c).Some?
    ensures var after := Step(s, i, c).value.ops; |after| == |s.ops| && after == s.ops[i := after[i]]
  {}

  lemma StepLowersItsRank(s: State, i: nat, c: Choice)
    requires i < |s.ops| && Step(s, i, c).Some?
    ensures |Step(s, i, c).value.ops| == |s.ops|
    ensures Step(s, i, c).value.ops[i].phase.Rank() < s.ops[i].phase.Rank()
  {}

  lemma {:induction false} RunsUseUpWork(states: seq<State>, moves: seq<Move>, t: nat)
    requires IsRun(states, moves) && t <= |moves|
    ensures Work(states[t].ops) + t <= Work(states[0].ops)
  {
    if t > 0 {
      RunsUseUpWork(states, moves, t - 1);
      assert Moves(states[t - 1], moves[t - 1], states[t]);
      StepsUseUpWork(states[t - 1], moves[t - 1].op, moves[t - 1].choice);
    }
  }

  lemma {:induction false} WorkAtTheStart(ops: seq<Op>)
    requires forall op <- ops :: op.phase == Start
    ensures Work(ops) == 7 * |ops|
  {
    if ops != [] {
      var k := |ops| - 1;
      assert ops[k] in ops;
      WorkAtTheStart(ops[..k]);
    }
  }

  /**
   * Every run ends: seven steps an operation is the most there can be, and a run nothing can
   * extend has finished every operation -- two unmounts redirected onto each other included.
   */
  lemma EveryRunEnds(states: seq<State>, moves: seq<Move>)
    requires IsRun(states, moves)
    ensures |moves| <= 7 * |states[0].ops|
    ensures (forall i: nat, c :: i < |states[|moves|].ops| ==> Step(states[|moves|], i, c).None?)
            <==> Finished(states[|moves|])
  {
    RunsUseUpWork(states, moves, |moves|);
    WorkAtTheStart(states[0].ops);
    if !Finished(states[|moves|]) { SomebodyCanStep(states[|moves|]); }
  }

  /** Two unmounts, somewhere in their course. */
  datatype Two = Two(x: string, y: string) {
    function At(table: map<string, Lock>, made: nat, p: Phase, q: Phase): State {
      State(table, made, [Op(x, false, p), Op(y, false, q)])
    }
  }

  lemma PairSteps(two: Two, table: map<string, Lock>, made: nat, p: Phase, q: Phase, next: Phase)
    ensures Into(two.At(table, made, p, q), 0, next) == two.At(table, made, next, q)
    ensures Into(two.At(table, made, p, q), 1, next) == two.At(table, made, p, next)
    ensures forall l :: Free(two.At(table, made, p, q), l) <==> !p.Holds(l) && !q.Holds(l)
  {
    var s := two.At(table, made, p, q);
    assert s.ops[0] in s.ops && s.ops[1] in s.ops;
  }

  /** One step of the pair, from a reachable state to the next, when it leaves the table alone. */
  lemma PairReaches(two: Two, table: map<string, Lock>, made: nat, p: Phase, q: Phase, m: Move, next: Phase)
    requires Reachable(two.At(table, made, p, q)) && m.op < 2
    requires Step(two.At(table, made, p, q), m.op, m.choice) == Some(Into(two.At(table, made, p, q), m.op, next))
    ensures Reachable(if m.op == 0 then two.At(table, made, next, q) else two.At(table, made, p, next))
    ensures m.op == 0 ==> forall l :: Free(two.At(table, made, next, q), l) <==> !next.Holds(l) && !q.Holds(l)
    ensures m.op == 1 ==> forall l :: Free(two.At(table, made, p, next), l) <==> !p.Holds(l) && !next.Holds(l)
  {
    StepsAreReachable(two.At(table, made, p, q), m);
    PairSteps(two, table, made, p, q, next);
    if m.op == 0 { PairSteps(two, table, made, next, q, q); } else { PairSteps(two, table, made, p, next, p); }
  }

  const CROSS := Two("a", "b")
  const LOCK_A := Lock("a", 0)
  const LOCK_B := Lock("b", 1)
  const BOTH := map["a" := LOCK_A, "b" := LOCK_B]

  lemma BothQueue()
    ensures Reachable(CROSS.At(BOTH, 2, Queued(LOCK_A), Queued(LOCK_B)))
    ensures forall l :: Free(CROSS.At(BOTH, 2, Queued(LOCK_A), Queued(LOCK_B)), l)
  {
    var one := map["a" := LOCK_A];
    var start := CROSS.At(map[], 0, Start, Start);
    assert IsRun([start], []) && [start][0] == start;
    StepsAreReachable(start, Move(0, Unknown));
    PairSteps(CROSS, one, 1, Start, Start, Queued(LOCK_A));
    StepsAreReachable(CROSS.At(one, 1, Queued(LOCK_A), Start), Move(1, Unknown));
    PairSteps(CROSS, BOTH, 2, Queued(LOCK_A), Start, Queued(LOCK_B));
    PairSteps(CROSS, BOTH, 2, Queued(LOCK_A), Queued(LOCK_B), Start);
  }

  /** Each has resolved to the other's name and holds its own lock. */
  function Crossed(): State {
    CROSS.At(BOTH, 2, QueuedAgain(LOCK_A, "b", LOCK_B), QueuedAgain(LOCK_B, "a", LOCK_A))
  }

  /** Why the second wait is bounded: without its timeout this reachable state would never move. */
  lemma OnlyTheTimeoutUncrosses()
    ensures Reachable(Crossed())
    ensures forall i: nat, c :: i < 2 ==> (Step(Crossed(), i, c).Some? <==> c == TimeUp)
  {
    PairSteps(CROSS, BOTH, 2, QueuedAgain(LOCK_A, "b", LOCK_B), QueuedAgain(LOCK_B, "a", LOCK_A), Start);
    CrossedIsReached();
  }

  lemma BothRedirected()
    ensures Reachable(CROSS.At(BOTH, 2, Redirected(LOCK_A, "b"), Redirected(LOCK_B, "a")))
  {
    var a, b := LOCK_A, LOCK_B;
    OneRedirected();
    PairReaches(CROSS, BOTH, 2, Redirected(a, "b"), Queued(b), Move(1, Unknown), Resolving(b));
    PairReaches(CROSS, BOTH, 2, Redirected(a, "b"), Resolving(b), Move(1, Found("a")), Redirected(b, "a"));
  }

  lemma OneRedirected()
    ensures Reachable(CROSS.At(BOTH, 2, Redirected(LOCK_A, "b"), Queued(LOCK_B)))
    ensures Free(CROSS.At(BOTH, 2, Redirected(LOCK_A, "b"), Queued(LOCK_B)), LOCK_B)
  {
    var a, b := LOCK_A, LOCK_B;
    BothQueue();
    PairReaches(CROSS, BOTH, 2, Queued(a), Queued(b), Move(0, Unknown), Resolving(a));
    PairReaches(CROSS, BOTH, 2, Resolving(a), Queued(b), Move(0, Found("b")), Redirected(a, "b"));
  }

  lemma CrossedIsReached()
    ensures Reachable(Crossed())
  {
    var a, b := LOCK_A, LOCK_B;
    BothRedirected();
    PairReaches(CROSS, BOTH, 2, Redirected(a, "b"), Redirected(b, "a"), Move(0, Unknown), QueuedAgain(a, "b", b));
    PairReaches(CROSS, BOTH, 2, QueuedAgain(a, "b", b), Redirected(b, "a"), Move(1, Unknown), QueuedAgain(b, "a", a));
  }

  // --- what a resolution is worth -----------------------------------------------------

  /**
   * From resolving its own name until it is done acting, nobody else acts on an operation's own
   * unit: what an operation that is not redirected resolved is what it finds.
   */
  lemma NobodyElseActsOnItsName(s: State, i: nat, j: nat)
    requires Reachable(s) && i < |s.ops| && j < |s.ops| && i != j
    requires var p := s.ops[i].phase; p.Resolving? || p.Redirected? || p.QueuedAgain? || p.Working?
    ensures s.ops[j].phase.Working? ==> UnitOf(s.ops[j].phase.target) != UnitOf(s.ops[i].name)
  {
    var states, moves :| IsRun(states, moves) && states[|moves|] == s;
    InvAlways(states, moves, |moves|);
    assert LocksAreListed(s, s.ops[i]) && LocksAreListed(s, s.ops[j]);
    if s.ops[j].phase.Working? && UnitOf(s.ops[j].phase.target) == UnitOf(s.ops[i].name) {
      SameUnitSameTarget(s.ops[j].phase.target, s.ops[i].name);
      assert s.ops[i].phase.Holds(s.table[s.ops[i].name]) && s.ops[j].phase.Holds(s.table[s.ops[i].name]);
      assert false;
    }
  }

  /**
   * A redirected one can be overtaken: it has resolved to `b` under its own lock, another
   * operation acts on `b` and finishes, and it then acts on what it resolved before.
   */
  lemma ARedirectCanBeOvertaken()
    ensures Reachable(CROSS.At(BOTH, 2, Redirected(LOCK_A, "b"), Working(LOCK_B, "b", None)))
    ensures Reachable(CROSS.At(BOTH, 2, Working(LOCK_A, "b", Some(LOCK_B)), Done))
  {
    var a, b := LOCK_A, LOCK_B;
    OneRedirected();
    PairReaches(CROSS, BOTH, 2, Redirected(a, "b"), Queued(b), Move(1, Unknown), Resolving(b));
    PairReaches(CROSS, BOTH, 2, Redirected(a, "b"), Resolving(b), Move(1, Found("b")), Working(b, "b", None));
    OvertakenGoesOn();
  }

  lemma OvertakenGoesOn()
    requires Reachable(CROSS.At(BOTH, 2, Redirected(LOCK_A, "b"), Working(LOCK_B, "b", None)))
    ensures Reachable(CROSS.At(BOTH, 2, Working(LOCK_A, "b", Some(LOCK_B)), Done))
  {
    var a, b := LOCK_A, LOCK_B;
    PairReaches(CROSS, BOTH, 2, Redirected(a, "b"), Working(b, "b", None), Move(1, Unknown), Dropping(b, None));
    PairReaches(CROSS, BOTH, 2, Redirected(a, "b"), Dropping(b, None), Move(1, Unknown), Done);
    PairReaches(CROSS, BOTH, 2, Redirected(a, "b"), Done, Move(0, Unknown), QueuedAgain(a, "b", b));
    PairReaches(CROSS, BOTH, 2, QueuedAgain(a, "b", b), Done, Move(0, Unknown), Working(a, "b", Some(b)));
  }

  // --- what becomes of an operation ---------------------------------------------------

  /** By point `k` this operation has acted, on this target. */
  ghost predicate ActedOn(states: seq<State>, i: nat, k: nat, target: string)
    requires k < |states|
  {
    exists j :: 0 <= j <= k && i < |states[j].ops| && states[j].ops[i].phase.Working?
                && states[j].ops[i].phase.target == target
  }

  /** Before point `k` this operation was told this when it resolved its name. */
  ghost predicate WasTold(states: seq<State>, moves: seq<Move>, i: nat, k: nat, c: Choice)
    requires k <= |moves| && |states| == |moves| + 1
  {
    exists j :: 0 <= j < k && moves[j] == Move(i, c) && i < |states[j].ops| && states[j].ops[i].phase.Resolving?
  }

  /** Before point `k` its bounded wait for its target's lock ran out. */
  ghost predicate RanOut(states: seq<State>, moves: seq<Move>, i: nat, k: nat)
    requires k <= |moves| && |states| == |moves| + 1
  {
    exists j :: 0 <= j < k && moves[j] == Move(i, TimeUp) && i < |states[j].ops| && states[j].ops[i].phase.QueuedAgain?
  }

  /** What one operation has been told and has done by a point of a run. */
  ghost predicate Fate(states: seq<State>, moves: seq<Move>, i: nat, k: nat)
    requires k <= |moves| && |states| == |moves| + 1 && i < |states[k].ops|
  {
    var op := states[k].ops[i];
    match op.phase
    case Redirected(_, t) => !op.isMount && WasTold(states, moves, i, k, Found(t))
    case QueuedAgain(_, t, _) => !op.isMount && WasTold(states, moves, i, k, Found(t))
    case Working(_, t, _) => if op.isMount then t == op.name else WasTold(states, moves, i, k, Found(t))
    case Evicted(_) => !op.isMount && WasTold(states, moves, i, k, Unknown)
    case Dropping(_, _) => Accounted(states, moves, i, k, op)
    case Done => Accounted(states, moves, i, k, op)
    case _ => true
  }

  /**
   * A mount has acted on its own name. An unmount has acted on what its name was found to mean, or
   * its name could not be resolved, or its wait for that target's lock ran out.
   */
  ghost predicate Accounted(states: seq<State>, moves: seq<Move>, i: nat, k: nat, op: Op)
    requires k <= |moves| && |states| == |moves| + 1
  {
    if op.isMount then ActedOn(states, i, k, op.name)
    else
      || WasTold(states, moves, i, k, Unknown) || WasTold(states, moves, i, k, Untold)
      || RanOut(states, moves, i, k)
      || exists t :: WasTold(states, moves, i, k, Found(t)) && ActedOn(states, i, k, t)
  }

  lemma FateGoesOn(states: seq<State>, moves: seq<Move>, i: nat, k: nat)
    requires IsRun(states, moves) && k < |moves| && i < |states[k].ops| && Fate(states, moves, i, k)
    requires Moves(states[k], moves[k], states[k + 1])
    ensures i < |states[k + 1].ops| && Fate(states, moves, i, k + 1)
  {
    StepMovesOneOp(states[k], moves[k].op, moves[k].choice);
    if moves[k].op != i {
      assert states[k + 1].ops[i] == states[k].ops[i];
    }
  }

  lemma {:induction false} FateAlways(states: seq<State>, moves: seq<Move>, i: nat, k: nat)
    requires IsRun(states, moves) && k <= |moves| && i < |states[0].ops|
    ensures i < |states[k].ops| && Fate(states, moves, i, k)
    ensures states[k].ops[i].name == states[0].ops[i].name && states[k].ops[i].isMount == states[0].ops[i].isMount
  {
    if k > 0 {
      FateAlways(states, moves, i, k - 1);
      assert Moves(states[k - 1], moves[k - 1], states[k]);
      FateGoesOn(states, moves, i, k - 1);
    }
  }

  /** In a run that has finished every operation, each has acted as it should, or was given a reason not to. */
  lemma EveryOperationIsAccountedFor(states: seq<State>, moves: seq<Move>, i: nat)
    requires IsRun(states, moves) && Finished(states[|moves|]) && i < |states[0].ops|
    ensures Accounted(states, moves, i, |moves|, states[0].ops[i])
  {
    FateAlways(states, moves, i, |moves|);
    assert states[|moves|].ops[i] in states[|moves|].ops;
  }

  // --- what eviction achieves ---------------------------------------------------------

  /** A name found to mean nothing loses its entry exactly when nobody else has a clone of its lock. */
  lemma EvictsExactly(s: State, i: nat)
    requires Inv(s) && i < |s.ops| && s.ops[i].phase.Resolving? && !s.ops[i].isMount
    ensures Step(s, i, Unknown).Some?
    ensures s.ops[i].name !in Step(s, i, Unknown).value.table
       <==> forall j :: 0 <= j < |s.ops| && j != i ==> !s.ops[j].phase.Refers(s.ops[i].phase.lock)
  {
    var l := s.ops[i].phase.lock;
    assert LocksAreListed(s, s.ops[i]);
    if forall j :: 0 <= j < |s.ops| && j != i ==> !s.ops[j].phase.Refers(l) {
      assert Clones(s, l) == {i};
    }
    if StrongCount(s, l) == 2 {
      forall j: nat | j < |s.ops| && j != i ensures !s.ops[j].phase.Refers(l) { CountOfTwoMeansAlone(s, i, j, l); }
    }
  }

  const SAME := Two("x", "x")
  const LOCK_X := Lock("x", 0)
  const ONE := map["x" := LOCK_X]

  /**
   * So entries can be left behind: of two unmounts of one unknown name the first finds the second
   * queued, and the second finds the first not quite gone. Both end, and the entry stays.
   */
  lemma AnEntryCanBeLeft()
    ensures Reachable(SAME.At(ONE, 1, Done, Done))
  {
    var x := LOCK_X;
    SecondFindsTheFirst();
    PairSteps(SAME, ONE, 1, Dropping(x, None), Resolving(x), Evicted(x));
    TwoClones(Dropping(x, None), Resolving(x));
    PairReaches(SAME, ONE, 1, Dropping(x, None), Resolving(x), Move(1, Unknown), Evicted(x));
    PairReaches(SAME, ONE, 1, Dropping(x, None), Evicted(x), Move(0, Unknown), Done);
    PairReaches(SAME, ONE, 1, Done, Evicted(x), Move(1, Unknown), Dropping(x, None));
    PairReaches(SAME, ONE, 1, Done, Dropping(x, None), Move(1, Unknown), Done);
  }

  lemma TwoClones(p: Phase, q: Phase)
    requires p.Refers(LOCK_X) && q.Refers(LOCK_X)
    ensures StrongCount(SAME.At(ONE, 1, p, q), LOCK_X) == 3
  {
    assert Clones(SAME.At(ONE, 1, p, q), LOCK_X) == {0, 1};
  }

  lemma FirstQueues()
    ensures Reachable(SAME.At(ONE, 1, Queued(LOCK_X), Start))
  {
    var start := SAME.At(map[], 0, Start, Start);
    assert IsRun([start], []) && [start][0] == start;
    StepsAreReachable(start, Move(0, Unknown));
    PairSteps(SAME, ONE, 1, Start, Start, Queued(LOCK_X));
  }

  lemma FirstFindsTheSecond()
    ensures Reachable(SAME.At(ONE, 1, Resolving(LOCK_X), Queued(LOCK_X)))
  {
    var x := LOCK_X;
    FirstQueues();
    PairReaches(SAME, ONE, 1, Queued(x), Start, Move(1, Unknown), Queued(x));
    PairReaches(SAME, ONE, 1, Queued(x), Queued(x), Move(0, Unknown), Resolving(x));
  }

  lemma SecondFindsTheFirst()
    ensures Reachable(SAME.At(ONE, 1, Dropping(LOCK_X, None), Resolving(LOCK_X)))
  {
    var x := LOCK_X;
    FirstFindsTheSecond();
    TwoClones(Resolving(x), Queued(x));
    PairReaches(SAME, ONE, 1, Resolving(x), Queued(x), Move(0, Unknown), Evicted(x));
    PairReaches(SAME, ONE, 1, Evicted(x), Queued(x), Move(0, Unknown), Dropping(x, None));
    PairReaches(SAME, ONE, 1, Dropping(x, None), Queued(x), Move(1, Unknown), Resolving(x));
  }
}
