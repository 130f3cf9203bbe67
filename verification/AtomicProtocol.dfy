/**
  Threads running copy assignments, reads and edits on `Atomic` objects, one small step at a time.
  Objects are numbered by address; a value is a sequence of words, copied one word per step.
 */
module AtomicProtocol {
  import opened Wrappers

  type Address = nat
  type Thread = nat
  type Value = seq<int>

  /**
    How an object's mutex behaves. A plain mutex has no shared mode, so a shared lock is an
    exclusive one; a shared mutex may or may not hold readers back while a writer waits.
   */
  datatype MutexKind = PlainMutex | SharedMutex(prefersWriters: bool)

  datatype Mode = Shared | Unique

  datatype Op =
    | Assign(lhs: Address, rhs: Address)
    | Read(at: Address)
    | Edit(at: Address, f: Value -> Value)

  datatype Request = Request(at: Address, mode: Mode)

  /** The highest address a call names. */
  function Highest(op: Op): Address {
    match op
    case Assign(lhs, rhs) => if lhs < rhs then rhs else lhs
    case Read(at) => at
    case Edit(at, _) => at
  }

  /** The locks a call takes, in the order it takes them; they are released in the opposite order. */
  function Requests(op: Op): (r: seq<Request>)
    ensures |r| <= 2 && forall i | 0 <= i < |r| :: r[i].at <= Highest(op)
    ensures |r| == 2 ==> r[0].at < r[1].at
  {
    match op
    case Assign(lhs, rhs) =>
      if lhs < rhs then [Request(lhs, Unique), Request(rhs, Shared)]
      else if lhs > rhs then [Request(rhs, Shared), Request(lhs, Unique)]
      else []
    case Read(at) => [Request(at, Shared)]
    case Edit(at, _) => [Request(at, Unique)]
  }

  /** Where a call stands: how many locks it holds, or how many words it has handled. */
  datatype Stage = Acquiring(held: nat) | Working(done: nat, local: Value) | Releasing(held: nat)

  datatype ThreadState = Idle(todo: seq<Op>) | Busy(op: Op, stage: Stage, todo: seq<Op>)

  datatype Lock = Lock(writer: Option<Thread>, readers: set<Thread>)

  /** A call as it took effect: what it read or what it left in the object it wrote. */
  datatype Event = Event(thread: Thread, op: Op, value: Value)

  /** `committed` and `log` record what the calls have published; no step's guard looks at them. */
  datatype State = State(
    locks: seq<Lock>,
    data: seq<Value>,
    threads: seq<ThreadState>,
    committed: seq<Value>,
    log: seq<Event>)

  // ---------- steps ----------

  datatype Step = Begin | Acquire | Start | Copy | Scribble(garbage: Value) | Commit | Release | End

  ghost predicate OpsFit(n: nat, ops: seq<Op>) {
    forall i | 0 <= i < |ops| :: Highest(ops[i]) < n
  }

  /** The object a call overwrites; assigning an object to itself does nothing. */
  function Target(op: Op): Option<Address> {
    match op
    case Assign(lhs, rhs) => if lhs == rhs then None else Some(lhs)
    case Read(_) => None
    case Edit(at, _) => Some(at)
  }

  /** The object a call copies words from. */
  function Source(op: Op): Option<Address> {
    match op
    case Assign(lhs, rhs) => if lhs == rhs then None else Some(rhs)
    case Read(at) => Some(at)
    case Edit(_, _) => None
  }

  /** Sizes agree, addresses exist, and no call holds more locks than it asks for. */
  ghost predicate Shaped(s: State) {
    && |s.locks| == |s.data| == |s.committed|
    && forall t | 0 <= t < |s.threads| :: ThreadShaped(|s.data|, s.threads[t])
  }

  ghost predicate ThreadShaped(n: nat, th: ThreadState) {
    && OpsFit(n, th.todo)
    && (th.Busy? ==>
          && Highest(th.op) < n
          && (th.stage.Acquiring? ==> th.stage.held <= |Requests(th.op)|)
          && (th.stage.Releasing? ==> th.stage.held <= |Requests(th.op)|))
  }

  /** The request a thread is waiting for. */
  predicate Waiting(th: ThreadState) {
    th.Busy? && th.stage.Acquiring? && th.stage.held < |Requests(th.op)|
  }

  function Wanted(th: ThreadState): Request
    requires Waiting(th)
  {
    Requests(th.op)[th.stage.held]
  }

  function Effective(kind: MutexKind, mode: Mode): Mode {
    if kind.PlainMutex? then Unique else mode
  }

  /** The mutex lets the request through now. */
  ghost predicate Grants(kind: MutexKind, s: State, r: Request)
    requires r.at < |s.locks|
  {
    var lock := s.locks[r.at];
    match Effective(kind, r.mode)
    case Unique => lock.writer.None? && lock.readers == {}
    case Shared => lock.writer.None? && (kind.prefersWriters ==> !WriterWaits(s, r.at))
  }

  ghost predicate WriterWaits(s: State, at: Address) {
    exists t | 0 <= t < |s.threads| :: Waiting(s.threads[t]) && Wanted(s.threads[t]) == Request(at, Unique)
  }

  ghost predicate Enabled(kind: MutexKind, s: State, t: Thread, step: Step)
    requires Shaped(s) && t < |s.threads|
  {
    var th := s.threads[t];
    match step
    case Begin => th.Idle? && th.todo != []
    case Acquire => Waiting(th) && Grants(kind, s, Wanted(th))
    case Start => th.Busy? && th.stage == Acquiring(|Requests(th.op)|)
    case Copy => th.Busy? && th.stage.Working? && Source(th.op).Some? && th.stage.done < |s.data[Source(th.op).value]|
    case Scribble(_) => th.Busy? && th.stage.Working? && th.op.Edit?
    case Commit =>
      && th.Busy? && th.stage.Working?
      && (Source(th.op).Some? ==> th.stage.done >= |s.data[Source(th.op).value]|)
    case Release => th.Busy? && th.stage.Releasing? && th.stage.held > 0
    case End => th.Busy? && th.stage == Releasing(0)
  }

  function Locked(kind: MutexKind, lock: Lock, t: Thread, mode: Mode): Lock {
    match Effective(kind, mode)
    case Unique => lock.(writer := Some(t))
    case Shared => lock.(readers := lock.readers + {t})
  }

  function Unlocked(kind: MutexKind, lock: Lock, t: Thread, mode: Mode): Lock {
    match Effective(kind, mode)
    case Unique => lock.(writer := None)
    case Shared => lock.(readers := lock.readers - {t})
  }

  /** One word of `from` written over the word at `k` of `to`, or behind its last word. */
  function WithWord(to: Value, k: nat, word: int): Value {
    if k < |to| then to[k := word] else to + [word]
  }

  /** What a call leaves in the object it overwrites: the words copied so far, or the edited value. */
  function Final(op: Op, content: Value, done: nat, local: Value): Value {
    if op.Edit? then op.f(local) else if done <= |content| then content[..done] else content
  }

  ghost function Apply(kind: MutexKind, s: State, t: Thread, step: Step): State
    requires Shaped(s) && t < |s.threads| && Enabled(kind, s, t, step)
  {
    var th := s.threads[t];
    match step
    case Begin => s.(threads := s.threads[t := Busy(th.todo[0], Acquiring(0), th.todo[1..])])
    case Acquire =>
      var r := Wanted(th);
      s.(locks := s.locks[r.at := Locked(kind, s.locks[r.at], t, r.mode)],
         threads := s.threads[t := th.(stage := Acquiring(th.stage.held + 1))])
    case Start =>
      var local := if th.op.Edit? then s.data[th.op.at] else [];
      s.(threads := s.threads[t := th.(stage := Working(0, local))])
    case Copy =>
      var k := th.stage.done;
      if th.op.Assign? then
        s.(data := s.data[th.op.lhs := WithWord(s.data[th.op.lhs], k, s.data[th.op.rhs][k])],
           threads := s.threads[t := th.(stage := Working(k + 1, th.stage.local))])
      else
        s.(threads := s.threads[t := th.(stage := Working(k + 1, th.stage.local + [s.data[th.op.at][k]]))])
    case Scribble(garbage) => s.(data := s.data[th.op.at := garbage])
    case Commit =>
      var done := s.threads[t := th.(stage := Releasing(|Requests(th.op)|))];
      if Target(th.op).None? then
        s.(threads := done, log := s.log + [Event(t, th.op, th.stage.local)])
      else
        var at := Target(th.op).value;
        var value := Final(th.op, s.data[at], th.stage.done, th.stage.local);
        s.(data := s.data[at := value], threads := done,
           committed := s.committed[at := value], log := s.log + [Event(t, th.op, value)])
    case Release =>
      var r := Requests(th.op)[th.stage.held - 1];
      s.(locks := s.locks[r.at := Unlocked(kind, s.locks[r.at], t, r.mode)],
         threads := s.threads[t := th.(stage := Releasing(th.stage.held - 1))])
    case End => s.(threads := s.threads[t := Idle(th.todo)])
  }

  // ---------- runs ----------

  datatype Move = Move(thread: Thread, step: Step)

  /** The state after a sequence of moves, if every one of them was possible. */
  ghost function After(kind: MutexKind, s: State, moves: seq<Move>): Option<State>
    requires Shaped(s)
  {
    if moves == [] then Some(s)
    else
      var before := After(kind, s, moves[..|moves| - 1]);
      var move := moves[|moves| - 1];
      if before.None? || !Shaped(before.value) || move.thread >= |before.value.threads|
         || !Enabled(kind, before.value, move.thread, move.step)
      then None
      else Some(Apply(kind, before.value, move.thread, move.step))
  }

  /** Every thread has its program to run, every mutex is free and nothing has happened. */
  ghost predicate Initial(s: State, programs: seq<seq<Op>>) {
    && Shaped(s) && s.committed == s.data && s.log == []
    && |s.threads| == |programs|
    && (forall t | 0 <= t < |s.threads| :: s.threads[t] == Idle(programs[t]))
    && (forall a | 0 <= a < |s.locks| :: s.locks[a] == Lock(None, {}))
  }

  // ---------- the locks ----------

  /** The locks a thread holds. */
  function Held(th: ThreadState): seq<Request> {
    if th.Idle? then []
    else match th.stage
      case Acquiring(held) => FirstOf(Requests(th.op), held)
      case Working(_, _) => Requests(th.op)
      case Releasing(held) => FirstOf(Requests(th.op), held)
  }

  function FirstOf(r: seq<Request>, n: nat): seq<Request> {
    if n <= |r| then r[..n] else r
  }

  /** How a thread holds the mutex of an object. */
  function HeldMode(kind: MutexKind, th: ThreadState, at: Address): Option<Mode> {
    ModeAmong(kind, Held(th), at)
  }

  function ModeAmong(kind: MutexKind, held: seq<Request>, at: Address): Option<Mode> {
    if |held| > 0 && held[0].at == at then Some(Effective(kind, held[0].mode))
    else if |held| > 1 && held[1].at == at then Some(Effective(kind, held[1].mode))
    else None
  }

  /** A mutex records exactly the threads that hold it, and no writer shares it. */
  ghost predicate LockKept(kind: MutexKind, s: State, a: Address)
    requires a < |s.locks|
  {
    var lock := s.locks[a];
    && (lock.writer.Some? ==> lock.readers == {} && lock.writer.value < |s.threads|)
    && (forall t | t in lock.readers :: t < |s.threads|)
    && (forall t | 0 <= t < |s.threads| ::
          && (lock.writer == Some(t) <==> HeldMode(kind, s.threads[t], a) == Some(Unique))
          && (t in lock.readers <==> HeldMode(kind, s.threads[t], a) == Some(Shared)))
  }

  ghost predicate LocksKept(kind: MutexKind, s: State) {
    forall a {:trigger LockKept(kind, s, a)} | 0 <= a < |s.locks| :: LockKept(kind, s, a)
  }

  lemma {:induction false} StepKeepsShape(kind: MutexKind, s: State, t: Thread, step: Step)
    requires Shaped(s) && t < |s.threads| && Enabled(kind, s, t, step)
    ensures Shaped(Apply(kind, s, t, step))
  {
    var after := Apply(kind, s, t, step);
    assert ThreadShaped(|s.data|, s.threads[t]);
    assert ThreadShaped(|s.data|, after.threads[t]);
    assert forall u | 0 <= u < |s.threads| && u != t :: after.threads[u] == s.threads[u];
  }

  /** The locks of a call are on different objects, so one more of them changes how one object is held. */
  lemma {:induction false} OneMoreHeld(kind: MutexKind, op: Op, n: nat, a: Address)
    requires n < |Requests(op)|
    ensures var r := Requests(op);
            && ModeAmong(kind, FirstOf(r, n), r[n].at) == None
            && ModeAmong(kind, FirstOf(r, n + 1), a) ==
               if r[n].at == a then Some(Effective(kind, r[n].mode)) else ModeAmong(kind, FirstOf(r, n), a)
  {
  }

  lemma {:induction false} StepMovesHeld(kind: MutexKind, s: State, t: Thread, step: Step)
    requires Shaped(s) && t < |s.threads| && Enabled(kind, s, t, step)
    ensures t < |Apply(kind, s, t, step).threads|
    ensures var th, after := s.threads[t], Held(Apply(kind, s, t, step).threads[t]);
            if step.Acquire? then
              Held(th) == FirstOf(Requests(th.op), th.stage.held) &&
                after == FirstOf(Requests(th.op), th.stage.held + 1)
            else if step.Release? then
              Held(th) == FirstOf(Requests(th.op), th.stage.held) &&
                after == FirstOf(Requests(th.op), th.stage.held - 1)
            else after == Held(th)
  {
    assert ThreadShaped(|s.data|, s.threads[t]);
  }

  /** A step changes how its thread holds a mutex only by taking or releasing it. */
  lemma {:induction false} StepChangesHeld(kind: MutexKind, s: State, t: Thread, step: Step, a: Address)
    requires Shaped(s) && t < |s.threads| && Enabled(kind, s, t, step)
    ensures var th, after := s.threads[t], Apply(kind, s, t, step).threads[t];
            HeldMode(kind, after, a) ==
            if step.Acquire? && Wanted(th).at == a then Some(Effective(kind, Wanted(th).mode))
            else if step.Release? && Requests(th.op)[th.stage.held - 1].at == a then None
            else HeldMode(kind, th, a)
    ensures step.Acquire? ==> HeldMode(kind, s.threads[t], Wanted(s.threads[t]).at) == None
    ensures step.Release? ==>
      var r := Requests(s.threads[t].op)[s.threads[t].stage.held - 1];
      HeldMode(kind, s.threads[t], r.at) == Some(Effective(kind, r.mode))
  {
    var th := s.threads[t];
    assert ThreadShaped(|s.data|, th);
    StepMovesHeld(kind, s, t, step);
    if step.Acquire? {
      OneMoreHeld(kind, th.op, th.stage.held, a);
      OneMoreHeld(kind, th.op, th.stage.held, Wanted(th).at);
    } else if step.Release? {
      OneMoreHeld(kind, th.op, th.stage.held - 1, a);
      OneMoreHeld(kind, th.op, th.stage.held - 1, Requests(th.op)[th.stage.held - 1].at);
    }
  }

  lemma {:induction false} StepChangesLock(kind: MutexKind, s: State, t: Thread, step: Step, a: Address)
    requires Shaped(s) && t < |s.threads| && Enabled(kind, s, t, step) && a < |s.locks|
    ensures var th, after := s.threads[t], Apply(kind, s, t, step);
            && |after.locks| == |s.locks| && |after.threads| == |s.threads|
            && (forall u | 0 <= u < |s.threads| && u != t :: after.threads[u] == s.threads[u])
            && after.locks[a] ==
               if step.Acquire? && Wanted(th).at == a then Locked(kind, s.locks[a], t, Wanted(th).mode)
               else if step.Release? && Requests(th.op)[th.stage.held - 1].at == a
                 then Unlocked(kind, s.locks[a], t, Requests(th.op)[th.stage.held - 1].mode)
               else s.locks[a]
  {
    assert ThreadShaped(|s.data|, s.threads[t]);
  }

  lemma {:induction false} StepKeepsLock(kind: MutexKind, s: State, t: Thread, step: Step, a: Address)
    requires Shaped(s) && t < |s.threads| && Enabled(kind, s, t, step) && a < |s.locks| && LockKept(kind, s, a)
    ensures var after := Apply(kind, s, t, step); a < |after.locks| && LockKept(kind, after, a)
  {
    StepChangesHeld(kind, s, t, step, a);
    StepChangesLock(kind, s, t, step, a);
    var th, lock, after := s.threads[t], s.locks[a], Apply(kind, s, t, step);
    if step.Acquire? && Wanted(th).at == a {
      LockingKeeps(kind, s, after, t, Wanted(th).mode, a);
    } else if step.Release? && Requests(th.op)[th.stage.held - 1].at == a {
      UnlockingKeeps(kind, s, after, t, Requests(th.op)[th.stage.held - 1].mode, a);
    }
  }

  lemma {:induction false} LockingKeeps(kind: MutexKind, s: State, after: State, t: Thread, mode: Mode, a: Address)
    requires t < |s.threads| == |after.threads| && a < |s.locks| == |after.locks| && LockKept(kind, s, a)
    requires forall u | 0 <= u < |s.threads| && u != t :: after.threads[u] == s.threads[u]
    requires Grants(kind, s, Request(a, mode)) && after.locks[a] == Locked(kind, s.locks[a], t, mode)
    requires HeldMode(kind, s.threads[t], a) == None
    requires HeldMode(kind, after.threads[t], a) == Some(Effective(kind, mode))
    ensures LockKept(kind, after, a)
  {
  }

  lemma {:induction false} UnlockingKeeps(kind: MutexKind, s: State, after: State, t: Thread, mode: Mode, a: Address)
    requires t < |s.threads| == |after.threads| && a < |s.locks| == |after.locks| && LockKept(kind, s, a)
    requires forall u | 0 <= u < |s.threads| && u != t :: after.threads[u] == s.threads[u]
    requires after.locks[a] == Unlocked(kind, s.locks[a], t, mode)
    requires HeldMode(kind, s.threads[t], a) == Some(Effective(kind, mode))
    requires HeldMode(kind, after.threads[t], a) == None
    ensures LockKept(kind, after, a)
  {
  }

  /** In every reachable state no writer shares a lock, and the mutexes agree with what the calls hold. */
  lemma {:induction false} StepKeepsLocks(kind: MutexKind, s: State, t: Thread, step: Step)
    requires Shaped(s) && t < |s.threads| && Enabled(kind, s, t, step) && LocksKept(kind, s)
    ensures LocksKept(kind, Apply(kind, s, t, step))
  {
    var after := Apply(kind, s, t, step);
    forall a | 0 <= a < |after.locks| ensures LockKept(kind, after, a) {
      assert LockKept(kind, s, a);
      StepKeepsLock(kind, s, t, step, a);
    }
  }

  lemma {:induction false} WriterIsAlone(kind: MutexKind, s: State, t: Thread, u: Thread, a: Address)
    requires t < |s.threads| && u < |s.threads| && t != u && a < |s.locks| && LockKept(kind, s, a)
    requires HeldMode(kind, s.threads[t], a) == Some(Unique)
    ensures HeldMode(kind, s.threads[u], a) == None
  {
  }

  lemma {:induction false} WorkingHolds(kind: MutexKind, th: ThreadState)
    requires th.Busy? && (th.stage.Working? || th.stage == Acquiring(|Requests(th.op)|))
    ensures Target(th.op).Some? ==> HeldMode(kind, th, Target(th.op).value) == Some(Unique)
    ensures Source(th.op).Some? ==> HeldMode(kind, th, Source(th.op).value).Some?
  {
  }

  // ---------- the data ----------

  predicate Writing(th: ThreadState, a: Address) {
    th.Busy? && th.stage.Working? && Target(th.op) == Some(a)
  }

  /** An object shows its published value unless the holder of its mutex is overwriting it. */
  ghost predicate DataKept(kind: MutexKind, s: State, a: Address)
    requires Shaped(s) && a < |s.data|
  {
    s.data[a] == s.committed[a]
    || exists t | 0 <= t < |s.threads| :: Writing(s.threads[t], a)
  }

  ghost predicate AllDataKept(kind: MutexKind, s: State)
    requires Shaped(s)
  {
    forall a {:trigger DataKept(kind, s, a)} | 0 <= a < |s.data| :: DataKept(kind, s, a)
  }

  /** What a working call has copied or set aside belongs to the published value of its source. */
  ghost predicate WorkKept(s: State, t: Thread)
    requires Shaped(s) && t < |s.threads|
  {
    var th := s.threads[t];
    th.Busy? && th.stage.Working? && Highest(th.op) < |s.data| ==>
      match th.op
      case Assign(lhs, rhs) =>
        if lhs == rhs then th.stage.local == []
        else CopiedPart(s.data[lhs], s.committed[rhs], th.stage.done)
      case Read(at) => th.stage.done <= |s.committed[at]| && th.stage.local == s.committed[at][..th.stage.done]
      case Edit(at, _) => th.stage.local == s.committed[at]
  }

  predicate CopiedPart(to: Value, from: Value, done: nat) {
    done <= |to| && done <= |from| && to[..done] == from[..done]
  }

  ghost predicate AllWorkKept(s: State)
    requires Shaped(s)
  {
    forall t {:trigger WorkKept(s, t)} | 0 <= t < |s.threads| :: WorkKept(s, t)
  }

  /** What a call leaves or returns, run on its own. */
  function Outcome(memory: seq<Value>, op: Op): Value
    requires Highest(op) < |memory|
  {
    match op
    case Assign(lhs, rhs) => if lhs == rhs then [] else memory[rhs]
    case Read(at) => memory[at]
    case Edit(at, f) => f(memory[at])
  }

  function Effect(memory: seq<Value>, op: Op): (r: seq<Value>)
    requires Highest(op) < |memory|
    ensures |r| == |memory|
  {
    if Target(op).None? then memory else memory[Target(op).value := Outcome(memory, op)]
  }

  /** An object nobody else is writing shows its published value to a thread that holds its mutex. */
  lemma {:induction false} HolderSeesPublished(kind: MutexKind, s: State, t: Thread, a: Address)
    requires Shaped(s) && t < |s.threads| && a < |s.data| && LockKept(kind, s, a) && DataKept(kind, s, a)
    requires HeldMode(kind, s.threads[t], a).Some? && !Writing(s.threads[t], a)
    ensures s.data[a] == s.committed[a]
  {
    if s.data[a] != s.committed[a] {
      var w :| 0 <= w < |s.threads| && Writing(s.threads[w], a);
      WorkingHolds(kind, s.threads[w]);
      WriterIsAlone(kind, s, w, t, a);
    }
  }

  /** The sources of a working call show their published values. */
  lemma {:induction false} SourceIsPublished(kind: MutexKind, s: State, t: Thread)
    requires Shaped(s) && t < |s.threads| && LocksKept(kind, s) && AllDataKept(kind, s)
    requires s.threads[t].Busy? && s.threads[t].stage.Working? && Source(s.threads[t].op).Some?
    ensures var a := Source(s.threads[t].op).value; a < |s.data| && s.data[a] == s.committed[a]
  {
    var a := Source(s.threads[t].op).value;
    assert ThreadShaped(|s.data|, s.threads[t]);
    WorkingHolds(kind, s.threads[t]);
    assert LockKept(kind, s, a) && DataKept(kind, s, a);
    HolderSeesPublished(kind, s, t, a);
  }

  lemma {:induction false} StepKeepsObject(kind: MutexKind, s: State, t: Thread, step: Step, a: Address)
    requires Shaped(s) && t < |s.threads| && Enabled(kind, s, t, step) && a < |s.data| && DataKept(kind, s, a)
    ensures var after := Apply(kind, s, t, step); Shaped(after) && |after.data| == |s.data| && DataKept(kind, after, a)
  {
    StepKeepsShape(kind, s, t, step);
    var after := Apply(kind, s, t, step);
    assert ThreadShaped(|s.data|, s.threads[t]);
    if Writing(s.threads[t], a) {
      if !step.Commit? {
        assert Writing(after.threads[t], a);
      }
    } else if s.data[a] != s.committed[a] {
      var w :| 0 <= w < |s.threads| && Writing(s.threads[w], a);
      assert after.threads[w] == s.threads[w];
    }
  }

  /** The objects a working call writes and reads. */
  predicate Touches(op: Op, a: Address) {
    Target(op) == Some(a) || Source(op) == Some(a)
  }

  /** No other call touches the object a working call writes. */
  lemma {:induction false} WritesAreApart(kind: MutexKind, s: State, t: Thread, u: Thread, a: Address)
    requires Shaped(s) && t < |s.threads| && u < |s.threads| && t != u && LocksKept(kind, s)
    requires Writing(s.threads[t], a) && s.threads[u].Busy? && s.threads[u].stage.Working?
    ensures !Touches(s.threads[u].op, a)
  {
    assert ThreadShaped(|s.data|, s.threads[t]);
    WorkingHolds(kind, s.threads[t]);
    WorkingHolds(kind, s.threads[u]);
    assert LockKept(kind, s, a);
    WriterIsAlone(kind, s, t, u, a);
  }

  /** A step changes no object but the one its thread is writing. */
  lemma {:induction false} StepChangesOnlyItsTarget(kind: MutexKind, s: State, t: Thread, step: Step, a: Address)
    requires Shaped(s) && t < |s.threads| && Enabled(kind, s, t, step) && a < |s.data| && !Writing(s.threads[t], a)
    ensures var after := Apply(kind, s, t, step);
            && |after.data| == |s.data| && |after.committed| == |s.committed|
            && after.data[a] == s.data[a] && after.committed[a] == s.committed[a]
  {
    assert ThreadShaped(|s.data|, s.threads[t]);
  }

  /** A step leaves alone what another working call depends on. */
  lemma {:induction false} StepKeepsOthersWork(kind: MutexKind, s: State, t: Thread, step: Step, u: Thread)
    requires Shaped(s) && t < |s.threads| && u < |s.threads| && t != u && Enabled(kind, s, t, step)
    requires LocksKept(kind, s) && WorkKept(s, u)
    ensures var after := Apply(kind, s, t, step); Shaped(after) && u < |after.threads| && WorkKept(after, u)
  {
    StepKeepsShape(kind, s, t, step);
    var after, other := Apply(kind, s, t, step), s.threads[u];
    assert after.threads[u] == other && ThreadShaped(|s.data|, other);
    if other.Busy? && other.stage.Working? {
      forall a | 0 <= a < |s.data| && Touches(other.op, a)
        ensures |after.data| == |s.data| && after.data[a] == s.data[a] && after.committed[a] == s.committed[a]
      {
        if Writing(s.threads[t], a) {
          WritesAreApart(kind, s, t, u, a);
        }
        StepChangesOnlyItsTarget(kind, s, t, step, a);
      }
    }
  }

  lemma {:induction false} StepKeepsOwnWork(kind: MutexKind, s: State, t: Thread, step: Step)
    requires Shaped(s) && t < |s.threads| && Enabled(kind, s, t, step)
    requires LocksKept(kind, s) && AllDataKept(kind, s) && WorkKept(s, t)
    ensures var after := Apply(kind, s, t, step); Shaped(after) && t < |after.threads| && WorkKept(after, t)
  {
    StepKeepsShape(kind, s, t, step);
    var th := s.threads[t];
    assert ThreadShaped(|s.data|, th);
    if step.Copy? {
      SourceIsPublished(kind, s, t);
      var k, a := th.stage.done, Source(th.op).value;
      assert s.committed[a][..k + 1] == s.committed[a][..k] + [s.committed[a][k]];
    } else if step.Start? && th.op.Edit? {
      WorkingHolds(kind, th);
      assert LockKept(kind, s, th.op.at) && DataKept(kind, s, th.op.at);
      HolderSeesPublished(kind, s, t, th.op.at);
    }
  }

  // ---------- the order in which calls take effect ----------

  /** The objects after the calls of a log, run one after the other. */
  ghost function Replay(memory: seq<Value>, log: seq<Event>): (r: seq<Value>)
    ensures |r| == |memory|
  {
    if log == [] then memory
    else
      var before := Replay(memory, log[..|log| - 1]);
      var op := log[|log| - 1].op;
      if Highest(op) < |before| then Effect(before, op) else before
  }

  /** Every call of the log read or left what it would have, run alone at its place in the log. */
  ghost predicate Legal(memory: seq<Value>, log: seq<Event>) {
    log == []
    || var last := log[|log| - 1];
       && Legal(memory, log[..|log| - 1])
       && Highest(last.op) < |memory|
       && last.value == Outcome(Replay(memory, log[..|log| - 1]), last.op)
  }

  /** The commit of a call is one call of the sequential machine on the published values. */
  lemma {:induction false} CommitIsOneCall(kind: MutexKind, s: State, t: Thread)
    requires Shaped(s) && t < |s.threads| && Enabled(kind, s, t, Commit)
    requires LocksKept(kind, s) && AllDataKept(kind, s) && WorkKept(s, t)
    ensures var op, after := s.threads[t].op, Apply(kind, s, t, Commit);
            && Highest(op) < |s.committed|
            && after.committed == Effect(s.committed, op)
            && after.log == s.log + [Event(t, op, Outcome(s.committed, op))]
  {
    var th := s.threads[t];
    assert ThreadShaped(|s.data|, th);
    if Source(th.op).Some? {
      SourceIsPublished(kind, s, t);
      var from := s.committed[Source(th.op).value];
      assert th.stage.done == |from| && from[..|from|] == from;
    }
  }

  lemma {:induction false} OnlyCommitPublishes(kind: MutexKind, s: State, t: Thread, step: Step)
    requires Shaped(s) && t < |s.threads| && Enabled(kind, s, t, step) && !step.Commit?
    ensures Apply(kind, s, t, step).committed == s.committed && Apply(kind, s, t, step).log == s.log
  {
  }

  /** The calls of one thread in a log. */
  ghost function CallsOf(log: seq<Event>, t: Thread): seq<Op> {
    if log == [] then []
    else CallsOf(log[..|log| - 1], t) + if log[|log| - 1].thread == t then [log[|log| - 1].op] else []
  }

  /** The calls a thread has yet to bring into effect. */
  function Pending(th: ThreadState): seq<Op> {
    if th.Busy? && !th.stage.Releasing? then [th.op] + th.todo else th.todo
  }

  ghost predicate Kept(kind: MutexKind, memory: seq<Value>, programs: seq<seq<Op>>, s: State) {
    && Shaped(s) && |s.threads| == |programs| && |memory| == |s.data|
    && LocksKept(kind, s) && AllDataKept(kind, s) && AllWorkKept(s)
    && Legal(memory, s.log) && s.committed == Replay(memory, s.log)
    && forall t {:trigger s.threads[t]} | 0 <= t < |programs| ::
         CallsOf(s.log, t) + Pending(s.threads[t]) == programs[t]
  }

  lemma {:induction false} CallsOfAppended(log: seq<Event>, e: Event, t: Thread)
    ensures CallsOf(log + [e], t) == CallsOf(log, t) + if e.thread == t then [e.op] else []
  {
    assert (log + [e])[..|log + [e]| - 1] == log;
  }

  /** A step moves a call from the pending ones to the log exactly when it commits it. */
  lemma {:induction false} StepMovesCall(kind: MutexKind, s: State, t: Thread, step: Step, u: Thread)
    requires Shaped(s) && t < |s.threads| && u < |s.threads| && Enabled(kind, s, t, step)
    ensures var after := Apply(kind, s, t, step);
            if step.Commit? && u == t then
              var op := s.threads[t].op;
              && CallsOf(after.log, t) == CallsOf(s.log, t) + [op]
              && Pending(s.threads[t]) == [op] + Pending(after.threads[t])
            else
              CallsOf(after.log, u) == CallsOf(s.log, u) && Pending(after.threads[u]) == Pending(s.threads[u])
  {
    if step.Commit? {
      var log := Apply(kind, s, t, step).log;
      CallsOfAppended(s.log, log[|s.log|], u);
    } else {
      OnlyCommitPublishes(kind, s, t, step);
      if step.Begin? {
        assert [s.threads[t].todo[0]] + s.threads[t].todo[1..] == s.threads[t].todo;
      }
    }
  }

  lemma {:induction false} StepKeepsOrder(kind: MutexKind, s: State, t: Thread, step: Step, u: Thread)
    requires Shaped(s) && t < |s.threads| && u < |s.threads| && Enabled(kind, s, t, step)
    ensures var after := Apply(kind, s, t, step);
            CallsOf(after.log, u) + Pending(after.threads[u]) == CallsOf(s.log, u) + Pending(s.threads[u])
  {
    StepMovesCall(kind, s, t, step, u);
    if step.Commit? && u == t {
      Regroup(CallsOf(s.log, t), s.threads[t].op, Pending(Apply(kind, s, t, step).threads[t]));
    }
  }

  lemma {:induction false} Regroup(a: seq<Op>, op: Op, b: seq<Op>)
    ensures a + [op] + b == a + ([op] + b)
  {
  }

  lemma {:induction false} StepKeeps(
      kind: MutexKind, memory: seq<Value>, programs: seq<seq<Op>>, s: State, t: Thread, step: Step)
    requires Kept(kind, memory, programs, s) && t < |s.threads| && Enabled(kind, s, t, step)
    ensures Kept(kind, memory, programs, Apply(kind, s, t, step))
  {
    var after := Apply(kind, s, t, step);
    StepKeepsShape(kind, s, t, step);
    StepKeepsLocks(kind, s, t, step);
    forall a | 0 <= a < |after.data| ensures DataKept(kind, after, a) {
      assert DataKept(kind, s, a);
      StepKeepsObject(kind, s, t, step, a);
    }
    assert WorkKept(s, t);
    forall u | 0 <= u < |after.threads| ensures WorkKept(after, u) {
      if u == t {
        StepKeepsOwnWork(kind, s, t, step);
      } else {
        assert WorkKept(s, u);
        StepKeepsOthersWork(kind, s, t, step, u);
      }
    }
    forall u | 0 <= u < |programs| ensures CallsOf(after.log, u) + Pending(after.threads[u]) == programs[u] {
      StepKeepsOrder(kind, s, t, step, u);
    }
    StepKeepsReplay(kind, memory, s, t, step);
  }

  lemma {:induction false} StepKeepsReplay(kind: MutexKind, memory: seq<Value>, s: State, t: Thread, step: Step)
    requires Shaped(s) && t < |s.threads| && Enabled(kind, s, t, step) && |memory| == |s.data|
    requires LocksKept(kind, s) && AllDataKept(kind, s) && WorkKept(s, t)
    requires Legal(memory, s.log) && s.committed == Replay(memory, s.log)
    ensures var after := Apply(kind, s, t, step);
            Legal(memory, after.log) && after.committed == Replay(memory, after.log)
  {
    if step.Commit? {
      CommitIsOneCall(kind, s, t);
      var log := Apply(kind, s, t, step).log;
      assert log[..|log| - 1] == s.log;
    } else {
      OnlyCommitPublishes(kind, s, t, step);
    }
  }

  /**
    In every state a run reaches, no writer shares a lock; the published values are those of running
    the logged calls one after the other; each read returned and each assignment stored what its
    source then held; and each thread's calls took effect once each, in order, between their first
    and their last step.
   */
  lemma {:induction false} RunsAreSequential(kind: MutexKind, init: State, programs: seq<seq<Op>>, moves: seq<Move>)
    requires Initial(init, programs) && After(kind, init, moves).Some?
    ensures Kept(kind, init.data, programs, After(kind, init, moves).value)
  {
    if moves == [] {
      assert forall a | 0 <= a < |init.locks| :: LockKept(kind, init, a) && DataKept(kind, init, a);
      assert forall t | 0 <= t < |programs| :: Pending(init.threads[t]) == programs[t] && WorkKept(init, t);
    } else {
      var move := moves[|moves| - 1];
      RunsAreSequential(kind, init, programs, moves[..|moves| - 1]);
      StepKeeps(kind, init.data, programs, After(kind, init, moves[..|moves| - 1]).value, move.thread, move.step);
    }
  }

  /** Once all threads are through, the objects hold what the logged calls leave, run one after the other. */
  lemma {:induction false} FinishedRunsLeaveTheReplay(
      kind: MutexKind, init: State, programs: seq<seq<Op>>, moves: seq<Move>)
    requires Initial(init, programs) && After(kind, init, moves).Some?
    requires var threads := After(kind, init, moves).value.threads;
             forall t | 0 <= t < |threads| :: threads[t] == Idle([])
    ensures var s := After(kind, init, moves).value;
            && s.data == Replay(init.data, s.log)
            && forall t | 0 <= t < |programs| :: CallsOf(s.log, t) == programs[t]
  {
    RunsAreSequential(kind, init, programs, moves);
    var s := After(kind, init, moves).value;
    forall a | 0 <= a < |s.data| ensures s.data[a] == s.committed[a] {
      assert DataKept(kind, s, a);
    }
    forall t | 0 <= t < |programs| ensures CallsOf(s.log, t) == programs[t] {
      assert CallsOf(s.log, t) + Pending(s.threads[t]) == programs[t];
    }
  }

  // ---------- progress ----------

  predicate Finished(th: ThreadState) {
    th == Idle([])
  }

  /** A thread that is not waiting for a mutex can always move. */
  lemma {:induction false} NotWaitingCanMove(kind: MutexKind, s: State, t: Thread) returns (step: Step)
    requires Shaped(s) && t < |s.threads| && !Finished(s.threads[t]) && !Waiting(s.threads[t])
    ensures Enabled(kind, s, t, step)
  {
    var th := s.threads[t];
    assert ThreadShaped(|s.data|, th);
    if th.Idle? {
      step := Begin;
    } else if th.stage.Acquiring? {
      step := Start;
    } else if th.stage.Working? {
      step := if Source(th.op).Some? && th.stage.done < |s.data[Source(th.op).value]| then Copy else Commit;
    } else {
      step := if th.stage.held > 0 then Release else End;
    }
  }

  /** A thread that holds a mutex and waits for another waits at a higher address. */
  lemma {:induction false} WaitsUpwards(kind: MutexKind, th: ThreadState, a: Address)
    requires Waiting(th) && HeldMode(kind, th, a).Some?
    ensures a < Wanted(th).at
  {
  }

  /**
    Wherever some thread waits, some thread can move: follow the thread that holds the wanted mutex,
    or the writer waiting for it first. Each hop leads to a higher address, or from a reader to a
    writer at the same one.
   */
  lemma {:induction false} WaitingLeadsToMove(kind: MutexKind, s: State, t: Thread) returns (u: Thread, step: Step)
    requires Shaped(s) && LocksKept(kind, s) && t < |s.threads| && Waiting(s.threads[t])
    ensures u < |s.threads| && Enabled(kind, s, u, step)
    decreases |s.locks| - Wanted(s.threads[t]).at, if Wanted(s.threads[t]).mode == Shared then 1 else 0
  {
    assert ThreadShaped(|s.data|, s.threads[t]);
    var r := Wanted(s.threads[t]);
    assert LockKept(kind, s, r.at);
    if Grants(kind, s, r) {
      u, step := t, Acquire;
    } else if s.locks[r.at].writer.Some? || s.locks[r.at].readers != {} {
      var lock := s.locks[r.at];
      u := if lock.writer.Some? then lock.writer.value else var reader :| reader in lock.readers; reader;
      assert HeldMode(kind, s.threads[u], r.at).Some?;
      if Waiting(s.threads[u]) {
        assert ThreadShaped(|s.data|, s.threads[u]);
        WaitsUpwards(kind, s.threads[u], r.at);
        u, step := WaitingLeadsToMove(kind, s, u);
      } else {
        step := NotWaitingCanMove(kind, s, u);
      }
    } else {
      var w :| 0 <= w < |s.threads| && Waiting(s.threads[w]) && Wanted(s.threads[w]) == Request(r.at, Unique);
      u, step := WaitingLeadsToMove(kind, s, w);
    }
  }

  /** No deadlock: in every state a run reaches, unless all threads are through, some thread can move. */
  lemma {:induction false} RunsNeverDeadlock(kind: MutexKind, init: State, programs: seq<seq<Op>>, moves: seq<Move>)
    requires Initial(init, programs) && After(kind, init, moves).Some?
    ensures var s := After(kind, init, moves).value;
            && Shaped(s)
            && ((exists t | 0 <= t < |s.threads| :: !Finished(s.threads[t])) ==>
                exists u, step | 0 <= u < |s.threads| :: Enabled(kind, s, u, step))
  {
    RunsAreSequential(kind, init, programs, moves);
    var s := After(kind, init, moves).value;
    if t :| 0 <= t < |s.threads| && !Finished(s.threads[t]) {
      if Waiting(s.threads[t]) {
        var u, step := WaitingLeadsToMove(kind, s, t);
      } else {
        var step := NotWaitingCanMove(kind, s, t);
      }
    }
  }
}
