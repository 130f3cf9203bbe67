/** Tasks a combined await has started, and what their receivers hold. */
module Tasks {
  datatype Outcome = Value(value: int) | Threw(exception: int)

  /**
    A task starts, stores its outcome in its receiver, reaches its final suspension and then counts
    itself off on the latch, where it learns the count it found.
   */
  datatype Task = Waiting | Running | Stored(outcome: Outcome) | Notified(outcome: Outcome, found: nat)

  const WORD := 0x1_0000_0000

  function CountNotified(tasks: seq<Task>): (n: nat)
    ensures n <= |tasks|
  {
    if tasks == [] then 0 else CountNotified(tasks[1..]) + if tasks[0].Notified? then 1 else 0
  }

  lemma {:induction false} CountAfterUpdate(tasks: seq<Task>, i: nat, task: Task)
    requires i < |tasks| && !tasks[i].Notified?
    ensures CountNotified(tasks[i := task]) == CountNotified(tasks) + if task.Notified? then 1 else 0
  {
    if i > 0 {
      assert tasks[i := task][1..] == tasks[1..][i - 1 := task];
      CountAfterUpdate(tasks[1..], i - 1, task);
    }
  }

  /** Some task has counted itself off and found this count. */
  ghost predicate SomeFound(tasks: seq<Task>, found: nat) {
    exists i | 0 <= i < |tasks| :: tasks[i].Notified? && tasks[i].found == found
  }

  /** A task that does not count itself off changes neither how many have nor who found what. */
  lemma {:induction false} UnnotifiedUpdate(tasks: seq<Task>, i: nat, task: Task, found: nat)
    requires i < |tasks| && !tasks[i].Notified? && !task.Notified?
    ensures CountNotified(tasks[i := task]) == CountNotified(tasks)
    ensures SomeFound(tasks, found) ==> SomeFound(tasks[i := task], found)
  {
    CountAfterUpdate(tasks, i, task);
    if SomeFound(tasks, found) {
      var k :| 0 <= k < |tasks| && tasks[k].Notified? && tasks[k].found == found;
      assert tasks[i := task][k] == tasks[k];
    }
  }

  lemma {:induction false} CountIsFull(tasks: seq<Task>, i: nat)
    requires CountNotified(tasks) == |tasks| && i < |tasks|
    ensures tasks[i].Notified?
  {
    if i > 0 {
      CountIsFull(tasks[1..], i - 1);
    }
  }

  lemma {:induction false} NoneIsNotified(tasks: seq<Task>)
    requires forall i | 0 <= i < |tasks| :: !tasks[i].Notified?
    ensures CountNotified(tasks) == 0
  {
    if tasks != [] {
      NoneIsNotified(tasks[1..]);
    }
  }

  lemma {:induction false} AllAreNotified(tasks: seq<Task>)
    requires forall i | 0 <= i < |tasks| :: tasks[i].Notified?
    ensures CountNotified(tasks) == |tasks|
  {
    if tasks != [] {
      AllAreNotified(tasks[1..]);
    }
  }
}

/** The when_all latch under every interleaving of its tasks. */
module WhenAll {
  import opened Tasks

  class WhenAllLatch {
    var count: nat
    var continuation: bool

    constructor (tasks: nat)
      ensures count == (tasks + 1) % WORD && !continuation
    {
      count, continuation := (tasks + 1) % WORD, false;
    }

    /** Records the awaiting coroutine and gives up its own share of the count. */
    method SetContinuation()
      modifies this
      ensures continuation && count == OneLess(old(count))
    {
      continuation := true;
      count := OneLess(count);
    }

    /** One task has completed; the result tells whether this resumes the awaiting coroutine. */
    method NotifyAwaitableCompleted() returns (resumes: bool)
      modifies this`count
      ensures count == OneLess(old(count)) && (resumes <==> old(count) == 1)
    {
      var found := count;
      count := OneLess(count);
      resumes := found == 1;
    }
  }

  /** An atomic decrement of the 32-bit count. */
  function OneLess(count: nat): nat {
    (count + WORD - 1) % WORD
  }

  /** Where the awaiting coroutine stands in starting its tasks. */
  datatype Awaiter = Entered | ContinuationSet | Starting(started: nat)

  /** `resumedBy` lists those tasks that resumed the awaiting coroutine. */
  datatype State = State(count: nat, awaiter: Awaiter, tasks: seq<Task>, resumedBy: seq<nat>)

  datatype Step =
    | SetContinuation | GiveUpShare | StartNext
    | Store(task: nat, outcome: Outcome) | Notify(task: nat) | Resume(task: nat)

  function Initial(n: nat): State {
    State((n + 1) % WORD, Entered, seq(n, _ => Waiting), [])
  }

  predicate Enabled(s: State, step: Step) {
    match step
    case SetContinuation => s.awaiter.Entered?
    case GiveUpShare => s.awaiter.ContinuationSet?
    case StartNext => s.awaiter.Starting? && s.awaiter.started < |s.tasks|
    case Store(i, _) => i < |s.tasks| && s.tasks[i].Running?
    case Notify(i) => i < |s.tasks| && s.tasks[i].Stored?
    case Resume(i) => i < |s.tasks| && s.tasks[i].Notified? && s.tasks[i].found == 1 && i !in s.resumedBy
  }

  function Apply(s: State, step: Step): State
    requires Enabled(s, step)
  {
    match step
    case SetContinuation => s.(awaiter := ContinuationSet)
    case GiveUpShare => s.(awaiter := Starting(0), count := OneLess(s.count))
    case StartNext =>
      s.(awaiter := Starting(s.awaiter.started + 1), tasks := s.tasks[s.awaiter.started := Running])
    case Store(i, outcome) => s.(tasks := s.tasks[i := Stored(outcome)])
    case Notify(i) => s.(tasks := s.tasks[i := Notified(s.tasks[i].outcome, s.count)], count := OneLess(s.count))
    case Resume(i) => s.(resumedBy := s.resumedBy + [i])
  }

  ghost predicate Run(s: State, steps: seq<Step>, after: State)
    decreases |steps|
  {
    if steps == [] then after == s
    else Enabled(s, steps[0]) && Run(Apply(s, steps[0]), steps[1..], after)
  }

  /** The remaining count, the number of tasks counted off and the awaiter's own share always add up. */
  ghost predicate Kept(n: nat, s: State) {
    && |s.tasks| == n
    && s.count + CountNotified(s.tasks) + (if s.awaiter.Starting? then 1 else 0) == n + 1
    && (forall i | 0 <= i < n :: s.tasks[i].Waiting? <==> !(s.awaiter.Starting? && i < s.awaiter.started))
    && (forall i | 0 <= i < n && s.tasks[i].Notified? ::
         s.tasks[i].found > 0 && (s.tasks[i].found == 1 ==> s.count == 0))
    && (forall i, j | 0 <= i < j < n && s.tasks[i].Notified? && s.tasks[j].Notified? ::
         s.tasks[i].found != s.tasks[j].found)
    && (forall i | 0 <= i < n && s.tasks[i].Notified? :: s.count < s.tasks[i].found)
    && (s.count == 0 ==> SomeFound(s.tasks, 1))
    && |s.resumedBy| <= 1
    && (s.resumedBy != [] ==>
         s.resumedBy[0] < n && s.tasks[s.resumedBy[0]].Notified? && s.tasks[s.resumedBy[0]].found == 1)
  }

  lemma {:induction false} StepKeeps(n: nat, s: State, step: Step)
    requires 1 <= n && n + 1 < WORD && Kept(n, s) && Enabled(s, step)
    ensures Kept(n, Apply(s, step))
  {
    match step
    case StartNext => StartKeeps(n, s);
    case Store(i, outcome) => UnnotifiedUpdate(s.tasks, i, Stored(outcome), 1);
    case Notify(i) => NotifyKeeps(n, s, i);
    case _ =>
  }

  lemma {:induction false} StartKeeps(n: nat, s: State)
    requires 1 <= n && n + 1 < WORD && Kept(n, s) && Enabled(s, StartNext)
    ensures Kept(n, Apply(s, StartNext))
  {
    UnnotifiedUpdate(s.tasks, s.awaiter.started, Running, 1);
  }

  lemma {:induction false} NotifyKeeps(n: nat, s: State, i: nat)
    requires 1 <= n && n + 1 < WORD && Kept(n, s) && Enabled(s, Notify(i))
    ensures Kept(n, Apply(s, Notify(i)))
  {
    var after := Apply(s, Notify(i));
    CountAfterUpdate(s.tasks, i, Notified(s.tasks[i].outcome, s.count));
    assert s.count > 0 by {
      if s.count == 0 {
        CountIsFull(s.tasks, i);
      }
    }
    assert after.count == s.count - 1;
    if after.count == 0 {
      assert after.tasks[i].found == 1;
    }
  }

  /** In every interleaving the counts add up and no decrement wraps around. */
  lemma {:induction false} RunsKeepTheCount(n: nat, s: State, steps: seq<Step>, after: State)
    requires 1 <= n && n + 1 < WORD && Kept(n, s) && Run(s, steps, after)
    ensures Kept(n, after)
    decreases |steps|
  {
    if steps != [] {
      StepKeeps(n, s, steps[0]);
      RunsKeepTheCount(n, Apply(s, steps[0]), steps[1..], after);
    }
  }

  lemma {:induction false} RunExtended(s: State, steps: seq<Step>, mid: State, step: Step)
    requires Run(s, steps, mid) && Enabled(mid, step)
    ensures Run(s, steps + [step], Apply(mid, step))
    decreases |steps|
  {
    if steps == [] {
      assert Run(Apply(s, step), [], Apply(mid, step)) && (steps + [step])[1..] == [];
    } else {
      assert (steps + [step])[1..] == steps[1..] + [step];
      RunExtended(Apply(s, steps[0]), steps[1..], mid, step);
    }
  }

  lemma {:induction false} StartsKept(n: nat)
    requires n + 1 < WORD
    ensures Kept(n, Initial(n))
  {
    NoneIsNotified(Initial(n).tasks);
  }

  /**
    Whenever a task is about to resume the awaiting coroutine, the continuation is set, nobody has
    resumed it before, every task has counted itself off with its outcome stored, and the resuming
    task was the last to do so.
   */
  lemma {:induction false} ResumedByTheLastOnly(n: nat, steps: seq<Step>, s: State, i: nat)
    requires 1 <= n && n + 1 < WORD && Run(Initial(n), steps, s) && Enabled(s, Resume(i))
    ensures s.awaiter == Starting(n) && s.resumedBy == [] && |s.tasks| == n
    ensures forall j | 0 <= j < n :: s.tasks[j].Notified? && (j != i ==> s.tasks[j].found > s.tasks[i].found)
  {
    StartsKept(n);
    RunsKeepTheCount(n, Initial(n), steps, s);
    assert s.count == 0;
    forall j | 0 <= j < n ensures s.tasks[j].Notified? && (j != i ==> s.tasks[j].found > s.tasks[i].found) {
      CountIsFull(s.tasks, j);
    }
    assert !s.tasks[n - 1].Waiting?;
    StartedAtMost(n, Initial(n), steps, s);
  }

  lemma {:induction false} StartedAtMost(n: nat, s: State, steps: seq<Step>, after: State)
    requires Run(s, steps, after) && |s.tasks| == n && (s.awaiter.Starting? ==> s.awaiter.started <= n)
    ensures after.awaiter.Starting? ==> after.awaiter.started <= n
    decreases |steps|
  {
    if steps != [] {
      StartedAtMost(n, Apply(s, steps[0]), steps[1..], after);
    }
  }

  /** Once every task has counted itself off and nothing is left to do, exactly one resumed the awaiter. */
  lemma {:induction false} ResumedExactlyOnce(n: nat, steps: seq<Step>, s: State)
    requires 1 <= n && n + 1 < WORD && Run(Initial(n), steps, s)
    requires forall i | 0 <= i < n && i < |s.tasks| :: s.tasks[i].Notified? && !Enabled(s, Resume(i))
    ensures |s.resumedBy| == 1
  {
    StartsKept(n);
    RunsKeepTheCount(n, Initial(n), steps, s);
    AllAreNotified(s.tasks);
    assert s.tasks[0].Notified? && !s.tasks[0].Waiting?;
    var i :| 0 <= i < n && s.tasks[i].Notified? && s.tasks[i].found == 1;
    assert !Enabled(s, Resume(i));
  }

  /** The state of a latch whose tasks have all been started. */
  ghost function StateOf(latch: WhenAllLatch, tasks: seq<Task>, resumedBy: seq<nat>): State
    reads latch
  {
    State(latch.count, Starting(|tasks|), tasks, resumedBy)
  }

  /** Sets the continuation and starts the tasks in a loop, on a latch of their number. */
  method StartTasks(n: nat) returns (latch: WhenAllLatch, tasks: seq<Task>, ghost steps: seq<Step>)
    requires n + 1 < WORD
    ensures fresh(latch) && latch.count == n && |tasks| == n && forall i | 0 <= i < n :: tasks[i] == Running
    ensures Run(Initial(n), steps, StateOf(latch, tasks, []))
  {
    latch := new WhenAllLatch(n);
    latch.SetContinuation();
    tasks := seq(n, _ => Waiting);
    ghost var s := Initial(n);
    steps := [];
    RunExtended(Initial(n), steps, s, SetContinuation);
    steps, s := steps + [SetContinuation], Apply(s, SetContinuation);
    RunExtended(Initial(n), steps, s, GiveUpShare);
    steps, s := steps + [GiveUpShare], Apply(s, GiveUpShare);
    for i := 0 to n
      invariant |tasks| == n && forall k | 0 <= k < n :: tasks[k] == if k < i then Running else Waiting
      invariant fresh(latch) && latch.count == n
      invariant s == State(latch.count, Starting(i), tasks, []) && Run(Initial(n), steps, s)
    {
      RunExtended(Initial(n), steps, s, StartNext);
      steps, s := steps + [StartNext], Apply(s, StartNext);
      tasks := tasks[i := Running];
    }
  }

  /** A task stores its outcome and notifies the latch, resuming the awaiting coroutine if told so. */
  method Complete(
      latch: WhenAllLatch, tasks: seq<Task>, resumedBy: seq<nat>, i: nat, outcome: Outcome,
      ghost n: nat, ghost steps: seq<Step>)
      returns (tasksAfter: seq<Task>, resumedAfter: seq<nat>, ghost stepsAfter: seq<Step>)
    requires i < |tasks| && tasks[i].Running? && i !in resumedBy
    requires Run(Initial(n), steps, StateOf(latch, tasks, resumedBy))
    modifies latch`count
    ensures tasksAfter == tasks[i := Notified(outcome, old(latch.count))]
    ensures latch.count == OneLess(old(latch.count))
    ensures resumedAfter == if old(latch.count) == 1 then resumedBy + [i] else resumedBy
    ensures Run(Initial(n), stepsAfter, StateOf(latch, tasksAfter, resumedAfter))
  {
    ghost var s := StateOf(latch, tasks, resumedBy);
    RunExtended(Initial(n), steps, s, Store(i, outcome));
    stepsAfter, s := steps + [Store(i, outcome)], Apply(s, Store(i, outcome));
    RunExtended(Initial(n), stepsAfter, s, Notify(i));
    stepsAfter, s := stepsAfter + [Notify(i)], Apply(s, Notify(i));
    tasksAfter, resumedAfter := tasks[i := Notified(outcome, latch.count)], resumedBy;
    assert s.tasks == tasksAfter;
    var resumes := latch.NotifyAwaitableCompleted();
    if resumes {
      RunExtended(Initial(n), stepsAfter, s, Resume(i));
      stepsAfter := stepsAfter + [Resume(i)];
      resumedAfter := resumedBy + [i];
    }
  }

  /**
    Any number of the tasks complete on one latch, in any order: that is a run of the steps above, and
    the awaiting coroutine is resumed by the last of all, and not before.
   */
  method CompleteInOrder(outcomes: seq<Outcome>, order: seq<nat>)
      returns (latch: WhenAllLatch, tasks: seq<Task>, resumedBy: seq<nat>, ghost steps: seq<Step>)
    requires 1 <= |outcomes| && |outcomes| + 1 < WORD && |order| <= |outcomes|
    requires forall k | 0 <= k < |order| :: order[k] < |outcomes|
    requires forall j, k | 0 <= j < k < |order| :: order[j] != order[k]
    ensures |tasks| == |outcomes| && forall i | 0 <= i < |tasks| ::
              if i in order then tasks[i].Notified? && tasks[i].outcome == outcomes[i] else tasks[i].Running?
    ensures resumedBy == if |order| == |outcomes| then [order[|order| - 1]] else []
    ensures Run(Initial(|outcomes|), steps, StateOf(latch, tasks, resumedBy))
  {
    var n := |outcomes|;
    latch, tasks, steps := StartTasks(n);
    resumedBy := [];
    for k := 0 to |order|
      invariant latch.count == n - k && |tasks| == n && fresh(latch)
      invariant forall i | 0 <= i < n ::
        if i in order[..k] then tasks[i].Notified? && tasks[i].outcome == outcomes[i] else tasks[i].Running?
      invariant resumedBy == if k == n then [order[k - 1]] else []
      invariant Run(Initial(n), steps, StateOf(latch, tasks, resumedBy))
    {
      var i := order[k];
      assert order[..k + 1] == order[..k] + [i];
      tasks, resumedBy, steps := Complete(latch, tasks, resumedBy, i, outcomes[i], n, steps);
    }
    assert order[..|order|] == order;
  }

  datatype Results = Results(values: seq<int>) | Terminated

  /**
    The awaiter collects every task's result; it may not throw, so a task's exception ends the
    program instead.
   */
  method AwaitResume(tasks: seq<Task>) returns (r: Results)
    requires forall i | 0 <= i < |tasks| :: tasks[i].Stored? || tasks[i].Notified?
    ensures r.Terminated? <==> exists i | 0 <= i < |tasks| :: tasks[i].outcome.Threw?
    ensures r.Results? ==> |r.values| == |tasks|
    ensures r.Results? ==> forall i | 0 <= i < |tasks| :: tasks[i].outcome == Value(r.values[i])
  {
    var values := [];
    for i := 0 to |tasks|
      invariant |values| == i && forall k | 0 <= k < i :: tasks[k].outcome == Value(values[k])
    {
      if tasks[i].outcome.Threw? {
        return Terminated;
      }
      values := values + [tasks[i].outcome.value];
    }
    r := Results(values);
  }
}

/** The when_any latch under every interleaving of its tasks. */
module WhenAny {
  import opened Tasks
  import opened Wrappers

  class WhenAnyLatch {
    var finishedCount: nat
    var continuation: bool

    constructor ()
      ensures finishedCount == 0 && !continuation
    {
      finishedCount, continuation := 0, false;
    }

    method SetContinuation()
      modifies this`continuation
      ensures continuation
    {
      continuation := true;
    }

    /** One task has completed; the result tells whether this resumes the awaiting coroutine. */
    method NotifyAwaitableCompleted() returns (resumes: bool)
      modifies this`finishedCount
      ensures finishedCount == OneMore(old(finishedCount)) && (resumes <==> old(finishedCount) == 0)
    {
      var found := finishedCount;
      finishedCount := OneMore(finishedCount);
      resumes := found == 0;
    }
  }

  /** An atomic increment of the 32-bit count. */
  function OneMore(count: nat): nat {
    (count + 1) % WORD
  }

  datatype Awaiter = Entered | Starting(started: nat)

  datatype State = State(finishedCount: nat, awaiter: Awaiter, tasks: seq<Task>, resumedBy: seq<nat>)

  datatype Step =
    | SetContinuation | StartNext
    | Store(task: nat, outcome: Outcome) | Notify(task: nat) | Resume(task: nat)

  function Initial(n: nat): State {
    State(0, Entered, seq(n, _ => Waiting), [])
  }

  predicate Enabled(s: State, step: Step) {
    match step
    case SetContinuation => s.awaiter.Entered?
    case StartNext => s.awaiter.Starting? && s.awaiter.started < |s.tasks|
    case Store(i, _) => i < |s.tasks| && s.tasks[i].Running?
    case Notify(i) => i < |s.tasks| && s.tasks[i].Stored?
    case Resume(i) => i < |s.tasks| && s.tasks[i].Notified? && s.tasks[i].found == 0 && i !in s.resumedBy
  }

  function Apply(s: State, step: Step): State
    requires Enabled(s, step)
  {
    match step
    case SetContinuation => s.(awaiter := Starting(0))
    case StartNext =>
      s.(awaiter := Starting(s.awaiter.started + 1), tasks := s.tasks[s.awaiter.started := Running])
    case Store(i, outcome) => s.(tasks := s.tasks[i := Stored(outcome)])
    case Notify(i) =>
      s.(tasks := s.tasks[i := Notified(s.tasks[i].outcome, s.finishedCount)],
         finishedCount := OneMore(s.finishedCount))
    case Resume(i) => s.(resumedBy := s.resumedBy + [i])
  }

  ghost predicate Run(s: State, steps: seq<Step>, after: State)
    decreases |steps|
  {
    if steps == [] then after == s
    else Enabled(s, steps[0]) && Run(Apply(s, steps[0]), steps[1..], after)
  }

  ghost predicate Kept(n: nat, s: State) {
    && |s.tasks| == n
    && s.finishedCount == CountNotified(s.tasks)
    && (forall i | 0 <= i < n :: s.tasks[i].Waiting? <==> !(s.awaiter.Starting? && i < s.awaiter.started))
    && (forall i | 0 <= i < n && s.tasks[i].Notified? :: s.tasks[i].found < s.finishedCount)
    && (forall i, j | 0 <= i < j < n && s.tasks[i].Notified? && s.tasks[j].Notified? ::
         s.tasks[i].found != s.tasks[j].found)
    && (s.finishedCount > 0 ==> SomeFound(s.tasks, 0))
    && |s.resumedBy| <= 1
    && (s.resumedBy != [] ==>
         s.resumedBy[0] < n && s.tasks[s.resumedBy[0]].Notified? && s.tasks[s.resumedBy[0]].found == 0)
  }

  lemma {:induction false} StepKeeps(n: nat, s: State, step: Step)
    requires n < WORD && Kept(n, s) && Enabled(s, step)
    ensures Kept(n, Apply(s, step))
  {
    match step
    case StartNext => StartKeeps(n, s);
    case Store(i, outcome) => UnnotifiedUpdate(s.tasks, i, Stored(outcome), 0);
    case Notify(i) => NotifyKeeps(n, s, i);
    case _ =>
  }

  lemma {:induction false} StartKeeps(n: nat, s: State)
    requires n < WORD && Kept(n, s) && Enabled(s, StartNext)
    ensures Kept(n, Apply(s, StartNext))
  {
    UnnotifiedUpdate(s.tasks, s.awaiter.started, Running, 0);
  }

  lemma {:induction false} NotifyKeeps(n: nat, s: State, i: nat)
    requires n < WORD && Kept(n, s) && Enabled(s, Notify(i))
    ensures Kept(n, Apply(s, Notify(i)))
  {
    var after := Apply(s, Notify(i));
    CountAfterUpdate(s.tasks, i, Notified(s.tasks[i].outcome, s.finishedCount));
    assert after.finishedCount == s.finishedCount + 1;
    if s.finishedCount == 0 {
      assert after.tasks[i].found == 0;
    } else {
      var first :| 0 <= first < n && s.tasks[first].Notified? && s.tasks[first].found == 0;
      assert after.tasks[first] == s.tasks[first];
    }
  }

  lemma {:induction false} RunsKeepTheCount(n: nat, s: State, steps: seq<Step>, after: State)
    requires n < WORD && Kept(n, s) && Run(s, steps, after)
    ensures Kept(n, after)
    decreases |steps|
  {
    if steps != [] {
      StepKeeps(n, s, steps[0]);
      RunsKeepTheCount(n, Apply(s, steps[0]), steps[1..], after);
    }
  }

  lemma {:induction false} RunExtended(s: State, steps: seq<Step>, mid: State, step: Step)
    requires Run(s, steps, mid) && Enabled(mid, step)
    ensures Run(s, steps + [step], Apply(mid, step))
    decreases |steps|
  {
    if steps == [] {
      assert Run(Apply(s, step), [], Apply(mid, step)) && (steps + [step])[1..] == [];
    } else {
      assert (steps + [step])[1..] == steps[1..] + [step];
      RunExtended(Apply(s, steps[0]), steps[1..], mid, step);
    }
  }

  lemma {:induction false} StartsKept(n: nat)
    ensures Kept(n, Initial(n))
  {
    NoneIsNotified(Initial(n).tasks);
  }

  /**
    Whenever a task is about to resume the awaiting coroutine, the continuation is set, nobody has
    resumed it before, and that one counted itself off before every other.
   */
  lemma {:induction false} ResumedByTheFirstOnly(n: nat, steps: seq<Step>, s: State, i: nat)
    requires n < WORD && Run(Initial(n), steps, s) && Enabled(s, Resume(i))
    ensures s.awaiter.Starting? && s.resumedBy == []
    ensures forall j | 0 <= j < n && j < |s.tasks| && s.tasks[j].Notified? && j != i ::
            s.tasks[j].found > s.tasks[i].found
  {
    StartsKept(n);
    RunsKeepTheCount(n, Initial(n), steps, s);
    assert !s.tasks[i].Waiting?;
  }

  /** As soon as some task has counted itself off and no resumption is due, exactly one has happened. */
  lemma {:induction false} ResumedExactlyOnce(n: nat, steps: seq<Step>, s: State, k: nat)
    requires n < WORD && Run(Initial(n), steps, s)
    requires k < |s.tasks| && s.tasks[k].Notified?
    requires forall i | 0 <= i < |s.tasks| :: !Enabled(s, Resume(i))
    ensures |s.resumedBy| == 1
  {
    StartsKept(n);
    RunsKeepTheCount(n, Initial(n), steps, s);
    var i :| 0 <= i < n && s.tasks[i].Notified? && s.tasks[i].found == 0;
    assert !Enabled(s, Resume(i));
  }

  /** The state of a latch whose tasks have all been started. */
  ghost function StateOf(latch: WhenAnyLatch, tasks: seq<Task>, resumedBy: seq<nat>): State
    reads latch
  {
    State(latch.finishedCount, Starting(|tasks|), tasks, resumedBy)
  }

  /** Sets the continuation and starts the tasks in a loop, on a new latch. */
  method StartTasks(n: nat) returns (latch: WhenAnyLatch, tasks: seq<Task>, ghost steps: seq<Step>)
    ensures fresh(latch) && latch.finishedCount == 0 && |tasks| == n && forall i | 0 <= i < n :: tasks[i] == Running
    ensures Run(Initial(n), steps, StateOf(latch, tasks, []))
  {
    latch := new WhenAnyLatch();
    latch.SetContinuation();
    tasks := seq(n, _ => Waiting);
    ghost var s := Initial(n);
    steps := [];
    RunExtended(Initial(n), steps, s, SetContinuation);
    steps, s := steps + [SetContinuation], Apply(s, SetContinuation);
    for i := 0 to n
      invariant |tasks| == n && forall k | 0 <= k < n :: tasks[k] == if k < i then Running else Waiting
      invariant fresh(latch) && latch.finishedCount == 0
      invariant s == State(latch.finishedCount, Starting(i), tasks, []) && Run(Initial(n), steps, s)
    {
      RunExtended(Initial(n), steps, s, StartNext);
      steps, s := steps + [StartNext], Apply(s, StartNext);
      tasks := tasks[i := Running];
    }
  }

  /** A task stores its outcome and notifies the latch, resuming the awaiting coroutine if told so. */
  method Complete(
      latch: WhenAnyLatch, tasks: seq<Task>, resumedBy: seq<nat>, i: nat, outcome: Outcome,
      ghost n: nat, ghost steps: seq<Step>)
      returns (tasksAfter: seq<Task>, resumedAfter: seq<nat>, ghost stepsAfter: seq<Step>)
    requires i < |tasks| && tasks[i].Running? && i !in resumedBy
    requires Run(Initial(n), steps, StateOf(latch, tasks, resumedBy))
    modifies latch`finishedCount
    ensures tasksAfter == tasks[i := Notified(outcome, old(latch.finishedCount))]
    ensures latch.finishedCount == OneMore(old(latch.finishedCount))
    ensures resumedAfter == if old(latch.finishedCount) == 0 then resumedBy + [i] else resumedBy
    ensures Run(Initial(n), stepsAfter, StateOf(latch, tasksAfter, resumedAfter))
  {
    ghost var s := StateOf(latch, tasks, resumedBy);
    RunExtended(Initial(n), steps, s, Store(i, outcome));
    stepsAfter, s := steps + [Store(i, outcome)], Apply(s, Store(i, outcome));
    RunExtended(Initial(n), stepsAfter, s, Notify(i));
    stepsAfter, s := stepsAfter + [Notify(i)], Apply(s, Notify(i));
    tasksAfter, resumedAfter := tasks[i := Notified(outcome, latch.finishedCount)], resumedBy;
    assert s.tasks == tasksAfter;
    var resumes := latch.NotifyAwaitableCompleted();
    if resumes {
      RunExtended(Initial(n), stepsAfter, s, Resume(i));
      stepsAfter := stepsAfter + [Resume(i)];
      resumedAfter := resumedBy + [i];
    }
  }

  /**
    Any number of the tasks complete on one latch, in any order: that is a run of the steps above, and
    the awaiting coroutine is resumed by the first of them alone.
   */
  method CompleteInOrder(outcomes: seq<Outcome>, order: seq<nat>)
      returns (latch: WhenAnyLatch, tasks: seq<Task>, resumedBy: seq<nat>, ghost steps: seq<Step>)
    requires |outcomes| < WORD && |order| <= |outcomes|
    requires forall k | 0 <= k < |order| :: order[k] < |outcomes|
    requires forall j, k | 0 <= j < k < |order| :: order[j] != order[k]
    ensures |tasks| == |outcomes| && forall i | 0 <= i < |tasks| ::
              if i in order then tasks[i].Notified? && tasks[i].outcome == outcomes[i] else tasks[i].Running?
    ensures resumedBy == if order == [] then [] else [order[0]]
    ensures Run(Initial(|outcomes|), steps, StateOf(latch, tasks, resumedBy))
  {
    var n := |outcomes|;
    latch, tasks, steps := StartTasks(n);
    resumedBy := [];
    for k := 0 to |order|
      invariant latch.finishedCount == k && |tasks| == n && fresh(latch)
      invariant forall i | 0 <= i < n ::
        if i in order[..k] then tasks[i].Notified? && tasks[i].outcome == outcomes[i] else tasks[i].Running?
      invariant resumedBy == if k == 0 then [] else [order[0]]
      invariant Run(Initial(n), steps, StateOf(latch, tasks, resumedBy))
    {
      var i := order[k];
      assert order[..k + 1] == order[..k] + [i];
      tasks, resumedBy, steps := Complete(latch, tasks, resumedBy, i, outcomes[i], n, steps);
    }
    assert order[..|order|] == order;
  }

  // ---------- what the awaiter delivers ----------

  /**
    The awaiter's loop over its tasks in tuple order, given what it finds at each: the outcome of a
    task that is done, or nothing. An exception leaves the loop; a later value replaces an earlier one.
   */
  function Delivered(seen: seq<Option<Outcome>>, result: Outcome): Outcome {
    if seen == [] then result
    else if seen[0].None? then Delivered(seen[1..], result)
    else if seen[0].value.Threw? then seen[0].value
    else Delivered(seen[1..], seen[0].value)
  }

  method AwaitResume(seen: seq<Option<Outcome>>, unset: Outcome) returns (r: Outcome)
    ensures r == Delivered(seen, unset)
  {
    r := unset;
    for i := 0 to |seen|
      invariant Delivered(seen[i..], r) == Delivered(seen, unset)
    {
      assert seen[i..][0] == seen[i] && seen[i..][1..] == seen[i + 1..];
      if seen[i].Some? {
        r := seen[i].value;
        if r.Threw? {
          return;
        }
      }
    }
  }

  ghost predicate FirstThrown(seen: seq<Option<Outcome>>, k: nat) {
    && k < |seen| && seen[k].Some? && seen[k].value.Threw?
    && forall j | 0 <= j < k :: seen[j].None? || seen[j].value.Value?
  }

  ghost predicate LastDone(seen: seq<Option<Outcome>>, k: nat) {
    k < |seen| && seen[k].Some? && forall j | k < j < |seen| :: seen[j].None?
  }

  lemma {:induction false} FirstExceptionIsDelivered(seen: seq<Option<Outcome>>, result: Outcome, k: nat)
    requires FirstThrown(seen, k)
    ensures Delivered(seen, result) == seen[k].value
  {
    if k > 0 {
      FirstExceptionIsDelivered(seen[1..], if seen[0].None? then result else seen[0].value, k - 1);
    }
  }

  lemma {:induction false} LastValueIsDelivered(seen: seq<Option<Outcome>>, result: Outcome, k: nat)
    requires LastDone(seen, k) && forall j | 0 <= j < k :: seen[j].None? || seen[j].value.Value?
    ensures Delivered(seen, result) == seen[k].value
  {
    if k > 0 {
      LastValueIsDelivered(seen[1..], if seen[0].None? then result else seen[0].value, k - 1);
    } else if seen[0].value.Value? {
      NothingMoreIsDelivered(seen[1..], seen[0].value);
    }
  }

  lemma {:induction false} NothingMoreIsDelivered(seen: seq<Option<Outcome>>, result: Outcome)
    requires forall j | 0 <= j < |seen| :: seen[j].None?
    ensures Delivered(seen, result) == result
  {
    if seen != [] {
      NothingMoreIsDelivered(seen[1..], result);
    }
  }

  /**
    The outcome of the last done task is what the awaiter delivers, unless an earlier done task threw
    something else first.
   */
  lemma {:induction false} LastIsDeliveredIff(seen: seq<Option<Outcome>>, unset: Outcome, k: nat)
    requires LastDone(seen, k)
    ensures Delivered(seen, unset) == seen[k].value
            <==> forall j: nat | j < k && FirstThrown(seen, j) :: seen[j].value == seen[k].value
  {
    if forall j | 0 <= j < k :: seen[j].None? || seen[j].value.Value? {
      LastValueIsDelivered(seen, unset, k);
    } else {
      var j := FindFirstThrown(seen);
      FirstExceptionIsDelivered(seen, unset, j);
      forall i: nat | i < k && FirstThrown(seen, i) ensures i == j {
        assert !(i < j) && !(j < i);
      }
    }
  }

  /** The first task threw, the second delivered a value: the awaiter throws. */
  lemma {:induction false} EarlierExceptionWins(unset: Outcome)
    ensures var seen := [Some(Threw(1)), Some(Value(2))]; LastDone(seen, 1) && Delivered(seen, unset) == Threw(1)
  {
  }

  lemma {:induction false} FindFirstThrown(seen: seq<Option<Outcome>>) returns (k: nat)
    requires exists j | 0 <= j < |seen| :: seen[j].Some? && seen[j].value.Threw?
    ensures FirstThrown(seen, k)
  {
    if seen[0].Some? && seen[0].value.Threw? {
      k := 0;
    } else {
      var j :| 0 <= j < |seen| && seen[j].Some? && seen[j].value.Threw?;
      assert seen[1..][j - 1] == seen[j];
      var rest := FindFirstThrown(seen[1..]);
      k := rest + 1;
    }
  }

  /** The awaiter finds at every task nothing or the outcome it stored, and the resuming task done. */
  ghost predicate SeenBy(s: State, i: nat, seen: seq<Option<Outcome>>) {
    && |seen| == |s.tasks| && i < |seen| && seen[i].Some?
    && forall j | 0 <= j < |seen| && seen[j].Some? ::
         (s.tasks[j].Stored? || s.tasks[j].Notified?) && seen[j].value == s.tasks[j].outcome
  }

  /** The resumed awaiter always delivers an outcome some task stored; a sole finisher delivers its own. */
  lemma {:induction false} ResumedAwaiterDelivers(
      n: nat, steps: seq<Step>, s: State, i: nat, seen: seq<Option<Outcome>>, unset: Outcome)
    requires n < WORD && Run(Initial(n), steps, s) && Enabled(s, Resume(i)) && SeenBy(s, i, seen)
    ensures exists k | 0 <= k < |seen| :: seen[k] == Some(Delivered(seen, unset))
    ensures (forall j | 0 <= j < |seen| && j != i :: !s.tasks[j].Stored? && !s.tasks[j].Notified?)
            ==> Delivered(seen, unset) == s.tasks[i].outcome
  {
    var last := FindLastDone(seen, i);
    if forall j | 0 <= j < last :: seen[j].None? || seen[j].value.Value? {
      LastValueIsDelivered(seen, unset, last);
    } else {
      var k := FindFirstThrown(seen);
      FirstExceptionIsDelivered(seen, unset, k);
    }
  }

  lemma {:induction false} FindLastDone(seen: seq<Option<Outcome>>, i: nat) returns (k: nat)
    requires i < |seen| && seen[i].Some?
    ensures LastDone(seen, k)
    decreases |seen| - i
  {
    if j :| i < j < |seen| && seen[j].Some? {
      k := FindLastDone(seen, j);
    } else {
      k := i;
    }
  }
}
