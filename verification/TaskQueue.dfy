/** The bounded task queue of the daemon and its retrying worker (native/folder_manager_daemon.cpp, lines 179-233 and 1570-1608).

  The queue is a class as in the daemon. Runs of the whole system are modelled as sequences of steps over entries:
  a task together with the number it arrived under and the number of times it has been popped.
*/
module TaskQueue {
  import opened Options

  const QUEUE_LIMIT: nat := 256
  const MAX_RETRY_COUNT: nat := 3

  datatype TaskAction = Move | Remove

  datatype MoveTask = MoveTask(
    action: TaskAction,
    sourcePath: string,
    targetPath: string,
    packageName: string,
    writerPid: int,
    retryCount: nat
  )

  // ---------------------------------------------------------------------------
  // The queue

  /** Which queued task makes room for a new one: the first with the same source, otherwise the oldest. */
  function VictimIndex(queue: seq<MoveTask>, source: string): (i: nat)
    ensures queue != [] ==> i < |queue|
    ensures (exists k :: 0 <= k < |queue| && queue[k].sourcePath == source) ==>
              i < |queue| && queue[i].sourcePath == source && forall k :: 0 <= k < i ==> queue[k].sourcePath != source
    ensures !(exists k :: 0 <= k < |queue| && queue[k].sourcePath == source) ==> i == 0
  {
    if exists k :: 0 <= k < |queue| && queue[k].sourcePath == source then FirstWithSource(queue, source) else 0
  }

  function FirstWithSource(queue: seq<MoveTask>, source: string): (i: nat)
    requires exists k :: 0 <= k < |queue| && queue[k].sourcePath == source
    ensures i < |queue| && queue[i].sourcePath == source
    ensures forall k :: 0 <= k < i ==> queue[k].sourcePath != source
  {
    if queue[0].sourcePath == source then 0
    else
      assert forall k :: 0 < k < |queue| ==> queue[k] == queue[1..][k - 1];
      1 + FirstWithSource(queue[1..], source)
  }

  lemma VictimIs(queue: seq<MoveTask>, source: string, it: nat)
    requires queue != [] && it <= |queue|
    requires forall k :: 0 <= k < it ==> queue[k].sourcePath != source
    requires it < |queue| ==> queue[it].sourcePath == source
    ensures VictimIndex(queue, source) == if it < |queue| then it else 0
  {
  }

  function Without<T>(queue: seq<T>, i: nat): seq<T>
    requires i < |queue|
  {
    queue[..i] + queue[i + 1..]
  }

  function Pushed(queue: seq<MoveTask>, task: MoveTask): seq<MoveTask> {
    (if |queue| >= QUEUE_LIMIT then Without(queue, VictimIndex(queue, task.sourcePath)) else queue) + [task]
  }

  class TaskQueue {
    var queue: seq<MoveTask>
    var running: bool

    ghost predicate Valid()
      reads this
    {
      |queue| <= QUEUE_LIMIT
    }

    constructor ()
      ensures Valid() && queue == [] && running
    {
      queue, running := [], true;
    }

    method Push(task: MoveTask)
      requires Valid()
      modifies this`queue
      ensures Valid() && queue == Pushed(old(queue), task)
    {
      hide VictimIndex;
      if |queue| >= QUEUE_LIMIT {
        var it := 0;
        while it < |queue| && queue[it].sourcePath != task.sourcePath
          invariant 0 <= it <= |queue|
          invariant forall k :: 0 <= k < it ==> queue[k].sourcePath != task.sourcePath
        {
          it := it + 1;
        }
        VictimIs(queue, task.sourcePath, it);
        if it < |queue| {
          queue := queue[..it] + queue[it + 1..];
        } else {
          queue := queue[1..];
        }
      }
      queue := queue + [task];
    }

    /** Called when the wait is over: there is a task, or the queue has been stopped. */
    method Pop() returns (task: Option<MoveTask>)
      requires Valid() && (queue != [] || !running)
      modifies this`queue
      ensures Valid()
      ensures task == if running then Some(old(queue)[0]) else None
      ensures queue == if running then old(queue)[1..] else old(queue)
    {
      if !running || queue == [] {
        return None;
      }
      task := Some(queue[0]);
      queue := queue[1..];
    }

    method Stop()
      modifies this`running
      ensures !running
    {
      running := false;
    }
  }

  /** What becomes of a popped task once the daemon knows whether its writer still has the file open. */
  datatype Answer = Finished | Retried(task: MoveTask) | GivenUp

  function AnswerFor(task: MoveTask, open: bool): Answer {
    if !open then Finished
    else if task.retryCount < MAX_RETRY_COUNT then Retried(task.(retryCount := task.retryCount + 1))
    else GivenUp
  }

  /** The part of the worker loop after a successful pop. */
  method HandleTask(tasks: TaskQueue, task: MoveTask, open: bool) returns (answer: Answer)
    requires tasks.Valid()
    modifies tasks`queue
    ensures tasks.Valid()
    ensures answer == AnswerFor(task, open)
    ensures !open <==> answer == Finished
    ensures open && task.retryCount < 3 ==> answer == Retried(task.(retryCount := task.retryCount + 1))
    ensures open && task.retryCount >= 3 ==> answer == GivenUp
    ensures tasks.queue == if answer.Retried? then Pushed(old(tasks.queue), answer.task) else old(tasks.queue)
  {
    if open {
      if task.retryCount < MAX_RETRY_COUNT {
        var again := task.(retryCount := task.retryCount + 1);
        tasks.Push(again);
        return Retried(again);
      }
      return GivenUp;
    }
    return Finished;
  }

  // ---------------------------------------------------------------------------
  // Runs

  datatype Entry = Entry(id: nat, task: MoveTask, pops: nat)

  function Tasks(entries: seq<Entry>): (tasks: seq<MoveTask>)
    ensures |tasks| == |entries| && forall i :: 0 <= i < |entries| ==> tasks[i] == entries[i].task
  {
    seq(|entries|, i requires 0 <= i < |entries| => entries[i].task)
  }

  datatype World = World(
    arrivals: nat,
    queue: seq<Entry>,
    inHand: Option<Entry>,
    finished: seq<Entry>,
    givenUp: seq<Entry>,
    evicted: seq<Entry>
  )

  /** Puts an entry at the back, as the queue does, and keeps what had to go. */
  function PushEntry(w: World, e: Entry): World {
    if |w.queue| >= QUEUE_LIMIT then
      var victim := VictimIndex(Tasks(w.queue), e.task.sourcePath);
      w.(queue := Without(w.queue, victim) + [e], evicted := w.evicted + [w.queue[victim]])
    else
      w.(queue := w.queue + [e])
  }

  datatype Step = Arrive(task: MoveTask) | Take | Decide(open: bool)

  /** A new event, a pop by the worker, or the decision of the worker about the task it holds. */
  ghost predicate Next(w: World, step: Step, after: World) {
    match step
    case Arrive(task) =>
      task.retryCount == 0 && after == PushEntry(w, Entry(w.arrivals, task, 0)).(arrivals := w.arrivals + 1)
    case Take =>
      w.inHand.None? && w.queue != [] &&
      after == w.(queue := w.queue[1..], inHand := Some(w.queue[0].(pops := w.queue[0].pops + 1)))
    case Decide(open) =>
      w.inHand.Some? &&
      var e := w.inHand.value;
      after == match AnswerFor(e.task, open)
            case Finished => w.(inHand := None, finished := w.finished + [e])
            case Retried(task) => PushEntry(w.(inHand := None), e.(task := task))
            case GivenUp => w.(inHand := None, givenUp := w.givenUp + [e])
  }

  const START := World(0, [], None, [], [], [])

  ghost predicate IsRun(states: seq<World>, steps: seq<Step>) {
    && |states| == |steps| + 1 && states[0] == START
    && forall i :: 0 <= i < |steps| ==> Next(states[i], steps[i], states[i + 1])
  }

  /** How often a task number occurs among the entries. */
  function Times(entries: seq<Entry>, id: nat): nat {
    if entries == [] then 0
    else Times(entries[..|entries| - 1], id) + (if entries[|entries| - 1].id == id then 1 else 0)
  }

  function InHand(w: World): seq<Entry> {
    if w.inHand.Some? then [w.inHand.value] else []
  }

  function Places(w: World, id: nat): nat {
    Times(w.queue, id) + Times(InHand(w), id) + Times(w.finished, id) + Times(w.givenUp, id) + Times(w.evicted, id)
  }

  /** Every task that has arrived is in exactly one place, once; no other task is anywhere. */
  ghost predicate Conserved(w: World) {
    forall id: nat :: Places(w, id) == if id < w.arrivals then 1 else 0
  }

  ghost predicate Counted(w: World) {
    && (forall e :: e in w.queue ==> e.pops == e.task.retryCount <= MAX_RETRY_COUNT)
    && (forall e :: e in InHand(w) ==> e.pops == e.task.retryCount + 1 <= MAX_RETRY_COUNT + 1)
    && (forall e :: e in w.finished ==> 1 <= e.pops <= MAX_RETRY_COUNT + 1)
    && (forall e :: e in w.givenUp ==> e.pops == MAX_RETRY_COUNT + 1)
    && (forall e :: e in w.evicted ==> e.pops <= MAX_RETRY_COUNT)
  }

  ghost predicate Inv(w: World) {
    |w.queue| <= QUEUE_LIMIT && Counted(w) && Conserved(w)
  }

  lemma {:induction false} TimesAppend(left: seq<Entry>, right: seq<Entry>, id: nat)
    ensures Times(left + right, id) == Times(left, id) + Times(right, id)
  {
    if right == [] {
      assert left + right == left;
    } else {
      var n := |right| - 1;
      TimesAppend(left, right[..n], id);
      assert (left + right)[..|left + right| - 1] == left + right[..n];
    }
  }

  lemma TimesWithout(entries: seq<Entry>, i: nat, id: nat)
    requires i < |entries|
    ensures Times(entries, id) == Times(Without(entries, i), id) + (if entries[i].id == id then 1 else 0)
  {
    assert entries == (entries[..i] + [entries[i]]) + entries[i + 1..];
    TimesAppend(entries[..i] + [entries[i]], entries[i + 1..], id);
    TimesAppend(entries[..i], [entries[i]], id);
    TimesAppend(entries[..i], entries[i + 1..], id);
  }

  /** A push makes room by one task at most, and only in a full queue: an older task for the same file if there is one,
    otherwise the oldest task. */
  lemma PushEvictsOneWhenFull(w: World, e: Entry)
    requires |w.queue| <= QUEUE_LIMIT
    ensures var after := PushEntry(w, e);
      && |after.queue| <= QUEUE_LIMIT
      && Tasks(after.queue) == Pushed(Tasks(w.queue), e.task)
      && (|w.queue| < QUEUE_LIMIT ==> after.evicted == w.evicted && after.queue == w.queue + [e])
    ensures |w.queue| == QUEUE_LIMIT ==>
      var i := VictimIndex(Tasks(w.queue), e.task.sourcePath);
      && PushEntry(w, e).evicted == w.evicted + [w.queue[i]]
      && PushEntry(w, e).queue == Without(w.queue, i) + [e]
      && (if exists k :: 0 <= k < |w.queue| && w.queue[k].task.sourcePath == e.task.sourcePath
          then w.queue[i].task.sourcePath == e.task.sourcePath
               && forall k :: 0 <= k < i ==> w.queue[k].task.sourcePath != e.task.sourcePath
          else i == 0)
  {
    if |w.queue| == QUEUE_LIMIT {
      var tasks := Tasks(w.queue);
      assert forall k :: 0 <= k < |w.queue| ==> tasks[k].sourcePath == w.queue[k].task.sourcePath;
      var i := VictimIndex(tasks, e.task.sourcePath);
      assert Tasks(Without(w.queue, i) + [e]) == Without(tasks, i) + [e.task];
    }
  }

  lemma PushConserves(w: World, e: Entry, id: nat)
    requires |w.queue| <= QUEUE_LIMIT
    ensures var after := PushEntry(w, e);
      Times(after.queue, id) + Times(after.evicted, id) ==
      Times(w.queue, id) + Times(w.evicted, id) + (if e.id == id then 1 else 0)
  {
    if |w.queue| < QUEUE_LIMIT {
      TimesAppend(w.queue, [e], id);
    } else {
      var i := VictimIndex(Tasks(w.queue), e.task.sourcePath);
      TimesWithout(w.queue, i, id);
      TimesAppend(Without(w.queue, i), [e], id);
      TimesAppend(w.evicted, [w.queue[i]], id);
    }
  }

  lemma PushKeepsCounted(w: World, e: Entry)
    requires Counted(w) && e.pops == e.task.retryCount <= MAX_RETRY_COUNT
    ensures Counted(PushEntry(w, e))
  {
    hide PushEntry;
    PushMoves(w, e);
  }

  /** A push brings in nothing but the new entry, and puts out nothing but an old one. */
  lemma PushMoves(w: World, e: Entry)
    ensures var after := PushEntry(w, e);
      && (forall x :: x in after.queue ==> x in w.queue || x == e)
      && (forall x :: x in after.evicted ==> x in w.evicted || x in w.queue)
      && after.inHand == w.inHand && after.finished == w.finished && after.givenUp == w.givenUp
  {
  }

  lemma ArriveKeepsInv(w: World, task: MoveTask, after: World)
    requires Inv(w) && Next(w, Arrive(task), after)
    ensures Inv(after)
  {
    hide PushEntry;
    var e := Entry(w.arrivals, task, 0);
    PushKeepsCounted(w, e);
    PushStaysBounded(w, e);
    forall id: nat ensures Places(after, id) == if id < after.arrivals then 1 else 0 {
      PushConserves(w, e, id);
      assert Places(w, id) == if id < w.arrivals then 1 else 0;
    }
  }

  lemma PushStaysBounded(w: World, e: Entry)
    requires |w.queue| <= QUEUE_LIMIT
    ensures var after := PushEntry(w, e);
      && |after.queue| <= QUEUE_LIMIT
      && after.inHand == w.inHand && after.finished == w.finished && after.givenUp == w.givenUp && after.arrivals == w.arrivals
  {
  }

  lemma TakeConserves(w: World, after: World, id: nat)
    requires Next(w, Take, after)
    ensures Places(after, id) == Places(w, id)
  {
    var first := w.queue[0];
    TimesWithout(w.queue, 0, id);
    assert Without(w.queue, 0) == after.queue;
    assert InHand(after) == [first.(pops := first.pops + 1)];
  }

  lemma EndingConserves(w: World, open: bool, after: World, id: nat)
    requires Next(w, Decide(open), after)
    requires !AnswerFor(w.inHand.value.task, open).Retried?
    ensures Places(after, id) == Places(w, id)
  {
    var e := w.inHand.value;
    TimesAppend(w.finished, [e], id);
    TimesAppend(w.givenUp, [e], id);
    assert InHand(w) == [e] && InHand(after) == [];
  }

  lemma EndingKeepsCounted(w: World, open: bool, after: World)
    requires Counted(w) && Next(w, Decide(open), after)
    requires !AnswerFor(w.inHand.value.task, open).Retried?
    ensures Counted(after)
  {
    assert w.inHand.value in InHand(w);
  }

  lemma RetryConserves(w: World, after: World, id: nat)
    requires |w.queue| <= QUEUE_LIMIT && Next(w, Decide(true), after)
    requires w.inHand.value.task.retryCount < MAX_RETRY_COUNT
    ensures Places(after, id) == Places(w, id)
  {
    var e := w.inHand.value;
    var again := e.(task := AnswerFor(e.task, true).task);
    PushConserves(w.(inHand := None), again, id);
    PushStaysBounded(w.(inHand := None), again);
    assert InHand(w) == [e] && InHand(after) == [];
  }

  lemma RetryKeepsCounted(w: World, after: World)
    requires Counted(w) && |w.queue| <= QUEUE_LIMIT && Next(w, Decide(true), after)
    requires w.inHand.value.task.retryCount < MAX_RETRY_COUNT
    ensures Counted(after) && |after.queue| <= QUEUE_LIMIT
  {
    var e := w.inHand.value;
    assert e in InHand(w);
    var again := e.(task := AnswerFor(e.task, true).task);
    PushKeepsCounted(w.(inHand := None), again);
    PushStaysBounded(w.(inHand := None), again);
  }

  lemma TakeKeepsInv(w: World, after: World)
    requires Inv(w) && Next(w, Take, after)
    ensures Inv(after)
  {
    forall id: nat ensures Places(after, id) == Places(w, id) {
      TakeConserves(w, after, id);
    }
  }

  lemma DecideKeepsInv(w: World, open: bool, after: World)
    requires Inv(w) && Next(w, Decide(open), after)
    ensures Inv(after)
  {
    var retried := AnswerFor(w.inHand.value.task, open).Retried?;
    if retried {
      RetryKeepsCounted(w, after);
    } else {
      EndingKeepsCounted(w, open, after);
    }
    forall id: nat ensures Places(after, id) == Places(w, id) {
      if retried {
        RetryConserves(w, after, id);
      } else {
        EndingConserves(w, open, after, id);
      }
    }
  }

  lemma StepKeepsInv(w: World, step: Step, after: World)
    requires Inv(w) && Next(w, step, after)
    ensures Inv(after)
  {
    match step
    case Arrive(task) => ArriveKeepsInv(w, task, after);
    case Take => TakeKeepsInv(w, after);
    case Decide(open) => DecideKeepsInv(w, open, after);
  }

  /** On every run the queue stays bounded, every task is in exactly one place, and none is popped more than four times. */
  lemma {:induction false} RunKeepsInv(states: seq<World>, steps: seq<Step>, i: nat)
    requires IsRun(states, steps) && i < |states|
    ensures Inv(states[i])
  {
    if i > 0 {
      RunKeepsInv(states, steps, i - 1);
      StepKeepsInv(states[i - 1], steps[i - 1], states[i]);
    }
  }

  /** In numbers: there are never more than 256 tasks queued, only a full queue evicts, and a task is given up after its
    fourth pop, if its file was still open then, and at no other time. */
  lemma RunInNumbers(states: seq<World>, steps: seq<Step>, i: nat)
    requires IsRun(states, steps) && i < |states|
    ensures |states[i].queue| <= 256
    ensures forall e :: e in states[i].finished ==> 1 <= e.pops <= 4
    ensures forall e :: e in states[i].givenUp ==> e.pops == 4
    ensures i < |steps| && |states[i + 1].evicted| > |states[i].evicted| ==> |states[i].queue| == 256
    ensures i < |steps| && |states[i + 1].givenUp| > |states[i].givenUp| ==>
      steps[i] == Decide(true) && states[i].inHand.Some? && states[i].inHand.value.pops == 4
    ensures i < |steps| && steps[i] == Decide(true) && states[i].inHand.Some? && states[i].inHand.value.pops == 4 ==>
      states[i + 1].givenUp == states[i].givenUp + [states[i].inHand.value]
    ensures i < |steps| && steps[i] == Decide(false) && states[i].inHand.Some? ==>
      states[i + 1].finished == states[i].finished + [states[i].inHand.value]
  {
    hide PushEntry;
    RunKeepsInv(states, steps, i);
    if i < |steps| {
      var w := states[i];
      assert Next(w, steps[i], states[i + 1]);
      if w.inHand.Some? {
        assert w.inHand.value in InHand(w);
        var e := w.inHand.value;
        PushedInNumbers(w.(inHand := None), e.(task := e.task.(retryCount := e.task.retryCount + 1)));
      }
      if steps[i].Arrive? {
        PushedInNumbers(w, Entry(w.arrivals, steps[i].task, 0));
      }
    }
  }

  lemma PushedInNumbers(w: World, e: Entry)
    requires |w.queue| <= 256
    ensures var after := PushEntry(w, e);
      && after.finished == w.finished && after.givenUp == w.givenUp
      && (|after.evicted| > |w.evicted| <==> |w.queue| == 256)
  {
  }

  // ---------------------------------------------------------------------------
  // Draining

  /** The work one queued entry can still cause: a pop and a decision for each attempt left. */
  function Work(e: Entry): nat {
    if e.task.retryCount > MAX_RETRY_COUNT then 0 else 2 * (MAX_RETRY_COUNT + 1 - e.task.retryCount)
  }

  function QueueWork(entries: seq<Entry>): nat {
    if entries == [] then 0 else Work(entries[0]) + QueueWork(entries[1..])
  }

  function TotalWork(w: World): int {
    QueueWork(w.queue) + (if w.inHand.Some? then Work(w.inHand.value) - 1 else 0)
  }

  lemma {:induction false} QueueWorkAppend(left: seq<Entry>, right: seq<Entry>)
    ensures QueueWork(left + right) == QueueWork(left) + QueueWork(right)
  {
    if left == [] {
      assert left + right == right;
    } else {
      assert (left + right)[1..] == left[1..] + right;
      QueueWorkAppend(left[1..], right);
    }
  }

  lemma PushWork(w: World, e: Entry)
    requires |w.queue| <= QUEUE_LIMIT
    ensures QueueWork(PushEntry(w, e).queue) <= QueueWork(w.queue) + Work(e)
  {
    assert QueueWork([e]) == Work(e) + QueueWork([e][1..]);
    if |w.queue| < QUEUE_LIMIT {
      QueueWorkAppend(w.queue, [e]);
    } else {
      var i := VictimIndex(Tasks(w.queue), e.task.sourcePath);
      QueueWorkAppend(Without(w.queue, i), [e]);
      QueueWorkAppend(w.queue[..i], w.queue[i + 1..]);
      QueueWorkAppend(w.queue[..i], w.queue[i..]);
      assert w.queue == w.queue[..i] + w.queue[i..];
      assert w.queue[i..][1..] == w.queue[i + 1..];
    }
  }

  /** Without new events each step of the worker brings it closer to an empty queue, and until then it has a step to take. */
  lemma WorkerDrains(w: World, step: Step, after: World)
    requires Inv(w) && Next(w, step, after) && !step.Arrive?
    ensures 0 <= TotalWork(after) < TotalWork(w)
  {
    match step
    case Take =>
      assert w.queue[0] in w.queue;
    case Decide(open) =>
      var e := w.inHand.value;
      assert e in InHand(w);
      match AnswerFor(e.task, open) {
        case Finished =>
        case Retried(task) => PushWork(w.(inHand := None), e.(task := task));
        case GivenUp =>
      }
  }

  lemma {:induction false} QueueWorkBound(entries: seq<Entry>)
    ensures QueueWork(entries) <= 2 * (MAX_RETRY_COUNT + 1) * |entries|
  {
    if entries != [] {
      QueueWorkBound(entries[1..]);
    }
  }

  lemma TotalWorkBound(w: World)
    requires Inv(w)
    ensures 0 <= TotalWork(w) <= 8 * (QUEUE_LIMIT + 1)
  {
    QueueWorkBound(w.queue);
    if w.inHand.Some? {
      assert w.inHand.value in InHand(w);
    }
  }

  ghost predicate Draining(states: seq<World>, steps: seq<Step>) {
    |states| == |steps| + 1 &&
    forall i :: 0 <= i < |steps| ==> Next(states[i], steps[i], states[i + 1]) && !steps[i].Arrive?
  }

  /** Counting from any state of a run, with no further events the worker takes at most eight steps for each task it
    holds or could find queued. */
  lemma {:induction false} DrainingIsBounded(states: seq<World>, steps: seq<Step>)
    requires Draining(states, steps) && Inv(states[0])
    ensures |steps| <= TotalWork(states[0]) <= 8 * (QUEUE_LIMIT + 1)
    decreases |steps|
  {
    TotalWorkBound(states[0]);
    if steps != [] {
      assert Next(states[0], steps[0], states[1]) && !steps[0].Arrive?;
      StepKeepsInv(states[0], steps[0], states[1]);
      WorkerDrains(states[0], steps[0], states[1]);
      DrainingIsBounded(states[1..], steps[1..]);
    }
  }

  /** The worker stops only when nothing is queued or in hand. */
  lemma WorkerCanContinue(w: World)
    ensures (forall step: Step, after: World :: Next(w, step, after) ==> step.Arrive?) <==> w.queue == [] && w.inHand.None?
  {
    if w.inHand.Some? {
      var e := w.inHand.value;
      assert Next(w, Decide(false), w.(inHand := None, finished := w.finished + [e]));
    } else if w.queue != [] {
      assert Next(w, Take, w.(queue := w.queue[1..], inHand := Some(w.queue[0].(pops := w.queue[0].pops + 1))));
    }
  }
}
