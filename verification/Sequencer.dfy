/** gofumpt's sequencer (gofmt.go): tasks run concurrently, and one output state is handed down
    a chain of one-slot channels so that output appears in the order of Add.

    The protocol is a state machine over its atomic steps. A task's program is the list of
    reporter calls it makes; what it computes in between is invisible here, and the only
    assumption is that it ends. The weighted semaphore is a counter; there is one adding
    goroutine, as in the program. */
module Sequencer {

  /** Reporter calls. Report is also what Add does with a non-nil error returned by the task. */
  datatype Op = Write(text: string) | Warn(text: string) | Report(text: string) | ReadExit

  datatype Outcome = Success | Failure(text: string)

  datatype Task = Task(ops: seq<Op>, outcome: Outcome, asked: int)

  /** All reporter calls of a task's goroutine before it releases the state. */
  function Calls(t: Task): seq<Op>
  {
    t.ops + if t.outcome.Failure? then [Report(t.outcome.text)] else []
  }

  /** reporterState. */
  datatype Console = Console(out: string, err: string, exitCode: int)

  const START: Console := Console("", "", 0)

  function Effect(op: Op, c: Console): Console
  {
    match op
    case Write(text) => c.(out := c.out + text)
    case Warn(text) => c.(err := c.err + text)
    case Report(text) => c.(err := c.err + text, exitCode := 2)
    case ReadExit => c
  }

  // ------------------------------------------------- the sequential meaning

  function Effects(ops: seq<Op>, c: Console): Console
  {
    if ops == [] then c else Effect(ops[|ops| - 1], Effects(ops[..|ops| - 1], c))
  }

  /** What the exit-code reads among the calls see. */
  function Reads(ops: seq<Op>, c: Console): seq<int>
  {
    if ops == [] then []
    else
      var before := ops[..|ops| - 1];
      Reads(before, c) + if ops[|ops| - 1].ReadExit? then [Effects(before, c).exitCode] else []
  }

  /** One task after the other, in the order they were added. */
  function Sequential(tasks: seq<Task>): Console
  {
    if tasks == [] then START else Effects(Calls(tasks[|tasks| - 1]), Sequential(tasks[..|tasks| - 1]))
  }

  // ------------------------------------------------------------ the states

  /** A task's goroutine: how many calls it has made, whether it has the output state, whether it
      has passed it on, whether it has given its weight back, and the exit codes it has read. */
  datatype Job = Job(task: Task, weight: nat, made: nat, holds: bool, sent: bool, released: bool, codes: seq<int>)

  /** slots[i] says whether the channel before task i has the state in it; the last channel is
      the sequencer's own prev. */
  datatype State = State(max: nat, used: nat, jobs: seq<Job>, slots: seq<bool>, console: Console)

  predicate Shaped(s: State) { |s.slots| == |s.jobs| + 1 }

  function Weight(max: nat, asked: int): nat { if asked < 0 || asked > max then max else asked }

  predicate Init(s: State, max: nat) { s == State(max, 0, [], [true], START) }

  predicate CanAdd(s: State, t: Task) { s.used + Weight(s.max, t.asked) <= s.max }

  function Add(s: State, t: Task): State
    requires CanAdd(s, t)
  {
    var w := Weight(s.max, t.asked);
    s.(used := s.used + w, jobs := s.jobs + [Job(t, w, 0, false, false, false, [])], slots := s.slots + [false])
  }

  /** Steps of task goroutines. */
  datatype Move = Take | Call | Send | Release

  predicate CanMove(s: State, i: nat, m: Move)
    requires Shaped(s)
  {
    i < |s.jobs| &&
    var j := s.jobs[i];
    match m
    case Take => !j.holds && !j.sent && s.slots[i]
    case Call => j.holds && j.made < |Calls(j.task)|
    case Send => j.holds && j.made == |Calls(j.task)| && !s.slots[i + 1]
    case Release => j.sent && !j.released && j.weight <= s.used
  }

  function DoMove(s: State, i: nat, m: Move): State
    requires Shaped(s) && CanMove(s, i, m)
  {
    var j := s.jobs[i];
    match m
    case Take => s.(jobs := s.jobs[i := j.(holds := true)], slots := s.slots[i := false])
    case Call =>
      var op := Calls(j.task)[j.made];
      var codes := if op.ReadExit? then j.codes + [s.console.exitCode] else j.codes;
      s.(jobs := s.jobs[i := j.(made := j.made + 1, codes := codes)], console := Effect(op, s.console))
    case Send => s.(jobs := s.jobs[i := j.(holds := false, sent := true)], slots := s.slots[i + 1 := true])
    case Release => s.(jobs := s.jobs[i := j.(released := true)], used := s.used - j.weight)
  }

  ghost predicate Next(s: State, s': State)
  {
    Shaped(s) &&
    ((exists t: Task :: CanAdd(s, t) && s' == Add(s, t))
     || (exists i: nat, m: Move :: CanMove(s, i, m) && s' == DoMove(s, i, m)))
  }

  /** A run from the initial state. */
  ghost predicate Run(r: seq<State>, max: nat)
  {
    |r| > 0 && Init(r[0], max) && forall i :: 0 <= i < |r| - 1 ==> Next(r[i], r[i + 1])
  }

  // --------------------------------------------------------- the invariant

  function Tasks(jobs: seq<Job>): (ts: seq<Task>)
    ensures |ts| == |jobs| && forall i :: 0 <= i < |jobs| ==> ts[i] == jobs[i].task
  {
    seq(|jobs|, i requires 0 <= i < |jobs| => jobs[i].task)
  }

  /** Weight of the tasks that have not given it back. */
  function Outstanding(jobs: seq<Job>): nat
  {
    if jobs == [] then 0
    else Outstanding(jobs[..|jobs| - 1]) + if jobs[|jobs| - 1].released then 0 else jobs[|jobs| - 1].weight
  }

  predicate Finished(j: Job)
  {
    j.sent && !j.holds && j.made == |Calls(j.task)|
  }

  predicate Untouched(j: Job)
  {
    !j.sent && !j.holds && !j.released && j.made == 0 && j.codes == []
  }

  /** Task p is at the front: everyone before it has passed the state on, nobody after it has
      seen it, and the console is what running the tasks one by one would have produced. */
  predicate Front(s: State, p: nat)
  {
    Shaped(s) && p <= |s.jobs|
    && (forall i :: 0 <= i < p ==> Finished(s.jobs[i]))
    && (forall i :: p < i < |s.jobs| ==> Untouched(s.jobs[i]))
    && (forall i :: 0 <= i < |s.slots| && i != p ==> !s.slots[i])
    && (p == |s.jobs| ==> s.slots[p] && s.console == Sequential(Tasks(s.jobs)))
    && (p < |s.jobs| ==> AtWork(s, p))
  }

  predicate AtWork(s: State, p: nat)
    requires Shaped(s) && p < |s.jobs|
  {
    var j := s.jobs[p];
    !j.sent && !j.released && j.made <= |Calls(j.task)| && (!j.holds ==> j.made == 0) && j.holds == !s.slots[p]
    && s.console == Effects(Calls(j.task)[..j.made], Sequential(Tasks(s.jobs)[..p]))
  }

  /** Every exit code read so far is the one the sequential order gives. */
  predicate CodesRight(s: State)
  {
    forall i :: 0 <= i < |s.jobs| ==> CodeRight(s.jobs[i], Sequential(Tasks(s.jobs)[..i]))
  }

  predicate CodeRight(j: Job, before: Console)
  {
    j.made <= |Calls(j.task)| && j.codes == Reads(Calls(j.task)[..j.made], before)
  }

  predicate Weighed(s: State)
  {
    s.used == Outstanding(s.jobs) && s.used <= s.max
    && forall i :: 0 <= i < |s.jobs| ==> s.jobs[i].weight == Weight(s.max, s.jobs[i].task.asked)
  }

  ghost predicate Inv(s: State) { (exists p: nat :: Front(s, p)) && CodesRight(s) && Weighed(s) }

  // -------------------------------------------------- every step keeps it

  lemma InitInv(s: State, max: nat)
    requires Init(s, max)
    ensures Inv(s)
  {
    assert Front(s, 0);
  }

lemma {:induction false} OutstandingUpdate(jobs: seq<Job>, i: nat, j: Job)
    requires i < |jobs| && j.weight == jobs[i].weight
    ensures Outstanding(jobs[i := j]) == Outstanding(jobs) - (if jobs[i].released then 0 else j.weight) + (if j.released then 0 else j.weight)
  {
    var n := |jobs| - 1;
    if i == n {
      assert jobs[i := j][..n] == jobs[..n];
    } else {
      assert jobs[i := j][..n] == jobs[..n][i := j];
      OutstandingUpdate(jobs[..n], i, j);
    }
  }

  lemma EffectsNext(ops: seq<Op>, k: nat, c: Console)
    requires k < |ops|
    ensures Effects(ops[..k + 1], c) == Effect(ops[k], Effects(ops[..k], c))
    ensures Reads(ops[..k + 1], c) == Reads(ops[..k], c) + if ops[k].ReadExit? then [Effects(ops[..k], c).exitCode] else []
  {
    assert ops[..k + 1][..k] == ops[..k];
  }

  lemma NoCalls(c: Console)
    ensures Effects([], c) == c && Reads([], c) == []
  {
  }

  lemma SequentialNext(ts: seq<Task>, p: nat)
    requires p < |ts|
    ensures Sequential(ts[..p + 1]) == Effects(Calls(ts[p]), Sequential(ts[..p]))
  {
    assert ts[..p + 1][..p] == ts[..p];
  }

  lemma OutstandingAppend(jobs: seq<Job>, j: Job)
    ensures Outstanding(jobs + [j]) == Outstanding(jobs) + if j.released then 0 else j.weight
  {
    assert (jobs + [j])[..|jobs|] == jobs;
  }

  /** Adding a task: the new goroutine is behind everybody. */
  lemma AddKeeps(s: State, t: Task)
    requires Inv(s) && CanAdd(s, t)
    ensures Inv(Add(s, t))
  {
    hide Effects, Reads, Sequential, Outstanding, Calls, Weight;
    var p: nat :| Front(s, p);
    var s' := Add(s, t);
    var n := |s.jobs|;
    var ts, ts' := Tasks(s.jobs), Tasks(s'.jobs);
    assert ts' == ts + [t];
    assert forall i :: 0 <= i <= n ==> ts'[..i] == ts[..i];
    assert ts[..n] == ts;
    assert Calls(t)[..0] == [];
    NoCalls(Sequential(ts));
    OutstandingAppend(s.jobs, s'.jobs[n]);
    assert Front(s', p);
  }

  /** Only the front task can make a move that involves the output state. */
  lemma OnlyFront(s: State, p: nat, i: nat, m: Move)
    requires Front(s, p) && CanMove(s, i, m) && !m.Release?
    ensures i == p && p < |s.jobs|
  {
    hide Effects, Sequential, Calls;
  }

  /** A move changes one job, and its weight counts until it is released. */
  lemma MoveWeighs(s: State, i: nat, m: Move)
    requires Shaped(s) && Weighed(s) && CanMove(s, i, m) && (m.Release? || !s.jobs[i].released)
    ensures Weighed(DoMove(s, i, m)) && Tasks(DoMove(s, i, m).jobs) == Tasks(s.jobs)
  {
    hide Effect, Calls, Outstanding, Weight;
    var j := DoMove(s, i, m).jobs[i];
    OutstandingUpdate(s.jobs, i, j);
  }

  lemma TakeKeeps(s: State, p: nat, i: nat)
    requires Front(s, p) && CodesRight(s) && CanMove(s, i, Take)
    requires Tasks(DoMove(s, i, Take).jobs) == Tasks(s.jobs)
    ensures Front(DoMove(s, i, Take), p) && CodesRight(DoMove(s, i, Take))
  {
    hide Effects, Reads, Sequential, Calls;
    OnlyFront(s, p, i, Take);
  }

  lemma CallKeeps(s: State, p: nat, i: nat)
    requires Front(s, p) && CodesRight(s) && CanMove(s, i, Call)
    requires Tasks(DoMove(s, i, Call).jobs) == Tasks(s.jobs)
    ensures Front(DoMove(s, i, Call), p) && CodesRight(DoMove(s, i, Call))
  {
    hide Effects, Reads, Sequential, Calls, Effect;
    OnlyFront(s, p, i, Call);
    EffectsNext(Calls(s.jobs[i].task), s.jobs[i].made, Sequential(Tasks(s.jobs)[..i]));
  }

  lemma SendKeeps(s: State, p: nat, i: nat)
    requires Front(s, p) && CodesRight(s) && CanMove(s, i, Send)
    requires Tasks(DoMove(s, i, Send).jobs) == Tasks(s.jobs)
    ensures Front(DoMove(s, i, Send), p + 1) && CodesRight(DoMove(s, i, Send))
  {
    hide Effects, Reads, Sequential, Calls;
    OnlyFront(s, p, i, Send);
    var calls, ts := Calls(s.jobs[i].task), Tasks(s.jobs);
    assert calls[..|calls|] == calls;
    SequentialNext(ts, p);
    if p + 1 == |s.jobs| {
      assert ts[..p + 1] == ts;
    } else {
      assert Calls(s.jobs[p + 1].task)[..0] == [];
      NoCalls(Sequential(ts[..p + 1]));
    }
  }

  lemma ReleaseKeeps(s: State, p: nat, i: nat)
    requires Front(s, p) && CodesRight(s) && CanMove(s, i, Release)
    requires Tasks(DoMove(s, i, Release).jobs) == Tasks(s.jobs)
    ensures Front(DoMove(s, i, Release), p) && CodesRight(DoMove(s, i, Release))
  {
    hide Effects, Reads, Sequential, Calls;
  }

  lemma NotReleased(s: State, p: nat, i: nat, m: Move)
    requires Front(s, p) && CanMove(s, i, m) && !m.Release?
    ensures !s.jobs[i].released
  {
    hide Effects, Sequential, Calls;
    OnlyFront(s, p, i, m);
  }

  lemma MoveKeeps(s: State, i: nat, m: Move)
    requires Inv(s) && CanMove(s, i, m)
    ensures Inv(DoMove(s, i, m))
  {
    hide Front, CodesRight, Weighed;
    var p: nat :| Front(s, p);
    if !m.Release? { NotReleased(s, p, i, m); }
    MoveWeighs(s, i, m) by { FrontShape(s, p); }
    match m {
      case Take => TakeKeeps(s, p, i);
      case Call => CallKeeps(s, p, i);
      case Send => SendKeeps(s, p, i);
      case Release => ReleaseKeeps(s, p, i);
    }
  }

  lemma FrontShape(s: State, p: nat)
    requires Front(s, p)
    ensures Shaped(s)
  {
  }

  lemma NextKeeps(s: State, s': State)
    requires Inv(s) && Next(s, s')
    ensures Inv(s')
  {
    hide Inv, CanMove, DoMove, CanAdd, Add;
    if t: Task :| CanAdd(s, t) && s' == Add(s, t) {
      AddKeeps(s, t);
    } else {
      var i: nat, m: Move :| CanMove(s, i, m) && s' == DoMove(s, i, m);
      MoveKeeps(s, i, m);
    }
  }

  lemma SameMax(s: State, s': State)
    requires Next(s, s')
    ensures s'.max == s.max
  {
  }

  /** In every reachable state the invariant holds. */
  lemma {:induction false} RunKeeps(r: seq<State>, max: nat, k: nat)
    requires Run(r, max) && k < |r|
    ensures Inv(r[k]) && r[k].max == max
  {
    hide Inv, Next;
    if k == 0 {
      InitInv(r[0], max);
    } else {
      RunKeeps(r, max, k - 1);
      assert Next(r[k - 1], r[k]);
      NextKeeps(r[k - 1], r[k]);
      SameMax(r[k - 1], r[k]);
    }
  }

  // --------------------------------------------------------- consequences

  /** The places where the output state can be: channel i, or the hands of task i. */
  predicate InChannel(s: State, i: nat) { i < |s.slots| && s.slots[i] }

  predicate InHand(s: State, i: nat) { i < |s.jobs| && s.jobs[i].holds }

  ghost predicate Elsewhere(s: State, p: nat) { forall i: nat :: i != p ==> !InChannel(s, i) && !InHand(s, i) }

  /** Exactly one place holds the output state. */
  lemma OneToken(s: State)
    requires Inv(s)
    ensures exists p: nat :: InChannel(s, p) != InHand(s, p) && Elsewhere(s, p)
  {
    var p: nat :| Front(s, p);
    assert InChannel(s, p) != InHand(s, p) && Elsewhere(s, p);
  }

  /** Passing the state on never blocks: the slot it goes to is empty. */
  lemma SendNeverBlocks(s: State, i: nat)
    requires Inv(s) && i < |s.jobs| && s.jobs[i].holds
    ensures !s.slots[i + 1]
  {
  }

  /** When every goroutine has passed the state on, the console shows the tasks' output in the
      order of Add, whatever the interleaving was. */
  lemma OutputInOrder(s: State)
    requires Inv(s) && forall i :: 0 <= i < |s.jobs| ==> s.jobs[i].sent
    ensures s.console == Sequential(Tasks(s.jobs))
  {
  }

  predicate AllDone(s: State) { forall i :: 0 <= i < |s.jobs| ==> s.jobs[i].sent && s.jobs[i].released }

  /** Nothing gets stuck: unless all goroutines are done, one of them can move. */
  lemma NoDeadlock(s: State) returns (i: nat, m: Move)
    requires Inv(s) && !AllDone(s)
    ensures CanMove(s, i, m)
  {
    var p: nat :| Front(s, p);
    if p < |s.jobs| {
      i := p;
      var j := s.jobs[p];
      m := if !j.holds then Take else if j.made < |Calls(j.task)| then Call else Send;
    } else {
      i :| 0 <= i < |s.jobs| && !(s.jobs[i].sent && s.jobs[i].released);
      m := Release;
      assert Finished(s.jobs[i]);
      WeightIncluded(s.jobs, i);
    }
  }

  lemma {:induction false} WeightIncluded(jobs: seq<Job>, i: nat)
    requires i < |jobs| && !jobs[i].released
    ensures jobs[i].weight <= Outstanding(jobs)
  {
    if i < |jobs| - 1 { WeightIncluded(jobs[..|jobs| - 1], i); }
  }

  lemma {:induction false} NothingOutstanding(jobs: seq<Job>)
    requires forall i :: 0 <= i < |jobs| ==> jobs[i].released
    ensures Outstanding(jobs) == 0
  {
    if jobs != [] { NothingOutstanding(jobs[..|jobs| - 1]); }
  }

  /** Add cannot wait for ever: as long as it blocks, some goroutine can move. */
  lemma AddUnblocks(s: State, t: Task)
    requires Inv(s)
    ensures CanAdd(s, t) || exists i: nat, m: Move :: CanMove(s, i, m)
  {
    if AllDone(s) {
      NothingOutstanding(s.jobs);
    } else {
      var i, m := NoDeadlock(s);
    }
  }

  /** Moves left to a goroutine. */
  function Left(j: Job): int
  {
    |Calls(j.task)| - j.made + (if j.holds || j.sent then 0 else 1) + (if j.sent then 0 else 1) + (if j.released then 0 else 1)
  }

  function MovesLeft(jobs: seq<Job>): int
  {
    if jobs == [] then 0 else MovesLeft(jobs[..|jobs| - 1]) + Left(jobs[|jobs| - 1])
  }

  lemma {:induction false} MovesLeftUpdate(jobs: seq<Job>, i: nat, j: Job)
    requires i < |jobs|
    ensures MovesLeft(jobs[i := j]) == MovesLeft(jobs) - Left(jobs[i]) + Left(j)
  {
    var n := |jobs| - 1;
    if i == n {
      assert jobs[i := j][..n] == jobs[..n];
    } else {
      assert jobs[i := j][..n] == jobs[..n][i := j];
      MovesLeftUpdate(jobs[..n], i, j);
    }
  }

  lemma {:induction false} MovesLeftPositive(jobs: seq<Job>)
    requires forall i :: 0 <= i < |jobs| ==> jobs[i].made <= |Calls(jobs[i].task)|
    ensures MovesLeft(jobs) >= 0
  {
    if jobs != [] { MovesLeftPositive(jobs[..|jobs| - 1]); }
  }

  lemma CallsBounded(s: State)
    requires Inv(s)
    ensures forall i :: 0 <= i < |s.jobs| ==> s.jobs[i].made <= |Calls(s.jobs[i].task)|
  {
    hide Front, Weighed, Reads, Sequential, Calls;
    assert forall i :: 0 <= i < |s.jobs| ==> CodeRight(s.jobs[i], Sequential(Tasks(s.jobs)[..i]));
  }

  /** Every move uses one up, so between two Adds only finitely many happen; with NoDeadlock all
      goroutines finish. */
  lemma MovesRunOut(s: State, i: nat, m: Move)
    requires Inv(s) && CanMove(s, i, m)
    ensures 0 <= MovesLeft(DoMove(s, i, m).jobs) == MovesLeft(s.jobs) - 1
  {
    var s' := DoMove(s, i, m);
    MovesLeftUpdate(s.jobs, i, s'.jobs[i]);
    hide MovesLeft, Calls;
    MoveKeeps(s, i, m);
    CallsBounded(s');
    MovesLeftPositive(s'.jobs);
  }

  // ------------------------------------------------- what the order gives

  predicate Reports(ops: seq<Op>) { exists k :: 0 <= k < |ops| && ops[k].Report? }

  /** A task reports an error when it calls Report or returns one. */
  predicate Fails(t: Task)
  {
    t.outcome.Failure? || exists j :: 0 <= j < |t.ops| && t.ops[j].Report?
  }

  lemma CallsReport(t: Task)
    ensures Reports(Calls(t)) <==> Fails(t)
  {
    var calls := Calls(t);
    if t.outcome.Failure? {
      assert calls[|t.ops|].Report?;
    } else {
      assert calls == t.ops;
    }
  }

  predicate SomeFails(tasks: seq<Task>) { exists i :: 0 <= i < |tasks| && Fails(tasks[i]) }

  lemma {:induction false} EffectsExit(ops: seq<Op>, c: Console)
    ensures Effects(ops, c).exitCode == if Reports(ops) then 2 else c.exitCode
  {
    if ops != [] {
      var n := |ops| - 1;
      EffectsExit(ops[..n], c);
      if Reports(ops[..n]) {
        var k :| 0 <= k < n && ops[..n][k].Report?;
        assert ops[k].Report?;
      }
      if Reports(ops) && !ops[n].Report? {
        var k :| 0 <= k < |ops| && ops[k].Report?;
        assert ops[..n][k].Report?;
      }
    }
  }

  lemma {:induction false} SequentialExit(tasks: seq<Task>)
    ensures Sequential(tasks).exitCode == if SomeFails(tasks) then 2 else 0
  {
    if tasks != [] {
      var n := |tasks| - 1;
      SequentialExit(tasks[..n]);
      EffectsExit(Calls(tasks[n]), Sequential(tasks[..n]));
      CallsReport(tasks[n]);
      hide Reports, Calls, Fails;
      if SomeFails(tasks[..n]) {
        var k :| 0 <= k < n && Fails(tasks[..n][k]);
        assert Fails(tasks[k]);
      }
      if SomeFails(tasks) && !Fails(tasks[n]) {
        var k :| 0 <= k < |tasks| && Fails(tasks[k]);
        assert Fails(tasks[..n][k]);
      }
    }
  }

  lemma EarlierFails(jobs: seq<Job>, i: nat)
    requires i <= |jobs|
    ensures SomeFails(Tasks(jobs)[..i]) <==> exists k :: 0 <= k < i && Fails(jobs[k].task)
  {
    hide Fails;
    if SomeFails(Tasks(jobs)[..i]) {
      var k :| 0 <= k < i && Fails(Tasks(jobs)[..i][k]);
      assert Fails(jobs[k].task);
    }
    if k :| 0 <= k < i && Fails(jobs[k].task) {
      assert Fails(Tasks(jobs)[..i][k]);
    }
  }

  /** The task that GetExitCode adds. */
  const ASK: Task := Task([ReadExit], Success, 0)

  /** GetExitCode: the code its task reads is 2 exactly when a task added earlier reported an
      error, and 0 otherwise, in every interleaving. */
  lemma ExitCodeExact(s: State, i: nat)
    requires Inv(s) && i < |s.jobs| && s.jobs[i].task == ASK && s.jobs[i].sent
    ensures s.jobs[i].codes == [if exists k :: 0 <= k < i && Fails(s.jobs[k].task) then 2 else 0]
  {
    EarlierFails(s.jobs, i);
    var before := Sequential(Tasks(s.jobs)[..i]);
    SequentialExit(Tasks(s.jobs)[..i]);
    assert Calls(ASK)[..1] == [ReadExit];
    assert [ReadExit][..0] == [];
    assert Reads([ReadExit], before) == Reads([], before) + [Effects([], before).exitCode];
  }

  /** What one task writes to the output stream. */
  function Written(ops: seq<Op>): string
  {
    if ops == [] then "" else Written(ops[..|ops| - 1]) + if ops[|ops| - 1].Write? then ops[|ops| - 1].text else ""
  }

  function AllWritten(tasks: seq<Task>): string
  {
    if tasks == [] then "" else AllWritten(tasks[..|tasks| - 1]) + Written(tasks[|tasks| - 1].ops)
  }

  lemma CallsWrite(t: Task)
    ensures Written(Calls(t)) == Written(t.ops)
  {
    if t.outcome.Failure? {
      assert Calls(t)[..|t.ops|] == t.ops;
    } else {
      assert Calls(t) == t.ops;
    }
  }

  /** What calls write to the error stream. */
  function Complained(ops: seq<Op>): string
  {
    if ops == [] then ""
    else
      var last := ops[|ops| - 1];
      Complained(ops[..|ops| - 1]) + if last.Warn? || last.Report? then last.text else ""
  }

  /** What the tasks write there: their warnings and reports, and then the error each returns. */
  function AllComplained(tasks: seq<Task>): string
  {
    if tasks == [] then ""
    else
      var last := tasks[|tasks| - 1];
      AllComplained(tasks[..|tasks| - 1]) + Complained(last.ops) + if last.outcome.Failure? then last.outcome.text else ""
  }

  lemma CallsComplain(t: Task)
    ensures Complained(Calls(t)) == Complained(t.ops) + if t.outcome.Failure? then t.outcome.text else ""
  {
    if t.outcome.Failure? {
      assert Calls(t)[..|t.ops|] == t.ops;
    } else {
      assert Calls(t) == t.ops && Complained(t.ops) + "" == Complained(t.ops);
    }
  }

  lemma {:induction false} EffectsErr(ops: seq<Op>, c: Console)
    ensures Effects(ops, c).err == c.err + Complained(ops)
  {
    if ops != [] { EffectsErr(ops[..|ops| - 1], c); }
  }

  /** The error stream is the concatenation of the tasks' own complaints, in the order of Add. */
  lemma {:induction false} SequentialErr(tasks: seq<Task>)
    ensures Sequential(tasks).err == AllComplained(tasks)
  {
    if tasks != [] {
      var n := |tasks| - 1;
      SequentialErr(tasks[..n]);
      EffectsErr(Calls(tasks[n]), Sequential(tasks[..n]));
      CallsComplain(tasks[n]);
    }
  }

  lemma {:induction false} EffectsOut(ops: seq<Op>, c: Console)
    ensures Effects(ops, c).out == c.out + Written(ops)
  {
    if ops != [] { EffectsOut(ops[..|ops| - 1], c); }
  }

  /** The output is the concatenation of the tasks' own outputs, in the order of Add. */
  lemma {:induction false} SequentialOut(tasks: seq<Task>)
    ensures Sequential(tasks).out == AllWritten(tasks)
  {
    if tasks != [] {
      SequentialOut(tasks[..|tasks| - 1]);
      EffectsOut(Calls(tasks[|tasks| - 1]), Sequential(tasks[..|tasks| - 1]));
      CallsWrite(tasks[|tasks| - 1]);
    }
  }

  /** Once all tasks have passed the state on, in every interleaving: both streams and the code, from
      nothing but the tasks themselves. */
  lemma ConsoleExact(s: State)
    requires Inv(s) && forall i :: 0 <= i < |s.jobs| ==> s.jobs[i].sent
    ensures var tasks := Tasks(s.jobs);
      s.console == Console(AllWritten(tasks), AllComplained(tasks), if SomeFails(tasks) then 2 else 0)
  {
    hide Tasks;
    OutputInOrder(s);
    SequentialOut(Tasks(s.jobs));
    SequentialErr(Tasks(s.jobs));
    SequentialExit(Tasks(s.jobs));
  }

  // ---------------------------------------------------- exclusive tasks

  /** A task that took the whole weight shares it with nobody: every other task that has not
      released has weight 0. */
  lemma ExclusiveWeight(s: State, i: nat, k: nat)
    requires Inv(s) && i < |s.jobs| && k < |s.jobs| && i != k
    requires s.jobs[i].weight == s.max && !s.jobs[i].released && !s.jobs[k].released
    ensures s.jobs[k].weight == 0
  {
    TwoWeights(s.jobs, i, k);
  }

  lemma {:induction false} TwoWeights(jobs: seq<Job>, i: nat, k: nat)
    requires i < |jobs| && k < |jobs| && i != k && !jobs[i].released && !jobs[k].released
    ensures jobs[i].weight + jobs[k].weight <= Outstanding(jobs)
  {
    var n := |jobs| - 1;
    if i == n {
      assert jobs[..n][k] == jobs[k];
      WeightIncluded(jobs[..n], k);
    } else if k == n {
      assert jobs[..n][i] == jobs[i];
      WeightIncluded(jobs[..n], i);
    } else {
      TwoWeights(jobs[..n], i, k);
    }
  }

  /** But "without any other concurrent tasks" is not what the code does: tasks of weight 0, such
      as those of AddReport and GetExitCode, are added while an exclusive task is running. */
  lemma ExclusiveIsNotAlone(max: nat) returns (r: seq<State>)
    ensures Run(r, max) && |r| == 3 && |r[2].jobs| == 2
    ensures r[2].jobs[0].task.asked == -1 && r[2].jobs[0].weight == max && !r[2].jobs[0].sent
    ensures r[2].jobs[1].task == ASK && !r[2].jobs[1].sent
  {
    var s0 := State(max, 0, [], [true], START);
    var t := Task([], Success, -1);
    var s1 := Add(s0, t);
    var s2 := Add(s1, ASK);
    r := [s0, s1, s2];
    assert CanAdd(s0, t) && CanAdd(s1, ASK);
  }

  /** What an exclusive task holds up while it runs: exactly the Adds of positive weight. */
  lemma ExclusiveBlocks(s: State, i: nat, t: Task)
    requires Inv(s) && i < |s.jobs| && s.jobs[i].weight == s.max && !s.jobs[i].released
    ensures CanAdd(s, t) <==> t.asked == 0 || s.max == 0
  {
    WeightIncluded(s.jobs, i);
  }

  lemma {:induction false} NothingOutstandingMeans(jobs: seq<Job>)
    ensures Outstanding(jobs) == 0 <==> forall k :: 0 <= k < |jobs| && !jobs[k].released ==> jobs[k].weight == 0
  {
    if jobs == [] {
    } else {
      var n := |jobs| - 1;
      NothingOutstandingMeans(jobs[..n]);
      assert forall k :: 0 <= k < n ==> jobs[..n][k] == jobs[k];
      assert 0 <= n < |jobs| && jobs[n] == jobs[|jobs| - 1];
    }
  }

  /** When an Add of the whole weight gets through: not when all other tasks have completed, but
      exactly when every task that has not given its weight back has weight 0. */
  lemma ExclusiveAdmitted(s: State, t: Task)
    requires Inv(s) && (t.asked < 0 || t.asked >= s.max)
    ensures CanAdd(s, t) <==> forall k :: 0 <= k < |s.jobs| && !s.jobs[k].released ==> s.jobs[k].weight == 0
  {
    NothingOutstandingMeans(s.jobs);
  }

  /** So it starts alone exactly when no task of weight 0 is still running. */
  lemma ExclusiveStartsAlone(s: State, t: Task)
    requires Inv(s) && (t.asked < 0 || t.asked >= s.max) && CanAdd(s, t)
    ensures (forall k :: 0 <= k < |s.jobs| ==> s.jobs[k].released)
      <==> (forall k :: 0 <= k < |s.jobs| && s.jobs[k].weight == 0 ==> s.jobs[k].released)
  {
    ExclusiveAdmitted(s, t);
  }

  /** The task of AddReport. */
  function Complaint(text: string): Task { Task([], Failure(text), 0) }

  /** And it need not start alone: a report that has not even got the output state yet does not
      hold it up. */
  lemma ExclusiveStartsBesideReport(max: nat, text: string) returns (r: seq<State>)
    ensures Run(r, max) && |r| == 3 && |r[2].jobs| == 2
    ensures r[1].jobs[0].task == Complaint(text) && r[1].jobs[0] == r[2].jobs[0]
    ensures !r[2].jobs[0].holds && !r[2].jobs[0].sent && !r[2].jobs[0].released
    ensures r[2].jobs[1].task.asked == -1 && r[2].jobs[1].weight == max
  {
    var s0 := State(max, 0, [], [true], START);
    var t := Task([], Success, -1);
    var s1 := Add(s0, Complaint(text));
    var s2 := Add(s1, t);
    r := [s0, s1, s2];
    assert CanAdd(s0, Complaint(text)) && CanAdd(s1, t);
  }
}
