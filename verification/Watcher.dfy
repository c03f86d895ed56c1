/** The cancellation watcher of a MySQL connection (connection.go): startWatcher, watchCancel,
    finish, cancel and cleanup as a state machine over two goroutines.

    The connection goroutine calls the methods one after the other, in any order; the watcher
    goroutine runs its loop; the environment ends contexts at any time. A watch is numbered
    afresh each time watchCancel hands a context over, so that one context may be watched twice. */
module Watcher {

  datatype Option<T> = None | Some(value: T)

  /** Where the connection goroutine is. */
  datatype Conn = Ready | Sending(n: nat) | Finishing | Swapping | Closing

  /** Where the watcher goroutine is. */
  datatype Watch = Waiting | Watching(n: nat) | Canceling(n: nat) | Canceled(n: nat) | Shutting(n: nat) | Gone

  datatype Closer = ByConn | ByWatch(n: nat)

  /** The fields of mysqlConn that the protocol uses: watching, the one-slot watcher channel, the
      closed flag, whether closech is closed, the canceled error (the watch it came from); then
      both goroutines; then history: the number of watches, those whose finish was accepted, who
      set closed, and how often closech was closed. */
  datatype State = State(watching: bool, slot: Option<nat>, closed: bool, closech: bool, canceled: Option<nat>,
    conn: Conn, watch: Watch, ended: set<nat>, count: nat, accepted: set<nat>, closer: Option<Closer>, closings: nat)

  const START: State := State(false, None, false, false, None, Ready, Waiting, {}, 0, {}, None, 0)

  datatype Step =
      // watchCancel: already watching, or a context worth watching, and the send itself
      WatchAgain | WatchNew | Send
      // finish: entered while watching; the watcher accepts; or closech is closed
    | Finish | FinishAccepted | FinishClosed
      // cleanup on the connection goroutine: entered, the atomic swap, closing the channel
    | Cleanup | ConnSwap | ConnClose
      // the watcher's two selects, and cancel
    | Receive | SeeDone | SeeClosed | SetCanceled | WatchSwap | WatchClose
      // a context ends
    | End(n: nat)

  predicate Enabled(s: State, step: Step)
  {
    match step
    case WatchAgain => s.conn.Ready? && s.watching
    case WatchNew => s.conn.Ready? && !s.watching
    case Send => s.conn.Sending? && s.slot.None?
    case Finish => s.conn.Ready? && s.watching
    case FinishAccepted => s.conn.Finishing? && s.watch.Watching?
    case FinishClosed => s.conn.Finishing? && s.closech
    case Cleanup => s.conn.Ready?
    case ConnSwap => s.conn.Swapping?
    case ConnClose => s.conn.Closing?
    case Receive => s.watch.Waiting? && s.slot.Some?
    case SeeDone => s.watch.Watching? && s.watch.n in s.ended
    case SeeClosed => (s.watch.Waiting? || s.watch.Watching?) && s.closech
    case SetCanceled => s.watch.Canceling?
    case WatchSwap => s.watch.Canceled?
    case WatchClose => s.watch.Shutting?
    case End(n) => true
  }

  function Do(s: State, step: Step): State
    requires Enabled(s, step)
  {
    match step
    case WatchAgain => s.(conn := Swapping)
    case WatchNew => s.(watching := true, conn := Sending(s.count), count := s.count + 1)
    case Send => s.(slot := Some(s.conn.n), conn := Ready)
    case Finish => s.(conn := Finishing)
    case FinishAccepted => s.(watching := false, conn := Ready, watch := Waiting, accepted := s.accepted + {s.watch.n})
    case FinishClosed => s.(conn := Ready)
    case Cleanup => s.(conn := Swapping)
    case ConnSwap =>
      if s.closed then s.(conn := Ready) else s.(closed := true, closer := Some(ByConn), conn := Closing)
    case ConnClose => s.(closech := true, closings := s.closings + 1, conn := Ready)
    case Receive => s.(slot := None, watch := Watching(s.slot.value))
    case SeeDone => s.(watch := Canceling(s.watch.n))
    case SeeClosed => s.(watch := Gone)
    case SetCanceled => s.(canceled := Some(s.watch.n), watch := Canceled(s.watch.n))
    case WatchSwap =>
      if s.closed then s.(watch := Waiting)
      else s.(closed := true, closer := Some(ByWatch(s.watch.n)), watch := Shutting(s.watch.n))
    case WatchClose => s.(closech := true, closings := s.closings + 1, watch := Waiting)
    case End(n) => s.(ended := s.ended + {n})
  }

  ghost predicate Next(s: State, s': State)
  {
    exists step: Step :: Enabled(s, step) && s' == Do(s, step)
  }

  ghost predicate Run(r: seq<State>)
  {
    |r| > 0 && r[0] == START && forall i :: 0 <= i < |r| - 1 ==> Next(r[i], r[i + 1])
  }

  // --------------------------------------------------------- the invariant

  /** The watch the watcher goroutine is busy with, if any. */
  function Busy(w: Watch): Option<nat>
  {
    match w
    case Watching(n) => Some(n)
    case Canceling(n) => Some(n)
    case Canceled(n) => Some(n)
    case Shutting(n) => Some(n)
    case _ => None
  }

  /** The latest watch. */
  predicate Latest(s: State, n: nat) { s.count > 0 && n == s.count - 1 }

  /** Whatever is being handed over or watched is the latest watch, while watching is set, and no
      finish has been accepted for it. */
  predicate Current(s: State)
  {
    (s.conn.Sending? ==> s.watching && Latest(s, s.conn.n) && s.slot.None? && (s.watch.Waiting? || s.watch.Gone?))
    && (s.slot.Some? ==> s.watching && Latest(s, s.slot.value) && !s.conn.Sending? && (s.watch.Waiting? || s.watch.Gone?))
    && (Busy(s.watch).Some? ==> s.watching && Latest(s, Busy(s.watch).value) && s.slot.None? && !s.conn.Sending?)
    && (s.watching ==> s.count > 0 && s.count - 1 !in s.accepted)
    && (forall n :: n in s.accepted ==> n < s.count)
    && (s.conn.Finishing? ==> s.watching)
  }

  /** closed is set before closech is closed, by exactly one side, which closes closech once. */
  predicate ClosedOnce(s: State)
  {
    s.closings == (if s.closech then 1 else 0)
    && (s.closech ==> s.closed)
    && (s.closed <==> s.closer.Some?)
    && (s.closed && !s.closech ==> (if s.closer.value.ByConn? then s.conn.Closing? else s.watch.Shutting?))
    && (s.conn.Closing? ==> s.closer == Some(ByConn) && !s.closech)
    && (s.watch.Shutting? ==> s.closer == Some(ByWatch(s.watch.n)) && !s.closech)
    && (s.watch.Gone? ==> s.closech)
  }

  /** What cancellation leaves behind belongs to a watch that no finish ended. */
  predicate Blame(s: State)
  {
    (s.canceled.Some? ==> s.canceled.value !in s.accepted && Latest(s, s.canceled.value) && s.watching)
    && (s.canceled.Some? ==> !s.watch.Watching? && !s.watch.Canceling? && s.slot.None? && !s.conn.Sending?)
    && (s.watch.Canceled? || s.watch.Shutting? ==> s.canceled == Some(s.watch.n))
    && (s.closer.Some? && s.closer.value.ByWatch? ==> s.canceled == Some(s.closer.value.n))
    && (s.watch.Canceling? ==> s.watch.n in s.ended)
    && (s.canceled.Some? ==> s.canceled.value in s.ended)
    && (s.watching && s.slot.None? && Busy(s.watch).None? && !s.conn.Sending? ==> s.closed)
  }

  predicate Inv(s: State) { Current(s) && ClosedOnce(s) && Blame(s) }

  lemma StartInv()
    ensures Inv(START)
  {
  }

  lemma StepKeeps(s: State, step: Step)
    requires Inv(s) && Enabled(s, step)
    ensures Inv(Do(s, step))
  {
  }

  lemma {:induction false} RunKeeps(r: seq<State>, k: nat)
    requires Run(r) && k < |r|
    ensures Inv(r[k])
  {
    hide Inv, Enabled, Do;
    if k == 0 {
      StartInv();
    } else {
      RunKeeps(r, k - 1);
      assert Next(r[k - 1], r[k]);
      var step: Step :| Enabled(r[k - 1], step) && r[k] == Do(r[k - 1], step);
      StepKeeps(r[k - 1], step);
    }
  }

  // --------------------------------------------------------- consequences

  /** Handing a context over never blocks: the one slot is free. */
  lemma SendNeverBlocks(s: State)
    requires Inv(s) && s.conn.Sending?
    ensures Enabled(s, Send)
  {
  }

  /** closech is closed at most once (closing a closed channel would panic). */
  lemma ClosedAtMostOnce(s: State)
    requires Inv(s)
    ensures s.closings <= 1
    ensures (Enabled(s, ConnClose) || Enabled(s, WatchClose)) ==> !s.closech && s.closings == 0
  {
  }

  /** cleanup closes: whenever the connection goroutine has gone from the swap back to its caller, closed
      is set, and closech is closed too unless the watcher is just about to do it. */
  lemma {:induction false} CleanupCloses(r: seq<State>, i: nat, k: nat)
    requires Run(r) && i < k < |r| && r[i].conn.Swapping? && r[k].conn.Ready?
    ensures r[k].closed && (r[k].closech || r[k].watch.Shutting?)
  {
    hide Inv, Enabled, Do;
    SwapSettles(r, i, k);
    RunKeeps(r, k);
    ClosedMeans(r[k]);
  }

  /** Until then the swap is still to come, or closed is set. */
  lemma {:induction false} SwapSettles(r: seq<State>, i: nat, k: nat)
    requires Run(r) && i <= k < |r| && r[i].conn.Swapping?
    ensures r[k].conn.Swapping? || r[k].closed
  {
    hide Enabled, Do;
    if i < k {
      SwapSettles(r, i, k - 1);
      assert Next(r[k - 1], r[k]);
      var step: Step :| Enabled(r[k - 1], step) && r[k] == Do(r[k - 1], step);
      StepSettles(r[k - 1], step);
    }
  }

  lemma StepSettles(s: State, step: Step)
    requires Enabled(s, step) && (s.conn.Swapping? || s.closed)
    ensures Do(s, step).conn.Swapping? || Do(s, step).closed
  {
  }

  lemma ClosedMeans(s: State)
    requires Inv(s) && s.closed && s.conn.Ready?
    ensures s.closech || s.watch.Shutting?
  {
  }

  /** Every way into cleanup: called outright, or by a watch while another one is still on. */
  lemma CleanupEntered(s: State)
    requires s.conn.Ready?
    ensures Enabled(s, Cleanup) && Do(s, Cleanup).conn.Swapping?
    ensures s.watching ==> Enabled(s, WatchAgain) && !Enabled(s, WatchNew) && Do(s, WatchAgain).conn.Swapping?
  {
  }

  /** A cancelled context closes the connection as well: once its error is in place, the watcher's swap is
      still to come or closed is set. */
  lemma CanceledCloses(s: State)
    requires Inv(s) && s.canceled.Some?
    ensures s.watch.Canceled? || s.closed
    ensures s.closed && !s.watch.Shutting? && !s.conn.Closing? ==> s.closech
  {
  }

  /** If cancel wins the close, the canceled error is in place before closed is set, and it is the
      error of a context that has really ended. So error() reports the context's error. */
  lemma CanceledBeforeClosed(s: State, n: nat)
    requires Inv(s) && s.closer == Some(ByWatch(n))
    ensures s.canceled == Some(n) && n in s.ended
  {
  }

  /** error(): nil on an open connection, the context's error if there is one, else ErrInvalidConn. */
  datatype Report = NoError | ContextError(n: nat) | ErrInvalidConn

  function Error(s: State): Report
  {
    if !s.closed then NoError else if s.canceled.Some? then ContextError(s.canceled.value) else ErrInvalidConn
  }

  /** And without any cancelled context the connection then reports that it is invalid. */
  lemma {:induction false} CleanupReports(r: seq<State>, i: nat, k: nat)
    requires Run(r) && i < k < |r| && r[i].conn.Swapping? && r[k].conn.Ready?
    ensures Error(r[k]) == if r[k].canceled.Some? then ContextError(r[k].canceled.value) else ErrInvalidConn
  {
    hide Inv, Enabled, Do;
    SwapSettles(r, i, k);
  }

  /** The watcher that is about to close closech can do so at once, and with closech closed its goroutine
      ends (WatcherEnds). */
  lemma ShuttingCloses(s: State)
    requires s.watch.Shutting?
    ensures Enabled(s, WatchClose) && Do(s, WatchClose).closech
  {
  }

  lemma ErrorNamesTheCanceler(s: State)
    requires Inv(s)
    ensures Error(s) == NoError <==> s.closer.None?
    ensures s.closer.Some? && s.closer.value.ByWatch? ==> Error(s) == ContextError(s.closer.value.n)
    ensures Error(s).ContextError? ==> Error(s).n in s.ended && Error(s).n !in s.accepted
  {
  }

  /** Once the finish of watch n has been accepted, n never closes the connection and never leaves
      its error behind, at any later point of the run. */
  lemma {:induction false} AcceptedNeverCloses(r: seq<State>, i: nat, k: nat, n: nat)
    requires Run(r) && i <= k < |r| && n in r[i].accepted
    ensures n in r[k].accepted
    ensures r[k].closer != Some(ByWatch(n)) && r[k].canceled != Some(n)
  {
    hide Inv, Run, Next, Enabled, Do;
    RunKeeps(r, k);
    RunNonempty(r);
    if i < k {
      RunMeans(r, k - 1);
      AcceptedNeverCloses(r, i, k - 1, n);
      AcceptedStays(r[k - 1], r[k], n);
    }
    AcceptedHarmless(r[k], n);
  }

  lemma RunNonempty(r: seq<State>)
    requires Run(r)
    ensures |r| > 0
  {
  }

  lemma RunMeans(r: seq<State>, i: nat)
    requires Run(r) && i + 1 < |r|
    ensures Next(r[i], r[i + 1])
  {
  }

  lemma AcceptedStays(s: State, s': State, n: nat)
    requires Next(s, s') && n in s.accepted
    ensures n in s'.accepted
  {
  }

  lemma AcceptedHarmless(s: State, n: nat)
    requires Inv(s) && n in s.accepted
    ensures s.closer != Some(ByWatch(n)) && s.canceled != Some(n)
  {
  }

  // ------------------------------------------------------ finish returns

  predicate WatcherStep(step: Step)
  {
    step.Receive? || step.SeeDone? || step.SeeClosed? || step.SetCanceled? || step.WatchSwap? || step.WatchClose?
  }

  /** Steps the watcher can still make before finish can return. */
  function Rank(s: State): nat
  {
    match s.watch
    case Waiting => if s.slot.Some? then 6 else 0
    case Watching(_) => 5
    case Canceling(_) => 4
    case Canceled(_) => 3
    case Shutting(_) => 2
    case Gone => 0
  }

  predicate CanReturn(s: State) { Enabled(s, FinishAccepted) || Enabled(s, FinishClosed) }

  /** finish always returns: while it waits, either it can return at once or the watcher can move,
      every move of the watcher brings it nearer, and once closech is closed it stays able to
      return. */
  lemma FinishReturns(s: State)
    requires Inv(s) && s.conn.Finishing?
    ensures CanReturn(s) || exists step: Step :: WatcherStep(step) && Enabled(s, step)
  {
    match s.watch {
      case Waiting =>
        if s.slot.Some? { assert Enabled(s, Receive); }
      case Watching(_) =>
      case Canceling(_) => assert Enabled(s, SetCanceled);
      case Canceled(_) => assert Enabled(s, WatchSwap);
      case Shutting(_) => assert Enabled(s, WatchClose);
      case Gone =>
    }
  }

  lemma WatcherComesNearer(s: State, step: Step)
    requires Inv(s) && s.conn.Finishing? && WatcherStep(step) && Enabled(s, step)
    ensures Do(s, step).conn.Finishing?
    ensures Rank(Do(s, step)) < Rank(s) || (s.closech && CanReturn(Do(s, step)))
  {
  }

  /** After closech is closed the watcher goroutine ends: it can always move on, and each move
      brings it nearer to its return. */
  lemma WatcherEnds(s: State)
    requires Inv(s) && s.closech && !s.watch.Gone?
    ensures exists step: Step :: WatcherStep(step) && Enabled(s, step)
  {
    match s.watch {
      case Waiting => assert Enabled(s, SeeClosed);
      case Watching(_) => assert Enabled(s, SeeClosed);
      case Canceling(_) => assert Enabled(s, SetCanceled);
      case Canceled(_) => assert Enabled(s, WatchSwap);
      case Shutting(_) => assert false;
      case Gone =>
    }
  }

  function Remaining(s: State): nat
  {
    match s.watch
    case Waiting => if s.slot.Some? then 6 else 1
    case Watching(_) => 5
    case Canceling(_) => 4
    case Canceled(_) => 3
    case Shutting(_) => 2
    case Gone => 0
  }

  lemma WatcherShrinks(s: State, step: Step)
    requires Inv(s) && WatcherStep(step) && Enabled(s, step)
    ensures Remaining(Do(s, step)) < Remaining(s)
  {
  }
}
