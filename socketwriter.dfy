/** TcpSocketWriter: queues strings and writes them, one at a time and in order, to a stream
    that it reopens after a failure; on shutdown it stops accepting entries and drains. */
module SocketWriter {
  import opened Common
  import opened Exceptions
  import opened Queues
  import opened Reconnection
  import opened Drain

  const DefaultMaxQueueSize: nat := 5000
  const DefaultTimeoutMs: int := 30000

  /** Walks the inner-exception chain of `ex` and hands `ex`, with the code of the first
      SocketException found (None when there is none), to the logging callback once. */
  method UnexpectedErrorLogger(ex: Exn) returns (logged: Exn, code: Option<int>)
    ensures logged == ex
    ensures code == FirstSocketCode(Some(ex))
  {
    code := None;
    var current: Option<Exn> := Some(ex);
    // The source's do-while: its first test (no code yet, current not null) always holds.
    while code.None? && current.Some?
      invariant code.None? ==> FirstSocketCode(current) == FirstSocketCode(Some(ex))
      invariant code.Some? ==> code == FirstSocketCode(Some(ex))
      decreases current
    {
      if current.value.kind.SocketException? {
        code := Some(current.value.kind.code);
      }
      current := current.value.inner;
    }
    logged := ex;
  }

  /** The stream a connect attempt left behind: null unless it connected. */
  function StreamOf(c: Connection): (s: Option<nat>)
    ensures s.Some? <==> c.Connected?
    ensures c.Connected? ==> s.value == c.stream
  {
    if c.Connected? then Some(c.stream) else None
  }

  lemma InOrderWrite(before: seq<string>, after: seq<string>, x: string, rest: seq<string>, orig: seq<string>)
    requires InOrder(before, after, [x] + rest, orig)
    ensures InOrder(before, after + [x], rest, orig)
  {
    assert (after + [x])[..|before|] == after[..|before|];
    assert (after + [x])[|before|..] == after[|before|..] + [x];
  }

  /** Taking the head of the queue into the held entry leaves what is pending as it was. */
  lemma TakeKeepsPending(q: seq<string>, x: string, rest: seq<string>)
    requires q != [] && x == q[0] && rest == q[1..]
    ensures Held(Some(x)) + rest == Held(None) + q
  {
    assert Held(Some(x)) + rest == q;
  }

  /** Once everything pending is written, the wire is the old wire followed by all of it. */
  lemma InOrderDelivered(before: seq<string>, after: seq<string>, pending: seq<string>, orig: seq<string>)
    requires InOrder(before, after, pending, orig)
    ensures after + pending == before + orig
  {
    assert after == after[..|before|] + after[|before|..];
  }

  /** A drain that accounted for everything pending from the middle of the loop accounts for
      everything the loop started with. */
  lemma DrainDelivered(before: seq<string>, mid: seq<string>, after: seq<string>, entry: Option<string>,
                       q: seq<string>, left: Option<string>, orig: seq<string>)
    requires InOrder(before, mid, Held(entry) + q, orig)
    requires after + Held(left) == mid + Held(entry) + q
    ensures after + Held(left) == before + orig
    ensures left == None ==> after == before + orig
  {
    InOrderDelivered(before, mid, Held(entry) + q, orig);
    Reassociate(mid, Held(entry), q);
    AppendEmpty(after);
  }

  /** The write failures after which Run reports the exception and reopens the stream. */
  predicate Reopens(o: WriteOutcome) {
    o.WriteThrew? && (o.e.kind.IOException? || o.e.kind.SocketException?)
  }

  /** How many of Run's first `n` writes were followed by a reopen. */
  function ReopenCount(write: nat -> WriteOutcome, n: nat): (k: nat)
    ensures k <= n
  {
    if n == 0 then 0 else ReopenCount(write, n - 1) + (if Reopens(write(n - 1)) then 1 else 0)
  }

  /** The outcome of reopen number `k`. */
  function Reopened(reopenAttempt: nat -> nat -> ConnectOutcome, reopenCancelAt: nat -> nat, k: nat): Connection {
    ConnectFrom(reopenAttempt(k), 0, reopenCancelAt(k)).0
  }

  /** The failed connect attempts of reopen number `k`, as OpenSocket reports them. */
  function ReopenReports(reopenAttempt: nat -> nat -> ConnectOutcome, reopenCancelAt: nat -> nat, k: nat): seq<Exn> {
    Reports(reopenAttempt(k), ConnectFrom(reopenAttempt(k), 0, reopenCancelAt(k)).1)
  }

  /** What Run hands to the failure handler over its first `n` writes: each failure that
      leads to a reopen, followed by the failed connect attempts of that reopen. */
  function RunReports(write: nat -> WriteOutcome, reopenAttempt: nat -> nat -> ConnectOutcome,
                      reopenCancelAt: nat -> nat, n: nat): seq<Exn>
  {
    if n == 0 then []
    else RunReports(write, reopenAttempt, reopenCancelAt, n - 1) +
         (if Reopens(write(n - 1))
          then [write(n - 1).e] + ReopenReports(reopenAttempt, reopenCancelAt, ReopenCount(write, n - 1))
          else [])
  }

  /** Run's reports after one more write: the same when the write does not lead to a reopen,
      and otherwise the failure followed by the reports of its reopen. */
  lemma RunReportsStep(write: nat -> WriteOutcome, reopenAttempt: nat -> nat -> ConnectOutcome,
                       reopenCancelAt: nat -> nat, n: nat, base: seq<Exn>, notes: seq<Exn>, notes': seq<Exn>)
    requires notes == base + RunReports(write, reopenAttempt, reopenCancelAt, n)
    requires notes' == if Reopens(write(n))
                       then notes + [write(n).e] + ReopenReports(reopenAttempt, reopenCancelAt, ReopenCount(write, n))
                       else notes
    ensures ReopenCount(write, n + 1) == ReopenCount(write, n) + (if Reopens(write(n)) then 1 else 0)
    ensures notes' == base + RunReports(write, reopenAttempt, reopenCancelAt, n + 1)
  {
    var before := RunReports(write, reopenAttempt, reopenCancelAt, n);
    if Reopens(write(n)) {
      Reassociate3(base, before, [write(n).e], ReopenReports(reopenAttempt, reopenCancelAt, ReopenCount(write, n)));
    } else {
      AppendEmpty(before);
    }
  }

  /** Why Run returned: its stream became null, shutdown drained the queue, a blocking take
      found the queue empty, or an exception escaped the loop. */
  datatype RunEnd = StreamClosed | Drained(flush: FlushEnd) | TakeBlocked | RunThrew(e: Exn)

  class TcpSocketWriter {
    const queue: FixedSizeQueue<string>
    const writeTimeoutMs: int
    const disposeTimeoutMs: int
    /** The live stream, None for null. */
    var stream: Option<nat>
    /** Set by Dispose: the soft and the hard cancellation requests. */
    var disposing: bool
    var forceQuit: bool
    /** The entries written and flushed so far, in order. */
    ghost var wire: seq<string>
    /** The exceptions passed to the failure handler, in order. */
    ghost var notes: seq<Exn>

    ghost predicate Valid()
      reads this, queue
    {
      queue.Valid()
    }

    /** A writer over a fresh queue, and the first connect its background task makes before
        the write loop starts: `attempt(k)` is the outcome of its k-th OpenSocket call and the
        disposing token is first seen set by test number `cancelAt`. OpenSocket reports every
        failed attempt; an exception that escapes the connect is reported once more by the
        task's catch. */
    constructor (maxQueueSize: nat, writeTimeoutMs: Option<int>, disposeTimeoutMs: Option<int>,
                 attempt: nat -> ConnectOutcome, cancelAt: nat)
      ensures Valid() && fresh(queue)
      ensures queue.size == maxQueueSize && queue.items == [] && !queue.isCompleted
      ensures this.writeTimeoutMs == writeTimeoutMs.GetOr(DefaultTimeoutMs)
      ensures this.disposeTimeoutMs == disposeTimeoutMs.GetOr(DefaultTimeoutMs)
      ensures wire == [] && !disposing && !forceQuit
      ensures var (first, tries) := ConnectFrom(attempt, 0, cancelAt);
        stream == StreamOf(first) &&
        notes == Reports(attempt, tries) + (if first.Propagated? then [first.e] else [])
    {
      queue := new FixedSizeQueue<string>(maxQueueSize);
      this.writeTimeoutMs := writeTimeoutMs.GetOr(DefaultTimeoutMs);
      this.disposeTimeoutMs := disposeTimeoutMs.GetOr(DefaultTimeoutMs);
      var first, tries, _ := ConnectAsync(attempt, cancelAt);
      stream := StreamOf(first);
      disposing, forceQuit := false, false;
      wire := [];
      notes := Reports(attempt, tries) + (if first.Propagated? then [first.e] else []);
    }

    /** Pushes an entry onto the queue (drop-oldest), failing once the queue is complete. */
    method Enqueue(entry: string) returns (r: Outcome<QueueError>)
      requires Valid()
      modifies queue
      ensures Valid() && queue.isCompleted == old(queue.isCompleted)
      ensures old(queue.isCompleted) ==> r == Fail(AddToCompletedQueue) && queue.items == old(queue.items)
      ensures !old(queue.isCompleted) ==> r == Pass && queue.items == Newest(old(queue.items) + [entry], queue.size)
    {
      r := queue.Enqueue(entry);
    }

    /** The drain loop of shutdown. It writes each entry to the current stream without
        reconnecting, retries a held entry after a SocketException, lets any other exception
        escape, and stops when the force-quit token is seen. `write(k)` is the outcome of the
        k-th write; the token is first seen set by test number `forceQuitAt` of this call.
        With `untilHeldWritten` false the loop runs only while the queue is non-empty, as in
        the source; with it true it also runs while an entry is held. */
    method FlushQueue(entry: Option<string>, write: nat -> WriteOutcome, firstWrite: nat,
                      forceQuitAt: nat, untilHeldWritten: bool)
      returns (end: FlushEnd, held: Option<string>, writes: nat)
      requires Valid()
      modifies this`wire, this`notes, queue
      ensures Valid() && queue.isCompleted == old(queue.isCompleted)
      ensures var (r, e) := Flush(DrainState(entry, old(queue.items), old(wire), old(notes), firstWrite, 0),
                                  stream, write, forceQuitAt, untilHeldWritten);
        end == e && held == r.entry && queue.items == r.items && wire == r.wire &&
        notes == r.notes && writes == r.writes
    {
      ghost var start := DrainState(entry, queue.items, wire, notes, firstWrite, 0);
      var current := entry;
      var checks: nat := 0;
      writes := firstWrite;
      while queue.Count() > 0 || (untilHeldWritten && current.Some?)
        invariant Valid() && queue.isCompleted == old(queue.isCompleted)
        invariant checks <= forceQuitAt
        invariant Flush(DrainState(current, queue.items, wire, notes, writes, checks), stream, write, forceQuitAt, untilHeldWritten)
               == Flush(start, stream, write, forceQuitAt, untilHeldWritten)
        decreases forceQuitAt - checks
      {
        ghost var d := DrainState(current, queue.items, wire, notes, writes, checks);
        assert Continues(d, untilHeldWritten);
        if checks == forceQuitAt {
          FlushStop(d, stream, write, forceQuitAt, untilHeldWritten, d.(checks := checks + 1), ForcedQuit);
          return ForcedQuit, current, writes;
        }
        checks := checks + 1;
        if current.None? {
          current := queue.Dequeue();
          FlushNext(d, stream, write, forceQuitAt, untilHeldWritten,
                    DrainState(current, queue.items, wire, notes, writes, checks));
        } else if stream.None? {
          // Not reachable from Run, which drains only while it has a stream.
          if checks == forceQuitAt {
            FlushStop(d, stream, write, forceQuitAt, untilHeldWritten, d.(checks := checks + 1), ForcedQuit);
            return ForcedQuit, current, writes;
          }
          checks := checks + 1;
          notes := notes + [NullStream];
          FlushNext(d, stream, write, forceQuitAt, untilHeldWritten,
                    DrainState(current, queue.items, wire, notes, writes, checks));
        } else {
          var outcome := write(writes);
          writes := writes + 1;
          if outcome.Written? {
            wire := wire + [current.value];
            current := None;
            FlushNext(d, stream, write, forceQuitAt, untilHeldWritten,
                      DrainState(current, queue.items, wire, notes, writes, checks));
          } else if !outcome.e.kind.SocketException? {
            FlushStop(d, stream, write, forceQuitAt, untilHeldWritten,
                      DrainState(current, queue.items, wire, notes, writes, checks), FlushThrew(outcome.e));
            return FlushThrew(outcome.e), current, writes;
          } else if checks == forceQuitAt {
            FlushStop(d, stream, write, forceQuitAt, untilHeldWritten,
                      DrainState(current, queue.items, wire, notes, writes, checks + 1), ForcedQuit);
            return ForcedQuit, current, writes;
          } else {
            checks := checks + 1;
            notes := notes + [outcome.e];
            FlushNext(d, stream, write, forceQuitAt, untilHeldWritten,
                      DrainState(current, queue.items, wire, notes, writes, checks));
          }
        }
      }
      end, held := QueueEmpty, current;
    }

    /** Run's shutdown branch: mark the queue complete, so that no more entries are added, then
        drain it starting from the held entry, with the guard chosen by `untilHeldWritten`. */
    method CompleteAndDrain(entry: Option<string>, write: nat -> WriteOutcome, firstWrite: nat,
                            forceQuitAt: nat, untilHeldWritten: bool)
      returns (end: FlushEnd, held: Option<string>, writes: nat)
      requires Valid() && stream.Some?
      modifies this`wire, this`notes, queue
      ensures Valid() && queue.isCompleted && firstWrite <= writes
      ensures InOrder(old(wire), wire, Held(held) + queue.items, Held(entry) + old(queue.items))
      ensures end == QueueEmpty ==>
        queue.items == [] && wire + Held(held) == old(wire) + Held(entry) + old(queue.items)
      ensures end == QueueEmpty && untilHeldWritten ==> held == None
      ensures Reported(old(notes), notes, write, firstWrite, writes, end)
    {
      queue.CompleteAdding();
      ghost var d := DrainState(entry, queue.items, wire, notes, firstWrite, 0);
      FlushKeepsOrder(d, stream, write, forceQuitAt, untilHeldWritten);
      FlushReportsFailures(d, stream, write, forceQuitAt, untilHeldWritten);
      if Flush(d, stream, write, forceQuitAt, untilHeldWritten).1 == QueueEmpty {
        FlushEmptyMeansDelivered(d, stream, write, forceQuitAt, untilHeldWritten);
      }
      end, held, writes := FlushQueue(entry, write, firstWrite, forceQuitAt, untilHeldWritten);
    }

    /** Run's catch of an IOException or a SocketException: report `e`, then make reopen number
        `k` through the connect loop, scripted as the constructor's first connect is. An
        exception that escapes the connect is returned in `escaped`, and the stream is then
        left as it was. */
    method Reopen(e: Exn, reopenAttempt: nat -> nat -> ConnectOutcome, reopenCancelAt: nat -> nat, k: nat)
      returns (escaped: Option<Exn>)
      modifies this`stream, this`notes
      ensures notes == old(notes) + [e] + ReopenReports(reopenAttempt, reopenCancelAt, k)
      ensures var r := Reopened(reopenAttempt, reopenCancelAt, k);
        escaped == (if r.Propagated? then Some(r.e) else None) &&
        stream == (if r.Propagated? then old(stream) else StreamOf(r))
    {
      notes := notes + [e];
      var reopened, tries, _ := ConnectAsync(reopenAttempt(k), reopenCancelAt(k));
      notes := notes + Reports(reopenAttempt(k), tries);
      if reopened.Propagated? {
        return Some(reopened.e);
      }
      stream := StreamOf(reopened);
      escaped := None;
    }

    /** The write loop. It holds one entry at a time, writes it, and lets go of it only once
        the write and flush succeeded; after an IOException or a SocketException it reports
        the exception, reopens the stream through the connect loop and writes the same entry
        again. Once the disposing token is seen it completes the queue and drains it.
        `write(k)` is the outcome of the k-th write, `reopenAttempt(j)` and `reopenCancelAt(j)`
        script the j-th reopen as the constructor's arguments script the first connect; the
        disposing token is first seen set by test number `disposeAt`, and the drain's
        force-quit token by its test number `forceQuitAt`. `untilHeldWritten` chooses the
        drain's guard; false is the source as written. A take from an empty queue would block
        until it is cancelled; here Run returns TakeBlocked. `loopWrites` counts the writes of
        the loop and `writes` those of the loop and the drain together. */
    method Run(disposeAt: nat, write: nat -> WriteOutcome, reopenAttempt: nat -> nat -> ConnectOutcome,
               reopenCancelAt: nat -> nat, forceQuitAt: nat, untilHeldWritten: bool)
      returns (end: RunEnd, held: Option<string>, loopWrites: nat, writes: nat)
      requires Valid()
      modifies this`stream, this`wire, this`notes, queue
      ensures Valid()
      ensures InOrder(old(wire), wire, Held(held) + queue.items, old(queue.items))
      ensures end.Drained? ==> queue.isCompleted
      ensures !end.Drained? ==> queue.isCompleted == old(queue.isCompleted)
      ensures end == Drained(QueueEmpty) ==>
        queue.items == [] && wire + Held(held) == old(wire) + old(queue.items)
      ensures end == Drained(QueueEmpty) && untilHeldWritten ==>
        held == None && wire == old(wire) + old(queue.items)
      ensures end == StreamClosed <==> stream == None
      ensures end == TakeBlocked ==> held == None && queue.items == []
      ensures !end.Drained? ==>
        writes == loopWrites && notes == old(notes) + RunReports(write, reopenAttempt, reopenCancelAt, loopWrites)
      ensures end.Drained? ==>
        Reported(old(notes) + RunReports(write, reopenAttempt, reopenCancelAt, loopWrites), notes,
                 write, loopWrites, writes, end.flush)
    {
      ghost var wire0, notes0, orig := wire, notes, queue.items;
      ghost var pending := orig;
      var entry: Option<string> := None;
      var tests, reopens := 0, 0;
      writes := 0;
      while stream.Some?
        invariant Valid() && queue.isCompleted == old(queue.isCompleted)
        invariant tests <= disposeAt
        invariant pending == Held(entry) + queue.items
        invariant InOrder(wire0, wire, pending, orig)
        invariant reopens == ReopenCount(write, writes)
        invariant notes == notes0 + RunReports(write, reopenAttempt, reopenCancelAt, writes)
        decreases disposeAt - tests
      {
        if tests == disposeAt {
          ghost var w, q := wire, queue.items;
          loopWrites := writes;
          var flushed, left;
          flushed, left, writes := CompleteAndDrain(entry, write, writes, forceQuitAt, untilHeldWritten);
          InOrderCompose(wire0, w, wire, pending, Held(left) + queue.items, orig);
          if flushed == QueueEmpty {
            DrainDelivered(wire0, w, wire, entry, q, left, orig);
          }
          return Drained(flushed), left, loopWrites, writes;
        }
        tests := tests + 1;
        if entry.None? {
          ghost var q := queue.items;
          entry := queue.Dequeue();
          if entry.None? {
            return TakeBlocked, None, writes, writes;
          }
          TakeKeepsPending(q, entry.value, queue.items);
        } else {
          var outcome := write(writes);
          ghost var before := notes;
          if outcome.Written? {
            InOrderWrite(wire0, wire, entry.value, queue.items, orig);
            wire := wire + [entry.value];
            entry, pending := None, queue.items;
          } else if Reopens(outcome) {
            ghost var w, q := wire, queue.items;
            var escaped := Reopen(outcome.e, reopenAttempt, reopenCancelAt, reopens);
            assert wire == w && queue.items == q;
            RunReportsStep(write, reopenAttempt, reopenCancelAt, writes, notes0, before, notes);
            reopens, writes := reopens + 1, writes + 1;
            if escaped.Some? {
              return RunThrew(escaped.value), entry, writes, writes;
            }
            continue;
          }
          RunReportsStep(write, reopenAttempt, reopenCancelAt, writes, notes0, before, notes);
          writes := writes + 1;
          if !outcome.Written? {
            return RunThrew(outcome.e), entry, writes, writes;
          }
        }
      }
      end, held, loopWrites := StreamClosed, entry, writes;
    }

    /** Requests shutdown: the soft cancellation, then (after the dispose timeout, not modelled)
        the hard one. Both requests are idempotent. */
    method Dispose()
      modifies this`disposing, this`forceQuit
      ensures disposing && forceQuit
    {
      disposing := true;
      forceQuit := true;
    }
  }
}
