/** The drain performed by TcpSocketWriter.FlushQueue during shutdown, as a function of the
    state it starts from. The guard of the loop is a parameter: `untilHeldWritten == false` is
    the source as written (`while Count > 0`), `true` also keeps going while an entry is held. */
module Drain {
  import opened Common
  import opened Exceptions

  /** What one write-and-flush of an entry did. */
  datatype WriteOutcome = Written | WriteThrew(e: Exn)

  /** The loop's state: the held entry, the queue, the ghost wire and failure notifications,
      how many write outcomes have been used and how many force-quit tests were made. */
  datatype DrainState = DrainState(
    entry: Option<string>,
    items: seq<string>,
    wire: seq<string>,
    notes: seq<Exn>,
    writes: nat,
    checks: nat)

  /** Why the drain stopped. */
  datatype FlushEnd = QueueEmpty | ForcedQuit | FlushThrew(e: Exn)

  /** The exception FlushQueue reports when it holds an entry but has no stream. */
  const NullStream := Exn(InvalidOperationException, None)

  /** True while the drain loop keeps going. */
  predicate Continues(d: DrainState, untilHeldWritten: bool) {
    |d.items| > 0 || (untilHeldWritten && d.entry.Some?)
  }

  /** The result of one iteration of the drain loop: go on from a new state, or stop. */
  datatype Step = Next(d: DrainState) | Stop(d: DrainState, end: FlushEnd)

  /** One iteration of the drain loop: `write(k)` is the outcome of the k-th write, `stream`
      the stream (None for null), and the force-quit token is first seen set by test number
      `forceQuitAt` (tests are counted in `checks`). */
  function Iterate(d: DrainState, stream: Option<nat>, write: nat -> WriteOutcome, forceQuitAt: nat): (s: Step)
    requires d.checks <= forceQuitAt
    requires d.entry.Some? || d.items != []
    ensures s.Next? ==> d.checks < s.d.checks <= forceQuitAt
    ensures d.writes <= s.d.writes <= d.writes + 1
  {
    if d.checks == forceQuitAt then Stop(d.(checks := d.checks + 1), ForcedQuit)
    else
      var d1 := d.(checks := d.checks + 1);
      if d1.entry.None? then Next(d1.(entry := Some(d1.items[0]), items := d1.items[1..]))
      else if stream.None? then
        if d1.checks == forceQuitAt then Stop(d1.(checks := d1.checks + 1), ForcedQuit)
        else Next(d1.(checks := d1.checks + 1, notes := d1.notes + [NullStream]))
      else
        var d2 := d1.(writes := d1.writes + 1);
        match write(d1.writes)
        case Written => Next(d2.(wire := d2.wire + [d2.entry.value], entry := None))
        case WriteThrew(e) =>
          if !e.kind.SocketException? then Stop(d2, FlushThrew(e))
          else if d2.checks == forceQuitAt then Stop(d2.(checks := d2.checks + 1), ForcedQuit)
          else Next(d2.(checks := d2.checks + 1, notes := d2.notes + [e]))
  }

  /** The whole drain loop from `d`. */
  function Flush(d: DrainState, stream: Option<nat>, write: nat -> WriteOutcome,
                 forceQuitAt: nat, untilHeldWritten: bool): (r: (DrainState, FlushEnd))
    requires d.checks <= forceQuitAt
    ensures d.writes <= r.0.writes
    ensures r.1 == QueueEmpty ==> r.0.items == [] && (untilHeldWritten ==> r.0.entry == None)
    decreases forceQuitAt - d.checks
  {
    if !Continues(d, untilHeldWritten) then (d, QueueEmpty)
    else
      match Iterate(d, stream, write, forceQuitAt)
      case Stop(d1, e) => (d1, e)
      case Next(d1) => Flush(d1, stream, write, forceQuitAt, untilHeldWritten)
  }

  /** Where the loop goes on after an iteration, the drain from before it is the drain from after it. */
  lemma FlushNext(d: DrainState, stream: Option<nat>, write: nat -> WriteOutcome, forceQuitAt: nat,
                  untilHeldWritten: bool, d1: DrainState)
    requires d.checks <= forceQuitAt && Continues(d, untilHeldWritten)
    requires Iterate(d, stream, write, forceQuitAt) == Next(d1)
    ensures Flush(d, stream, write, forceQuitAt, untilHeldWritten) == Flush(d1, stream, write, forceQuitAt, untilHeldWritten)
  {
  }

  /** Where the loop stops in an iteration, the drain ends there. */
  lemma FlushStop(d: DrainState, stream: Option<nat>, write: nat -> WriteOutcome, forceQuitAt: nat,
                  untilHeldWritten: bool, d1: DrainState, e: FlushEnd)
    requires d.checks <= forceQuitAt && Continues(d, untilHeldWritten)
    requires Iterate(d, stream, write, forceQuitAt) == Stop(d1, e)
    ensures Flush(d, stream, write, forceQuitAt, untilHeldWritten) == (d1, e)
  {
  }

  /** What the queue held plus the held entry, in order. */
  function Pending(d: DrainState): seq<string> {
    Held(d.entry) + d.items
  }

  /** `after` extends the wire `before`, and what was added, followed by what is still
      `pending`, is `orig`: nothing skipped, duplicated or reordered. */
  ghost predicate InOrder(before: seq<string>, after: seq<string>, pending: seq<string>, orig: seq<string>) {
    |before| <= |after| && after[..|before|] == before && after[|before|..] + pending == orig
  }

  lemma InOrderCompose(before: seq<string>, mid: seq<string>, after: seq<string>,
                       pending: seq<string>, pending': seq<string>, orig: seq<string>)
    requires InOrder(before, mid, pending, orig) && InOrder(mid, after, pending', pending)
    ensures InOrder(before, after, pending', orig)
  {
    assert after[..|before|] == mid[..|before|];
    assert after[|before|..] == mid[|before|..] + after[|mid|..];
  }

  /** `d'` follows `d` on the wire: what the wire gained is the front of what was pending in
      `d`, the rest being still pending in `d'`. */
  ghost predicate Follows(d: DrainState, d': DrainState) {
    InOrder(d.wire, d'.wire, Pending(d'), Pending(d))
  }

  lemma FollowsTransitive(a: DrainState, b: DrainState, c: DrainState)
    requires Follows(a, b) && Follows(b, c)
    ensures Follows(a, c)
  {
    InOrderCompose(a.wire, b.wire, c.wire, Pending(b), Pending(c), Pending(a));
  }

  /** One iteration keeps the order of what is pending. */
  lemma IterateKeepsOrder(d: DrainState, stream: Option<nat>, write: nat -> WriteOutcome, forceQuitAt: nat)
    requires d.checks <= forceQuitAt
    requires d.entry.Some? || d.items != []
    ensures Follows(d, Iterate(d, stream, write, forceQuitAt).d)
  {
    var d' := Iterate(d, stream, write, forceQuitAt).d;
    if d'.wire != d.wire {
      assert d'.wire == d.wire + [d.entry.value];
      assert d'.wire[|d.wire|..] == [d.entry.value];
      assert Pending(d) == [d.entry.value] + d.items;
    } else {
      assert d'.wire[|d.wire|..] == [];
      if d.checks < forceQuitAt && d.entry.None? {
        assert Pending(d') == [d.items[0]] + d.items[1..];
      }
    }
  }

  /** The drain only appends to the wire, and what it appends is the front of what was
      pending: nothing is skipped, duplicated or reordered, whatever the writes do. */
  lemma {:induction false} FlushKeepsOrder(d: DrainState, stream: Option<nat>, write: nat -> WriteOutcome,
                                           forceQuitAt: nat, untilHeldWritten: bool)
    requires d.checks <= forceQuitAt
    ensures Follows(d, Flush(d, stream, write, forceQuitAt, untilHeldWritten).0)
    decreases forceQuitAt - d.checks
  {
    if Continues(d, untilHeldWritten) {
      IterateKeepsOrder(d, stream, write, forceQuitAt);
      match Iterate(d, stream, write, forceQuitAt)
      case Stop(d1, e) =>
      case Next(d1) =>
        FlushKeepsOrder(d1, stream, write, forceQuitAt, untilHeldWritten);
        FollowsTransitive(d, d1, Flush(d1, stream, write, forceQuitAt, untilHeldWritten).0);
    } else {
      assert d.wire[..|d.wire|] == d.wire && d.wire[|d.wire|..] == [];
    }
  }

  /** Force-quit tests a drain of `d` can still make before it has written everything. */
  function Budget(d: DrainState): nat {
    2 * |d.items| + |Held(d.entry)|
  }

  /** As written (`while Count > 0`), a drain over a healthy stream that is never forced to quit
      still ends with the last pending entry taken but never written: the guard is tested after
      the take and before the write, and a held entry with an empty queue is not written at all. */
  lemma {:induction false} FlushAsWrittenLosesLastEntry(d: DrainState, stream: Option<nat>,
                                                       write: nat -> WriteOutcome, forceQuitAt: nat)
    requires stream.Some? && forall k :: write(k) == Written
    requires Pending(d) != [] && d.checks + Budget(d) < forceQuitAt
    ensures var (r, end) := Flush(d, stream, write, forceQuitAt, false);
      var p := Pending(d);
      end == QueueEmpty && r.items == [] && r.entry == Some(p[|p| - 1]) && r.wire == d.wire + p[..|p| - 1]
    decreases forceQuitAt - d.checks
  {
    var p := Pending(d);
    if d.items == [] {
      assert p == [d.entry.value];
    } else if d.entry.None? {
      var n := d.(checks := d.checks + 1, entry := Some(d.items[0]), items := d.items[1..]);
      FlushNext(d, stream, write, forceQuitAt, false, n);
      assert Pending(n) == p;
      FlushAsWrittenLosesLastEntry(n, stream, write, forceQuitAt);
    } else {
      var n := d.(checks := d.checks + 1, writes := d.writes + 1, wire := d.wire + [d.entry.value], entry := None);
      assert write(d.writes) == Written;
      FlushNext(d, stream, write, forceQuitAt, false, n);
      assert p == [d.entry.value] + Pending(n);
      assert p[..|p| - 1] == [d.entry.value] + Pending(n)[..|Pending(n)| - 1];
      FlushAsWrittenLosesLastEntry(n, stream, write, forceQuitAt);
    }
  }

  /** A counterexample: an entry taken from the queue just before the drain starts, with
      nothing queued behind it, never reaches the wire. */
  lemma FlushAsWrittenDropsHeldEntry(x: string, write: nat -> WriteOutcome)
    requires forall k :: write(k) == Written
    ensures var (r, end) := Flush(DrainState(Some(x), [], [], [], 0, 0), Some(0), write, 10, false);
      end == QueueEmpty && r.wire == [] && r.entry == Some(x)
  {
    FlushAsWrittenLosesLastEntry(DrainState(Some(x), [], [], [], 0, 0), Some(0), write, 10);
  }

  /** A counterexample: the single queued entry of a healthy drain never reaches the wire. */
  lemma FlushAsWrittenDropsSingleEntry(x: string, write: nat -> WriteOutcome)
    requires forall k :: write(k) == Written
    ensures var (r, end) := Flush(DrainState(None, [x], [], [], 0, 0), Some(0), write, 10, false);
      end == QueueEmpty && r.wire == [] && r.entry == Some(x)
  {
    var d := DrainState(None, [x], [], [], 0, 0);
    assert Pending(d) == [x];
    FlushAsWrittenLosesLastEntry(d, Some(0), write, 10);
  }

  /** With the corrected guard (go on while an entry is held or the queue is non-empty), a
      drain over a healthy stream that is never forced to quit writes every pending entry. */
  lemma {:induction false} FlushCorrectedWritesAll(d: DrainState, stream: Option<nat>,
                                                  write: nat -> WriteOutcome, forceQuitAt: nat)
    requires stream.Some? && forall k :: write(k) == Written
    requires d.checks + Budget(d) < forceQuitAt
    ensures var (r, end) := Flush(d, stream, write, forceQuitAt, true);
      end == QueueEmpty && r.items == [] && r.entry == None && r.wire == d.wire + Pending(d)
    decreases forceQuitAt - d.checks
  {
    if Continues(d, true) {
      var n := Iterate(d, stream, write, forceQuitAt).d;
      if d.entry.Some? {
        assert write(d.writes) == Written;
      }
      FlushCorrectedWritesAll(n, stream, write, forceQuitAt);
      if d.entry.None? {
        assert Pending(d) == Pending(n);
      }
    }
  }

  /** A drain that ends because the queue is empty has written everything that was pending
      except the entry it may still hold, whatever failures it retried on the way; with the
      corrected guard it holds none, so everything was written. */
  lemma FlushEmptyMeansDelivered(d: DrainState, stream: Option<nat>, write: nat -> WriteOutcome,
                                 forceQuitAt: nat, untilHeldWritten: bool)
    requires d.checks <= forceQuitAt
    requires Flush(d, stream, write, forceQuitAt, untilHeldWritten).1 == QueueEmpty
    ensures var r := Flush(d, stream, write, forceQuitAt, untilHeldWritten).0;
      r.wire + Held(r.entry) == d.wire + Pending(d) &&
      (untilHeldWritten ==> r.wire == d.wire + Pending(d))
  {
    FlushKeepsOrder(d, stream, write, forceQuitAt, untilHeldWritten);
    var r := Flush(d, stream, write, forceQuitAt, untilHeldWritten).0;
    assert Pending(r) == Held(r.entry);
    assert r.wire == r.wire[..|d.wire|] + r.wire[|d.wire|..];
  }

  /** The exceptions of the writes numbered `from` to `to - 1` that threw, in order. */
  function Failures(write: nat -> WriteOutcome, from: nat, to: nat): seq<Exn>
    decreases to
  {
    if to <= from then []
    else Failures(write, from, to - 1) + (if write(to - 1).WriteThrew? then [write(to - 1).e] else [])
  }

  lemma {:induction false} FailuresSplit(write: nat -> WriteOutcome, a: nat, b: nat, c: nat)
    requires a <= b <= c
    ensures Failures(write, a, c) == Failures(write, a, b) + Failures(write, b, c)
    decreases c
  {
    if b < c {
      FailuresSplit(write, a, b, c - 1);
    }
  }

  /** The failure handler was told, from `before` to `after`, of every failed write numbered
      `from` to `to - 1`, except that a drain which stopped on a failed write (an exception that
      escapes, or a socket failure after which it is forced to quit) has not reported that one. */
  ghost predicate Reported(before: seq<Exn>, after: seq<Exn>, write: nat -> WriteOutcome,
                           from: nat, to: nat, end: FlushEnd) {
    after == before + Failures(write, from, to) ||
    (end != QueueEmpty && from < to && write(to - 1).WriteThrew? &&
     after + [write(to - 1).e] == before + Failures(write, from, to))
  }

  /** Reports of writes `a` to `b - 1`, then of writes `b` to `c - 1`, are reports of writes
      `a` to `c - 1`. */
  lemma ReportedCompose(before: seq<Exn>, mid: seq<Exn>, after: seq<Exn>, write: nat -> WriteOutcome,
                        a: nat, b: nat, c: nat, end: FlushEnd)
    requires a <= b <= c
    requires mid == before + Failures(write, a, b) && Reported(mid, after, write, b, c, end)
    ensures Reported(before, after, write, a, c, end)
  {
    FailuresSplit(write, a, b, c);
  }

  /** One iteration over a stream reports the write it made if that write failed and the loop
      goes on. */
  lemma IterateReports(d: DrainState, stream: Option<nat>, write: nat -> WriteOutcome, forceQuitAt: nat)
    requires d.checks <= forceQuitAt && stream.Some?
    requires d.entry.Some? || d.items != []
    ensures match Iterate(d, stream, write, forceQuitAt)
      case Next(d1) => d1.notes == d.notes + Failures(write, d.writes, d1.writes)
      case Stop(d1, end) => end != QueueEmpty && Reported(d.notes, d1.notes, write, d.writes, d1.writes, end)
  {
    var s := Iterate(d, stream, write, forceQuitAt);
    if s.d.writes == d.writes {
      assert s.d.notes == d.notes + [];
    } else {
      assert Failures(write, d.writes, s.d.writes) ==
        (if write(d.writes).WriteThrew? then [write(d.writes).e] else []);
    }
  }

  /** Over a stream, the drain reports every failed write it makes, in order, and nothing else,
      but for the failed write on which it may stop. */
  lemma {:induction false} FlushReportsFailures(d: DrainState, stream: Option<nat>, write: nat -> WriteOutcome,
                                                forceQuitAt: nat, untilHeldWritten: bool)
    requires d.checks <= forceQuitAt && stream.Some?
    ensures var (r, end) := Flush(d, stream, write, forceQuitAt, untilHeldWritten);
      Reported(d.notes, r.notes, write, d.writes, r.writes, end)
    decreases forceQuitAt - d.checks
  {
    if Continues(d, untilHeldWritten) {
      IterateReports(d, stream, write, forceQuitAt);
      match Iterate(d, stream, write, forceQuitAt)
      case Stop(d1, e) =>
      case Next(d1) =>
        FlushReportsFailures(d1, stream, write, forceQuitAt, untilHeldWritten);
        var (r, end) := Flush(d1, stream, write, forceQuitAt, untilHeldWritten);
        ReportedCompose(d.notes, d1.notes, r.notes, write, d.writes, d1.writes, r.writes, end);
    } else {
      assert d.notes == d.notes + [];
    }
  }
}
