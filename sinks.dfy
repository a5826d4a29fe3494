/** The TCP sink: formats each event, renames `RenderedMessage` to `message` and hands the text
    to the socket writer's queue. */
module Sinks {
  import opened Common
  import opened Queues
  import opened Reconnection
  import opened SocketWriter
  import Formatter
  import Configuration

  /** `pat` occurs in `s` starting at `i`. */
  predicate OccursAt(s: string, pat: string, i: nat) {
    i + |pat| <= |s| && s[i..i + |pat|] == pat
  }

  ghost predicate Occurs(s: string, pat: string) {
    exists i: nat :: OccursAt(s, pat, i)
  }

  /** `StringBuilder.Replace`: every occurrence of `pat`, scanning from the left and not
      overlapping, is replaced by `rep`. */
  function ReplaceAll(s: string, pat: string, rep: string): string
    requires pat != []
    decreases |s|
  {
    if |s| < |pat| then s
    else if s[..|pat|] == pat then rep + ReplaceAll(s[|pat|..], pat, rep)
    else [s[0]] + ReplaceAll(s[1..], pat, rep)
  }

  /** Replacing by a shorter text never lengthens, and shortens exactly when there was an occurrence. */
  lemma {:induction false} ReplaceAllLength(s: string, pat: string, rep: string)
    requires pat != [] && |rep| < |pat|
    ensures |ReplaceAll(s, pat, rep)| <= |s|
    ensures |ReplaceAll(s, pat, rep)| < |s| <==> Occurs(s, pat)
    decreases |s|
  {
    if |s| < |pat| {
      assert forall i: nat :: !OccursAt(s, pat, i);
    } else if s[..|pat|] == pat {
      ReplaceAllLength(s[|pat|..], pat, rep);
      assert OccursAt(s, pat, 0);
    } else {
      var t := s[1..];
      ReplaceAllLength(t, pat, rep);
      if Occurs(t, pat) {
        var i: nat :| OccursAt(t, pat, i);
        assert s[i + 1..i + 1 + |pat|] == t[i..i + |pat|];
        assert OccursAt(s, pat, i + 1);
      }
      if Occurs(s, pat) {
        var i: nat :| OccursAt(s, pat, i);
        assert i != 0;
        assert t[i - 1..i - 1 + |pat|] == s[i..i + |pat|];
        assert OccursAt(t, pat, i - 1);
      }
    }
  }

  /** With a shorter replacement, the text is left unchanged exactly when the pattern does not occur. */
  lemma ReplaceAllUnchangedIff(s: string, pat: string, rep: string)
    requires pat != [] && |rep| < |pat|
    ensures ReplaceAll(s, pat, rep) == s <==> !Occurs(s, pat)
  {
    ReplaceAllLength(s, pat, rep);
    if !Occurs(s, pat) {
      ReplaceAllNoOccurrence(s, pat, rep);
    }
  }

  /** Text without the pattern is copied unchanged, whatever the replacement. */
  lemma {:induction false} ReplaceAllNoOccurrence(s: string, pat: string, rep: string)
    requires pat != [] && !Occurs(s, pat)
    ensures ReplaceAll(s, pat, rep) == s
    decreases |s|
  {
    if |s| >= |pat| {
      assert !OccursAt(s, pat, 0);
      var t := s[1..];
      if Occurs(t, pat) {
        var i: nat :| OccursAt(t, pat, i);
        assert s[i + 1..i + 1 + |pat|] == t[i..i + |pat|];
        assert OccursAt(s, pat, i + 1);
      }
      ReplaceAllNoOccurrence(t, pat, rep);
    }
  }

  const RenderedMessage: string := "RenderedMessage"
  const MessageName: string := "message"

  /** The rewrite the sink applies to the formatted text. */
  function RenameMessage(text: string): string {
    ReplaceAll(text, RenderedMessage, MessageName)
  }

  /** A prefix of the renamed text with no lower-case `m` was copied unchanged from the text:
      every replacement starts with the `m` of `message`. */
  lemma {:induction false} RenameMessageCopiesPrefix(t: string, k: nat)
    requires k <= |RenameMessage(t)| && 'm' !in RenameMessage(t)[..k]
    ensures k <= |t| && t[..k] == RenameMessage(t)[..k]
    decreases |t|
  {
    var r := RenameMessage(t);
    if |t| >= |RenderedMessage| && t[..|RenderedMessage|] == RenderedMessage {
      // The first character is the `m` of `message`, so the prefix is empty.
      assert r[0] == 'm';
    } else if k > 0 && |t| >= |RenderedMessage| {
      var r' := RenameMessage(t[1..]);
      assert r == [t[0]] + r';
      assert r'[..k - 1] == r[1..k];
      RenameMessageCopiesPrefix(t[1..], k - 1);
      assert t[..k] == [t[0]] + t[1..][..k - 1];
    }
  }

  /** The renamed text never contains `RenderedMessage`: every occurrence is replaced, and a
      replacement never forms a new one, since `message` has no `R` and the rest of the pattern
      has no lower-case `m`. */
  lemma {:induction false} RenameMessageRemovesAll(s: string)
    ensures !Occurs(RenameMessage(s), RenderedMessage)
    decreases |s|
  {
    var r := RenameMessage(s);
    var n := |RenderedMessage|;
    if |s| < n {
      assert forall i: nat :: !OccursAt(r, RenderedMessage, i);
    } else if s[..n] == RenderedMessage {
      var t := RenameMessage(s[n..]);
      RenameMessageRemovesAll(s[n..]);
      assert r == MessageName + t;
      forall i: nat
        ensures !OccursAt(r, RenderedMessage, i)
      {
        if i + n <= |r| {
          if i < |MessageName| {
            assert r[i..i + n][0] == MessageName[i];
          } else {
            assert r[i..i + n] == t[i - |MessageName|..i - |MessageName| + n];
            assert !OccursAt(t, RenderedMessage, i - |MessageName|);
          }
        }
      }
    } else {
      var t := RenameMessage(s[1..]);
      RenameMessageRemovesAll(s[1..]);
      assert r == [s[0]] + t;
      forall i: nat
        ensures !OccursAt(r, RenderedMessage, i)
      {
        if i + n <= |r| {
          if i == 0 {
            if r[..n] == RenderedMessage {
              assert t[..n - 1] == RenderedMessage[1..];
              RenameMessageCopiesPrefix(s[1..], n - 1);
            }
          } else {
            assert r[i..i + n] == t[i - 1..i - 1 + n];
            assert !OccursAt(t, RenderedMessage, i - 1);
          }
        }
      }
    }
  }

  /** Formatted text that never mentions `RenderedMessage` is enqueued as it is, and only such text. */
  lemma RenameMessageUnchangedIff(text: string)
    ensures RenameMessage(text) == text <==> !Occurs(text, RenderedMessage)
  {
    ReplaceAllUnchangedIff(text, RenderedMessage, MessageName);
  }

  class TcpSink {
    /** The sink's formatter applied to an event, into a fresh string writer. */
    const format: Formatter.LogEvent -> string
    const socketWriter: TcpSocketWriter

    /** A sink over an existing writer. */
    constructor (socketWriter: TcpSocketWriter, format: Formatter.LogEvent -> string)
      ensures this.socketWriter == socketWriter && this.format == format
    {
      this.socketWriter := socketWriter;
      this.format := format;
    }

    /** A sink for a URI: a new writer with the default queue size and timeouts. `attempt` and
        `cancelAt` script the writer's first connect to `uri`. */
    constructor FromUri(uri: Configuration.Uri, format: Formatter.LogEvent -> string,
                        attempt: nat -> ConnectOutcome, cancelAt: nat)
      ensures fresh(socketWriter) && fresh(socketWriter.queue) && socketWriter.Valid() && this.format == format
      ensures socketWriter.queue.size == DefaultMaxQueueSize && socketWriter.queue.items == []
      ensures !socketWriter.queue.isCompleted
      ensures socketWriter.writeTimeoutMs == DefaultTimeoutMs && socketWriter.disposeTimeoutMs == DefaultTimeoutMs
      ensures socketWriter.stream == StreamOf(ConnectFrom(attempt, 0, cancelAt).0)
    {
      socketWriter := new TcpSocketWriter(DefaultMaxQueueSize, None, None, attempt, cancelAt);
      this.format := format;
    }

    /** Formats the event, renames `RenderedMessage` and enqueues exactly that one text. */
    method Emit(logEvent: Formatter.LogEvent) returns (r: Outcome<QueueError>)
      requires socketWriter.Valid()
      modifies socketWriter.queue
      ensures socketWriter.Valid() && socketWriter.queue.isCompleted == old(socketWriter.queue.isCompleted)
      ensures old(socketWriter.queue.isCompleted) ==>
        r == Fail(AddToCompletedQueue) && socketWriter.queue.items == old(socketWriter.queue.items)
      ensures !old(socketWriter.queue.isCompleted) ==> r == Pass
      ensures !old(socketWriter.queue.isCompleted) ==> (socketWriter.queue.items ==
        Newest(old(socketWriter.queue.items) + [RenameMessage(format(logEvent))], socketWriter.queue.size))
    {
      var text := format(logEvent);
      text := ReplaceAll(text, RenderedMessage, MessageName);
      r := socketWriter.Enqueue(text);
    }

    /** Disposing the sink disposes its writer and nothing else. */
    method Dispose()
      modifies socketWriter`disposing, socketWriter`forceQuit
      ensures socketWriter.disposing && socketWriter.forceQuit
    {
      socketWriter.Dispose();
    }
  }
}
