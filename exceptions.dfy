/** The exceptions the writer reacts to, as a chain of inner exceptions. */
module Exceptions {
  import opened Common

  /** The exception classes the source distinguishes by type test. */
  datatype ExnKind =
    | SocketException(code: int)   // System.Net.Sockets.SocketException with its SocketErrorCode
    | IOException
    | InvalidOperationException
    | OtherException

  /** An exception with its optional InnerException. */
  datatype Exn = Exn(kind: ExnKind, inner: Option<Exn>)

  /** The chain ex, ex.InnerException, ex.InnerException.InnerException, ... outermost first. */
  function Chain(ex: Exn): (c: seq<Exn>)
    ensures |c| >= 1 && c[0] == ex
    decreases ex
  {
    match ex.inner
    case None => [ex]
    case Some(i) => [ex] + Chain(i)
  }

  /** The code of the outermost SocketException in the chain starting at `current`, if any. */
  function FirstSocketCode(current: Option<Exn>): Option<int>
    decreases current
  {
    match current
    case None => None
    case Some(e) =>
      if e.kind.SocketException? then Some(e.kind.code) else FirstSocketCode(e.inner)
  }

  /** Position `k` of `chain` is a SocketException with code `c`, and no exception before it
      is a SocketException. */
  predicate OutermostSocketAt(chain: seq<Exn>, k: int, c: int) {
    0 <= k < |chain| && chain[k].kind == SocketException(c) &&
    forall j :: 0 <= j < k ==> !chain[j].kind.SocketException?
  }

  /** Behind an exception that is not a SocketException, the outermost SocketException is
      one place further down than in the chain of its inner exception. */
  lemma OutermostShift(ex: Exn, i: Exn, k: int, c: int)
    requires !ex.kind.SocketException? && ex.inner == Some(i)
    ensures OutermostSocketAt(Chain(ex), k + 1, c) <==> OutermostSocketAt(Chain(i), k, c)
  {
    var ce, ci := Chain(ex), Chain(i);
    assert ce == [ex] + ci;
    if OutermostSocketAt(ce, k + 1, c) {
      forall j | 0 <= j < k ensures !ci[j].kind.SocketException? {
        assert ci[j] == ce[j + 1];
      }
    }
    if OutermostSocketAt(ci, k, c) {
      forall j | 0 <= j < k + 1 ensures !ce[j].kind.SocketException? {
        if j > 0 { assert ce[j] == ci[j - 1]; }
      }
    }
  }

  /** A SocketException code is reported exactly when some exception of the chain is a SocketException,
      and the code reported is the one of the outermost such exception. */
  lemma {:induction false} FirstSocketCodeIsOutermost(ex: Exn, c: int)
    ensures FirstSocketCode(Some(ex)) == Some(c) <==> exists k :: OutermostSocketAt(Chain(ex), k, c)
    decreases ex
  {
    if ex.kind.SocketException? {
      assert Chain(ex)[0] == ex;
      if FirstSocketCode(Some(ex)) == Some(c) {
        assert OutermostSocketAt(Chain(ex), 0, c);
      }
    } else {
      match ex.inner
      case None =>
      case Some(i) =>
        FirstSocketCodeIsOutermost(i, c);
        if FirstSocketCode(Some(i)) == Some(c) {
          var k :| OutermostSocketAt(Chain(i), k, c);
          OutermostShift(ex, i, k, c);
        }
        if exists k :: OutermostSocketAt(Chain(ex), k, c) {
          var k :| OutermostSocketAt(Chain(ex), k, c);
          assert Chain(ex)[0] == ex;
          OutermostShift(ex, i, k - 1, c);
        }
    }
  }

  /** No code is reported exactly when no exception of the chain is a SocketException. */
  lemma {:induction false} NoSocketCodeIffNoSocketException(ex: Exn)
    ensures FirstSocketCode(Some(ex)) == None <==>
      forall k :: 0 <= k < |Chain(ex)| ==> !Chain(ex)[k].kind.SocketException?
    decreases ex
  {
    if ex.kind.SocketException? {
      assert Chain(ex)[0] == ex;
    } else {
      match ex.inner
      case None =>
      case Some(i) =>
        NoSocketCodeIffNoSocketException(i);
        assert FirstSocketCode(Some(ex)) == FirstSocketCode(Some(i));
        assert Chain(ex) == [ex] + Chain(i);
        if FirstSocketCode(Some(i)) == None {
          forall k | 0 <= k < |Chain(ex)| ensures !Chain(ex)[k].kind.SocketException? {
            if k == 0 {
              assert Chain(ex)[0] == ex;
            } else {
              assert Chain(ex)[k] == Chain(i)[k - 1];
              assert !Chain(i)[k - 1].kind.SocketException?;
            }
          }
        } else {
          var k :| 0 <= k < |Chain(i)| && Chain(i)[k].kind.SocketException?;
          assert Chain(ex)[k + 1] == Chain(i)[k];
        }
    }
  }
}
