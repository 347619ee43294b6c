/**
 * The chain-extension operation `chain_err` (src/lib.rs:375-407) and the
 * "capture once, propagate thereafter" behaviour of backtraces it gives.
 */
module ResultExt {
  import opened Wrappers
  import opened Errors
  import opened Generated
  import Macro

  /**
   * The backtrace `chain_err` gives the new error: the one `extract_backtrace`
   * finds in the prior error, and only when that finds none, a capture.
   */
  function ResolveBacktrace(c: Macro.Canonical, d: Dyn, env: Option<string>, now: Backtrace): (r: Option<Backtrace>)
    ensures d.Chained? && d.error.ty == c.names.error ==> r == d.error.state.backtrace
    ensures d.Chained? && (exists i :: 0 <= i < |c.links| && c.links[i].path == d.error.ty) ==> r == d.error.state.backtrace
    ensures d.Foreign? ==> r == MakeBacktrace(env, now)
    ensures d.Chained? && d.error.ty != c.names.error && (forall i :: 0 <= i < |c.links| ==> c.links[i].path != d.error.ty)
            ==> r == MakeBacktrace(env, now)
  {
    match ExtractBacktrace(c, d)
    case Some(b) => b
    case None => MakeBacktrace(env, now)
  }

  /**
   * `chain_err`: a success is returned unchanged; a failure `e` becomes a new
   * error whose kind is the callback's, whose next error is `e`, and which
   * carries `e`'s backtrace, so its chain is itself followed by the chain of `e`.
   */
  function ChainErr<T>(c: Macro.Canonical, r: Result<T, ChainError>, callback: () -> Kind,
                       env: Option<string>, now: Backtrace): (s: Result<T, ChainError>)
    requires r.Err? ==> r.error.ty == c.names.error
    ensures r.Ok? ==> s == r
    ensures r.Err? ==> s.Err? && s.error.ty == c.names.error && KindOf(s.error) == callback()
    ensures r.Err? ==> s.error.state.nextError == Some(Chained(r.error))
    ensures r.Err? ==> BacktraceOf(s.error) == BacktraceOf(r.error)
    ensures r.Err? ==> forall rule :: Chain(rule, Chained(s.error)) == [Chained(s.error)] + Chain(rule, Chained(r.error))
  {
    match r
    case Ok(v) => Ok(v)
    case Err(e) =>
      var prior := Chained(e);
      Err(New(c, callback(), State(Some(prior), ResolveBacktrace(c, prior, env, now))))
  }

  /** `chain_err` applied once per kind in `kinds`, in order. */
  function ChainErrs<T>(c: Macro.Canonical, r: Result<T, ChainError>, kinds: seq<Kind>,
                        env: Option<string>, now: Backtrace): (s: Result<T, ChainError>)
    requires r.Err? ==> r.error.ty == c.names.error
    ensures s.Ok? <==> r.Ok?
    ensures r.Ok? ==> s == r
    ensures s.Err? ==> s.error.ty == c.names.error
    decreases |kinds|
  {
    if kinds == [] then r
    else
      var k := kinds[0];
      ChainErrs(c, ChainErr(c, r, () => k, env, now), kinds[1..], env, now)
  }

  /**
   * However often an error is extended, the result carries the backtrace the
   * first error had, and its chain is one frame per extension longer, ending
   * with the first error's chain.
   */
  lemma {:induction false} CaptureOnce<T>(c: Macro.Canonical, e: ChainError, kinds: seq<Kind>,
                                          env: Option<string>, now: Backtrace, rule: CauseRule)
    requires e.ty == c.names.error
    ensures var s := ChainErrs<T>(c, Err(e), kinds, env, now);
      s.Err? && BacktraceOf(s.error) == BacktraceOf(e)
      && |Chain(rule, Chained(s.error))| == |kinds| + |Chain(rule, Chained(e))|
      && Chain(rule, Chained(s.error))[|kinds|..] == Chain(rule, Chained(e))
    decreases |kinds|
  {
    if kinds != [] {
      var r := ExtendOnce<T>(c, e, kinds, env, now, rule);
      CaptureOnce<T>(c, r, kinds[1..], env, now, rule);
      DropOneMore(Chain(rule, Chained(ChainErrs<T>(c, Err(r), kinds[1..], env, now).error)),
                  Chain(rule, Chained(r)), |kinds|);
    }
  }

  /** The first of several extensions: one frame on top of the chain of `e`. */
  lemma ExtendOnce<T>(c: Macro.Canonical, e: ChainError, kinds: seq<Kind>,
                      env: Option<string>, now: Backtrace, rule: CauseRule) returns (r: ChainError)
    requires e.ty == c.names.error && kinds != []
    ensures r.ty == c.names.error && BacktraceOf(r) == BacktraceOf(e)
    ensures Chain(rule, Chained(r)) == [Chained(r)] + Chain(rule, Chained(e))
    ensures ChainErrs<T>(c, Err(r), kinds[1..], env, now) == ChainErrs<T>(c, Err(e), kinds, env, now)
  {
    var k := kinds[0];
    r := ChainErr<T>(c, Err(e), () => k, env, now).error;
  }

  /** Dropping one more element of a sequence drops the head of its suffix. */
  lemma DropOneMore(whole: seq<Dyn>, suffix: seq<Dyn>, n: nat)
    requires 1 <= n <= |whole| + 1 && whole[n - 1..] == suffix
    ensures |whole| == n - 1 + |suffix|
    ensures n <= |whole| ==> whole[n..] == suffix[1..]
  {
  }

  /**
   * An error built from a kind and then extended any number of times holds
   * the one backtrace taken when it was built: the capture at that moment,
   * and none at all when capture is off, whatever happens later.
   */
  lemma SingleBacktrace<T>(c: Macro.Canonical, k: Kind, kinds: seq<Kind>, env: Option<string>,
                           first: Backtrace, later: Backtrace)
    ensures var s := ChainErrs<T>(c, Err(FromKind(c, k, env, first)), kinds, env, later);
      s.Err? && BacktraceOf(s.error) == MakeBacktrace(env, first)
      && (!CaptureEnabled(env) ==> BacktraceOf(s.error) == None)
  {
    CaptureOnce<T>(c, FromKind(c, k, env, first), kinds, env, later, Corrected);
  }

  /**
   * Extending an error converted from a linked taxonomy keeps the backtrace
   * of the linked error, and with it the linked error's chain tail (under the
   * generated `cause()`, only when the conversion did not cut the chain).
   */
  lemma LinkedBacktracePropagates<T>(c: Macro.Canonical, l: Macro.LinkSpec, e: ChainError, kinds: seq<Kind>,
                                     env: Option<string>, now: Backtrace)
    requires l in c.links && e.ty == l.path
    ensures var s := ChainErrs<T>(c, Err(FromLink(c, l, e)), kinds, env, now);
      s.Err? && BacktraceOf(s.error) == BacktraceOf(e)
      && |Chain(Corrected, Chained(s.error))| == |kinds| + |Chain(Corrected, Chained(e))|
      && (e.state.nextError.Some? || !e.kind.ForeignLink? || e.kind.err.cause.None?
          ==> |Chain(AsWritten, Chained(s.error))| == |kinds| + |Chain(AsWritten, Chained(e))|)
  {
    CaptureOnce<T>(c, FromLink(c, l, e), kinds, env, now, Corrected);
    CaptureOnce<T>(c, FromLink(c, l, e), kinds, env, now, AsWritten);
  }
}
