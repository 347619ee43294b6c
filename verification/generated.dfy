/**
 * The code `error_chain!` generates for a taxonomy (src/error_chain.rs:22-197
 * and the `impl_error!` expansion at src/error_chain.rs:387-424), as functions
 * over the runtime values.  A taxonomy is given by its canonical definition
 * `c`: its error type is named `c.names.error`, its links and foreign links
 * are `c.links` and `c.foreignLinks`.
 */
module Generated {
  import opened Wrappers
  import opened Errors
  import Macro

  // ---------------------------------------------------------------------------
  // Sizes, so that following causes is seen to terminate

  function DynSize(d: Dyn): nat {
    match d
    case Chained(e) => 1 + OptionSize(e.state.nextError) + KindSize(e.kind)
    case Foreign(f) => 1 + ForeignSize(f)
  }

  function ForeignSize(f: ForeignError): nat {
    1 + OptionSize(f.cause)
  }

  function OptionSize(o: Option<Dyn>): nat {
    match o
    case None => 0
    case Some(d) => DynSize(d)
  }

  function KindSize(k: Kind): nat {
    match k
    case Link(_, linked) => 1 + KindSize(linked)
    case ForeignLink(_, f) => 1 + ForeignSize(f)
    case _ => 1
  }

  // ---------------------------------------------------------------------------
  // description, Display and cause (src/error_chain.rs:57-84, 144-167)

  /** The kind a run of link cases wraps: a link kind reads as the kind it links. */
  function Unlinked(k: Kind): (u: Kind)
    ensures !u.Link?
  {
    match k
    case Link(_, linked) => Unlinked(linked)
    case _ => k
  }

  /**
   * `description()` of a kind (and so of the error holding it): the text of
   * the innermost kind a run of links wraps.
   */
  function KindDescription(k: Kind): (r: string)
    ensures Unlinked(k).Msg? ==> r == Unlinked(k).msg
    ensures Unlinked(k).ForeignLink? ==> r == Unlinked(k).err.description
    ensures Unlinked(k).Custom? ==> r == Unlinked(k).description
  {
    match k
    case Msg(s) => s
    case Link(_, linked) => KindDescription(linked)
    case ForeignLink(_, f) => f.description
    case Custom(_, description, _) => description
  }

  /** `Display` of a kind (and so of the error holding it), likewise through links. */
  function KindDisplay(k: Kind): (r: string)
    ensures Unlinked(k).Msg? ==> r == Unlinked(k).msg
    ensures Unlinked(k).ForeignLink? ==> r == Unlinked(k).err.display
    ensures Unlinked(k).Custom? ==> r == Unlinked(k).display
  {
    match k
    case Msg(s) => s
    case Link(_, linked) => KindDisplay(linked)
    case ForeignLink(_, f) => f.display
    case Custom(_, _, display) => display
  }

  /**
   * `cause()` exactly as generated: the next error if there is one, else the
   * foreign error's own cause when the kind is one of this taxonomy's foreign
   * links, else nothing.
   */
  function CauseAsWritten(e: ChainError): (r: Option<Dyn>)
    ensures e.state.nextError.Some? ==> r == e.state.nextError
    ensures e.state.nextError.None? && e.kind.ForeignLink? ==> r == e.kind.err.cause
    ensures e.state.nextError.None? && !e.kind.ForeignLink? ==> r == None
    ensures r.Some? ==> DynSize(r.value) < DynSize(Chained(e))
  {
    match e.state.nextError
    case Some(c) => Some(c)
    case None =>
      match e.kind
      case ForeignLink(_, f) =>
        assert f.cause.Some? ==> OptionSize(f.cause) == DynSize(f.cause.value);
        assert DynSize(Chained(e)) == 2 + ForeignSize(f);
        f.cause
      case _ => None
  }

  /** The cause a kind carries: a foreign link's own cause, looked up through links. */
  function KindCause(k: Kind): (r: Option<Dyn>)
    ensures r.Some? ==> DynSize(r.value) < KindSize(k)
  {
    match k
    case ForeignLink(_, f) =>
      assert f.cause.Some? ==> OptionSize(f.cause) == DynSize(f.cause.value);
      f.cause
    case Link(_, linked) => KindCause(linked)
    case _ => None
  }

  /**
   * `cause()` corrected: like `CauseAsWritten`, but a link kind also
   * delegates to the kind it wraps, so that a link conversion keeps the
   * cause chain (see `LinkDropsForeignCause`).
   */
  function Cause(e: ChainError): (r: Option<Dyn>)
    ensures r.Some? ==> DynSize(r.value) < DynSize(Chained(e))
    ensures e.state.nextError.Some? ==> r == e.state.nextError
    ensures e.state.nextError.None? && !e.kind.Link? ==> r == CauseAsWritten(e)
  {
    match e.state.nextError
    case Some(c) => Some(c)
    case None => KindCause(e.kind)
  }

  /** Which `cause()` a chain follows: the one the macro generates, or the corrected one. */
  datatype CauseRule = AsWritten | Corrected

  /** `Error::cause` for any error of a chain, under either rule. */
  function DynCause(rule: CauseRule, d: Dyn): (r: Option<Dyn>)
    ensures r.Some? ==> DynSize(r.value) < DynSize(d)
    ensures d.Chained? && d.error.state.nextError.Some? ==> r == d.error.state.nextError
    ensures d.Chained? && !d.error.kind.Link? ==> r == CauseAsWritten(d.error)
    ensures d.Foreign? ==> r == d.foreign.cause
  {
    match d
    case Chained(e) => if rule == AsWritten then CauseAsWritten(e) else Cause(e)
    case Foreign(f) =>
      assert f.cause.Some? ==> OptionSize(f.cause) == DynSize(f.cause.value);
      f.cause
  }

  /**
   * An error at which the two rules part: a link kind with no next error
   * whose linked kind holds a foreign cause.
   */
  predicate LinkHidesCause(d: Dyn) {
    d.Chained? && d.error.state.nextError.None? && d.error.kind.Link? && KindCause(d.error.kind).Some?
  }

  /** The two rules give the same cause exactly where no link hides one. */
  lemma CauseRulesAgree(d: Dyn)
    ensures DynCause(AsWritten, d) == DynCause(Corrected, d) <==> !LinkHidesCause(d)
  {
  }

  /**
   * What `iter()` yields: the error, then each successive cause until there
   * is none; it starts with the error and is no longer than the error's size.
   */
  function Chain(rule: CauseRule, d: Dyn): (r: seq<Dyn>)
    ensures |r| >= 1 && r[0] == d
    ensures |r| <= DynSize(d)
    decreases DynSize(d)
  {
    match DynCause(rule, d)
    case None => [d]
    case Some(c) => [d] + Chain(rule, c)
  }

  /** The chain starting at an optional error (an exhausted iterator yields nothing). */
  function Pending(rule: CauseRule, o: Option<Dyn>): seq<Dyn> {
    match o
    case None => []
    case Some(d) => Chain(rule, d)
  }

  /** One step of the chain: the error, then the chain of its cause. */
  lemma ChainStep(rule: CauseRule, d: Dyn)
    ensures Chain(rule, d) == [d] + Pending(rule, DynCause(rule, d))
  {
  }

  /** A chain starts at its error, each element's cause is the next, and the last has none. */
  lemma {:induction false} ChainFollowsCause(rule: CauseRule, d: Dyn)
    ensures |Chain(rule, d)| >= 1 && Chain(rule, d)[0] == d
    ensures forall i :: 0 <= i < |Chain(rule, d)| - 1 ==> DynCause(rule, Chain(rule, d)[i]) == Some(Chain(rule, d)[i + 1])
    ensures DynCause(rule, Chain(rule, d)[|Chain(rule, d)| - 1]) == None
    decreases DynSize(d)
  {
    match DynCause(rule, d)
    case None =>
    case Some(c) =>
      ChainFollowsCause(rule, c);
      forall i | 0 <= i < |Chain(rule, d)| - 1
        ensures DynCause(rule, Chain(rule, d)[i]) == Some(Chain(rule, d)[i + 1])
      {
        if i > 0 {
          assert Chain(rule, d)[i] == Chain(rule, c)[i - 1];
          assert Chain(rule, d)[i + 1] == Chain(rule, c)[i];
        }
      }
  }

  /** Conversely, the only such sequence is `Chain(rule, d)`. */
  lemma {:induction false} ChainUnique(rule: CauseRule, d: Dyn, s: seq<Dyn>)
    requires |s| >= 1 && s[0] == d
    requires forall i :: 0 <= i < |s| - 1 ==> DynCause(rule, s[i]) == Some(s[i + 1])
    requires DynCause(rule, s[|s| - 1]) == None
    ensures s == Chain(rule, d)
    decreases |s|
  {
    if |s| > 1 {
      var c := s[1];
      assert DynCause(rule, d) == Some(c);
      forall i | 0 <= i < |s[1..]| - 1
        ensures DynCause(rule, s[1..][i]) == Some(s[1..][i + 1])
      {
        assert s[1..][i] == s[i + 1];
      }
      ChainUnique(rule, c, s[1..]);
      assert s == [d] + s[1..];
    }
  }

  /**
   * The source's chain is the corrected chain cut short at the first error
   * where a link hides a cause; the two are equal exactly when no error of
   * the source's chain is such a link.
   */
  lemma {:induction false} AsWrittenChainIsPrefix(d: Dyn)
    ensures |Chain(AsWritten, d)| <= |Chain(Corrected, d)|
    ensures Chain(AsWritten, d) == Chain(Corrected, d)[..|Chain(AsWritten, d)|]
    ensures Chain(AsWritten, d) == Chain(Corrected, d)
            <==> forall i :: 0 <= i < |Chain(AsWritten, d)| ==> !LinkHidesCause(Chain(AsWritten, d)[i])
    decreases DynSize(d)
  {
    var w, c := Chain(AsWritten, d), Chain(Corrected, d);
    CauseRulesAgree(d);
    if LinkHidesCause(d) {
      assert DynCause(AsWritten, d) == None;
      assert w == [d] && |c| >= 2;
    } else {
      match DynCause(AsWritten, d)
      case None =>
      case Some(x) =>
        AsWrittenChainIsPrefix(x);
        var wx, cx := Chain(AsWritten, x), Chain(Corrected, x);
        assert w == [d] + wx && c == [d] + cx;
        assert w == c[..|w|];
        assert (forall i :: 0 <= i < |w| ==> !LinkHidesCause(w[i]))
               <==> (forall i :: 0 <= i < |wx| ==> !LinkHidesCause(wx[i])) by {
          forall i | 0 <= i < |wx|
            ensures wx[i] == w[i + 1]
          {
          }
        }
    }
  }

  // ---------------------------------------------------------------------------
  // Constructors and conversions (src/error_chain.rs:37-55, 86-125, 169-194, 398-406)

  /**
   * `from_kind`: the kind with a default state, so the chain holds the error
   * and then the cause the kind carries (as generated, only a foreign link of
   * this taxonomy carries one).
   */
  function FromKind(c: Macro.Canonical, kind: Kind, env: Option<string>, now: Backtrace): (e: ChainError)
    ensures e.ty == c.names.error && e.kind == kind
    ensures e.state.nextError == None
    ensures e.state.backtrace.Some? <==> CaptureEnabled(env)
    ensures e.state.backtrace.Some? ==> e.state.backtrace.value == now
    ensures Chain(Corrected, Chained(e)) == [Chained(e)] + Pending(Corrected, KindCause(kind))
    ensures Chain(AsWritten, Chained(e))
            == [Chained(e)] + Pending(AsWritten, if kind.ForeignLink? then kind.err.cause else None)
  {
    ChainError(c.names.error, kind, DefaultState(env, now))
  }

  /** `ChainedError::new`: an error from its parts; its kind and state read back unchanged. */
  function New(c: Macro.Canonical, kind: Kind, state: State): (e: ChainError)
    ensures e.ty == c.names.error
    ensures KindOf(e) == kind && BacktraceOf(e) == state.backtrace
    ensures state.nextError.Some? ==> Cause(e) == state.nextError && CauseAsWritten(e) == state.nextError
  {
    ChainError(c.names.error, kind, state)
  }

  /** `kind()` and `From<Error> for ErrorKind`. */
  function KindOf(e: ChainError): Kind {
    e.kind
  }

  /** `backtrace()`. */
  function BacktraceOf(e: ChainError): Option<Backtrace> {
    e.state.backtrace
  }

  /**
   * `kind()` undoes `new`: it reads back the kind `new` was given, and an
   * error rebuilt from its kind and state is the error.
   */
  lemma KindAccessor(c: Macro.Canonical, kind: Kind, state: State, e: ChainError)
    ensures KindOf(New(c, kind, state)) == kind
    ensures e.ty == c.names.error ==> New(c, KindOf(e), e.state) == e
  {
  }

  /**
   * `backtrace()` undoes `new` likewise: it reads back the backtrace of the
   * state `new` was given, and nothing else of the state is needed to
   * rebuild the error.
   */
  lemma BacktraceAccessor(c: Macro.Canonical, kind: Kind, state: State, e: ChainError)
    ensures BacktraceOf(New(c, kind, state)) == state.backtrace
    ensures e.ty == c.names.error ==> New(c, e.kind, State(e.state.nextError, BacktraceOf(e))) == e
  {
  }

  /** `From<&str>` and `From<String>` for the kind: always `Msg`. */
  function KindFromStr(s: string): (k: Kind)
    ensures k.Msg?
    ensures KindDescription(k) == s && KindDisplay(k) == s && KindCause(k) == None
  {
    Msg(s)
  }

  /** `From<&str>` and `From<String>` for the error: one element whose description and display are `s`. */
  function FromStr(c: Macro.Canonical, s: string, env: Option<string>, now: Backtrace): (e: ChainError)
    ensures e.ty == c.names.error && KindOf(e) == Msg(s)
    ensures KindDescription(e.kind) == s && KindDisplay(e.kind) == s
    ensures forall rule :: Chain(rule, Chained(e)) == [Chained(e)]
    ensures BacktraceOf(e) == MakeBacktrace(env, now)
  {
    FromKind(c, KindFromStr(s), env, now)
  }

  /** `From<LinkedKind> for ErrorKind`: the link's case, reading exactly like the linked kind. */
  function KindFromLinked(c: Macro.Canonical, l: Macro.LinkSpec, k: Kind): (r: Kind)
    requires l in c.links
    ensures r.Link? && r.variant == l.variant && r.linked == k
    ensures KindDescription(r) == KindDescription(k) && KindDisplay(r) == KindDisplay(k)
    ensures KindCause(r) == KindCause(k)
  {
    Link(l.variant, k)
  }

  /**
   * `From<LinkedError>`: the linked kind wrapped in the link's case, with the
   * linked error's state reused, so no frame is added and the backtrace is
   * the same one.  Under the corrected cause the chain keeps every cause of
   * the linked error; under the generated one it does so unless the linked
   * error's kind is a foreign link with a cause and there is no next error,
   * in which case the chain ends at the converted error.
   */
  function FromLink(c: Macro.Canonical, l: Macro.LinkSpec, e: ChainError): (r: ChainError)
    requires l in c.links && e.ty == l.path
    ensures r.ty == c.names.error && KindOf(r) == KindFromLinked(c, l, e.kind)
    ensures r.state == e.state && BacktraceOf(r) == BacktraceOf(e)
    ensures KindDescription(r.kind) == KindDescription(e.kind) && KindDisplay(r.kind) == KindDisplay(e.kind)
    ensures Cause(r) == Cause(e)
    ensures Chain(Corrected, Chained(r)) == [Chained(r)] + Chain(Corrected, Chained(e))[1..]
    ensures e.state.nextError.Some? || !e.kind.ForeignLink? || e.kind.err.cause.None?
            ==> Chain(AsWritten, Chained(r)) == [Chained(r)] + Chain(AsWritten, Chained(e))[1..]
    ensures e.state.nextError.None? && e.kind.ForeignLink? && e.kind.err.cause.Some?
            ==> Chain(AsWritten, Chained(r)) == [Chained(r)] && |Chain(AsWritten, Chained(e))| >= 2
  {
    ChainError(c.names.error, KindFromLinked(c, l, e.kind), e.state)
  }

  /**
   * `From<ForeignError>`: the foreign error wrapped in its case with a new
   * state; the error reads like the foreign one and its chain continues with
   * the foreign error's own cause, under either rule.
   */
  function FromForeign(c: Macro.Canonical, l: Macro.LinkSpec, f: ForeignError, env: Option<string>, now: Backtrace): (r: ChainError)
    requires l in c.foreignLinks && f.ty == l.path
    ensures r.ty == c.names.error && KindOf(r) == ForeignLink(l.variant, f)
    ensures r.state.nextError == None && BacktraceOf(r) == MakeBacktrace(env, now)
    ensures KindDescription(r.kind) == f.description && KindDisplay(r.kind) == f.display
    ensures Cause(r) == f.cause && CauseAsWritten(r) == f.cause
    ensures forall rule :: Chain(rule, Chained(r)) == [Chained(r)] + Pending(rule, f.cause)
  {
    FromKind(c, ForeignLink(l.variant, f), env, now)
  }

  /**
   * `From<Error> for ErrorKind` gives back the kind each constructor stored:
   * the kind itself for `from_kind`, the link case over the linked error's
   * kind for a link conversion, and the foreign case for a foreign one.
   */
  lemma KindRoundTrip(c: Macro.Canonical, k: Kind, env: Option<string>, now: Backtrace,
                      l: Macro.LinkSpec, e: ChainError, f: ForeignError)
    ensures KindOf(FromKind(c, k, env, now)) == k
    ensures l in c.links && e.ty == l.path ==> KindOf(FromLink(c, l, e)) == Link(l.variant, KindOf(e))
    ensures l in c.foreignLinks && f.ty == l.path ==> KindOf(FromForeign(c, l, f, env, now)) == ForeignLink(l.variant, f)
  {
  }

  // ---------------------------------------------------------------------------
  // extract_backtrace (src/error_chain.rs:408-421)

  /** The downcasts to the linked error types, tried in declared order. */
  function DowncastLinks(links: seq<Macro.LinkSpec>, d: Dyn): (r: Option<Option<Backtrace>>)
    ensures r.Some? <==> d.Chained? && exists i :: 0 <= i < |links| && links[i].path == d.error.ty
    ensures r.Some? ==> r.value == d.error.state.backtrace
  {
    if links == [] then None
    else if d.Chained? && d.error.ty == links[0].path then Some(d.error.state.backtrace)
    else
      var r := DowncastLinks(links[1..], d);
      assert r.Some? ==> exists i :: 0 <= i < |links| && links[i].path == d.error.ty by {
        if r.Some? {
          var j :| 0 <= j < |links[1..]| && links[1..][j].path == d.error.ty;
          assert links[j + 1] == links[1..][j];
        }
      }
      r
  }

  /**
   * `extract_backtrace`: when `d` is an error of this taxonomy or of a linked
   * one, the backtrace it holds (which may be none); otherwise nothing.
   */
  function ExtractBacktrace(c: Macro.Canonical, d: Dyn): (r: Option<Option<Backtrace>>)
    ensures r.Some? <==> d.Chained? && (d.error.ty == c.names.error || exists i :: 0 <= i < |c.links| && c.links[i].path == d.error.ty)
    ensures r.Some? ==> r.value == d.error.state.backtrace
  {
    if d.Chained? && d.error.ty == c.names.error then Some(d.error.state.backtrace)
    else DowncastLinks(c.links, d)
  }

  // ---------------------------------------------------------------------------
  // The source's cause() loses the chain across a link conversion

  /**
   * As generated, `cause()` does not look through link kinds: an error of a
   * linked taxonomy built from a foreign error whose own cause is `g` has
   * cause `g`, but after the link conversion the outer error has no cause.
   */
  lemma LinkDropsForeignCause()
    ensures var g := Foreign(ForeignError("Inner", "inner", "inner", None));
      var f := ForeignError("Io", "io", "io", Some(g));
      var inner := Macro.Canonical(Macro.Names("InnerError", "InnerErrorKind", "InnerResult"), [],
                                   [Macro.LinkSpec("Io", "Io", [])], []);
      var outer := Macro.Canonical(Macro.DefaultNames, [Macro.LinkSpec("InnerError", "Inner", [])], [], []);
      var e := FromForeign(inner, inner.foreignLinks[0], f, None, Backtrace(0));
      var r := FromLink(outer, outer.links[0], e);
      CauseAsWritten(e) == Some(g) && CauseAsWritten(r) == None && Cause(r) == Some(g)
      && Chain(AsWritten, Chained(e)) == [Chained(e), g] && Chain(AsWritten, Chained(r)) == [Chained(r)]
      && Chain(Corrected, Chained(r)) == [Chained(r), g]
  {
  }
}
