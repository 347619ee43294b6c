/**
 * The runtime values of an error chain: the `State` shared by every generated
 * error (src/lib.rs:410-433), the generated `Error` struct and `ErrorKind`
 * enum (src/error_chain.rs:27-33, 139-167), the foreign errors a chain may
 * hold, and the environment-gated backtrace capture (src/lib.rs:349-359).
 */
module Errors {
  import opened Wrappers

  /**
   * A captured stack trace, opaque.  The source shares one `Arc` among every
   * error that carries it; here two errors share a trace when they hold the
   * same token.
   */
  datatype Backtrace = Backtrace(id: nat)

  /**
   * A `&dyn std::error::Error`: either an error generated by `error_chain!`
   * or a foreign error (a type not generated by the macro).
   */
  datatype Dyn = Chained(error: ChainError) | Foreign(foreign: ForeignError)

  /** A foreign error, seen through its description, display and own `cause()`. */
  datatype ForeignError = ForeignError(ty: string, description: string, display: string, cause: Option<Dyn>)

  /** Next error in the chain and the backtrace of the chain. */
  datatype State = State(nextError: Option<Dyn>, backtrace: Option<Backtrace>)

  /**
   * The generated `ErrorKind`: `Msg`, one case per link carrying the linked
   * taxonomy's kind, one case per foreign link carrying the foreign error, and
   * the custom variants of the `errors` section, whose text is opaque.
   */
  datatype Kind =
    | Msg(msg: string)
    | Link(variant: string, linked: Kind)
    | ForeignLink(variant: string, err: ForeignError)
    | Custom(variant: string, description: string, display: string)

  /** The generated `Error` struct of the taxonomy whose error type is named `ty`. */
  datatype ChainError = ChainError(ty: string, kind: Kind, state: State)

  /** Whether the value of `RUST_BACKTRACE` turns capture on: set, and not `"0"`. */
  predicate CaptureEnabled(env: Option<string>) {
    env.Some? && env.value != "0"
  }

  /**
   * `make_backtrace`: the variable's value `env` and the trace a capture would
   * produce now, `now`, are inputs.
   */
  function MakeBacktrace(env: Option<string>, now: Backtrace): (r: Option<Backtrace>)
    ensures r.Some? <==> CaptureEnabled(env)
    ensures r.Some? ==> r.value == now
  {
    match env
    case Some(val) => if val != "0" then Some(now) else None
    case None => None
  }

  /** `State::default()`: no next error, and a backtrace exactly when capture is on. */
  function DefaultState(env: Option<string>, now: Backtrace): (s: State)
    ensures s.nextError == None
    ensures s.backtrace.Some? <==> CaptureEnabled(env)
    ensures s.backtrace.Some? ==> s.backtrace.value == now
  {
    State(None, MakeBacktrace(env, now))
  }
}
