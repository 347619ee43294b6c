# error-chain, modelled in Dafny

This project models the core of the Rust crate `error-chain` and proves properties of the model. It covers two parts.

- **Definition time.** The `error_chain!` macro turns any sequence of named blocks (`types`, `links`, `foreign_links`, `errors`) into one canonical four-section taxonomy, or rejects it. Repeated names inside a taxonomy are left to the compiler's later check of the generated code (see "## Left out").
  - `Macro.Step` applies the first macro rule that matches an invocation. `Macro.Expand` repeats it, bounded by the compiler's recursion limit.
  - `Macro.Normalised` is an independent, declarative statement of the result:
    - In-order blocks are concatenated. A missing or empty `types` gives `Error, ErrorKind, Result`.
    - Otherwise every block must be one of the four sections, and the last block of each name wins.
    - A `types` slot that is neither a name triple nor empty is a parse error.
    - A malformed `links`/`foreign_links` body exhausts the recursion limit.
  - `Macro.DefineMatchesNormalised` proves the two agree whenever the limit is at least three more than the number of blocks.
- **Run time.**
  - The generated `Error` is a value `{kind, state: {next_error, backtrace}}`. A foreign error is an opaque description, display and cause.
  - Modelled operations:
    - the generated conversions;
    - `cause()`, both as generated (`CauseAsWritten`) and corrected (`Cause`, see Findings). The chain, the iterator and `chain_err` are stated under either, selected by a `CauseRule`;
    - the cause iterator, a class whose slot `next` takes and refills;
    - `extract_backtrace`, the environment-gated `make_backtrace` and `State::default`;
    - `chain_err`, with its "capture once, propagate thereafter" rule for backtraces.
  - A backtrace is an opaque token, and two errors share a trace when they hold the same token.
  - The value of `RUST_BACKTRACE` and the trace a capture would produce are parameters. Capture is on when the variable is set to any value other than `"0"`, the empty string included (src/lib.rs:356).
  - Downcasting is a comparison of type names.

Files:

- `wrappers.dfy`: `Option` and `Result`.
- `macro_rules.dfy`: module `Macro`, the macro rules.
- `errors.dfy`: module `Errors`, the runtime values, `make_backtrace` and `State::default`.
- `generated.dfy`: module `Generated`, the code one taxonomy generates.
- `chain_iter.dfy`: module `ChainIter`, `ErrorChainIter` and `iter()`.
- `result_ext.dfy`: module `ResultExt`, `chain_err`.

Where the written description of the crate and its code differ, the model follows the code:

- **`chain_err`'s input.** The documentation says `chain_err` works on any `Result` whose error implements `std::error::Error + Send + 'static` (src/lib.rs:274-275, and the `File::open(..).chain_err` example at src/lib.rs:104). The code takes a `Result<T, E>` whose error type `E` is a `ChainedError`, the taxonomy's own (src/lib.rs:386).
  - So `extract_backtrace` always finds the error's own backtrace there, and `make_backtrace` is never reached from `chain_err`.
  - `ResolveBacktrace` still states the general rule.
- **Iterating a foreign-link error.** The documentation says the cause of a foreign-link error is the original foreign error (src/lib.rs:294-295). The code's `cause()` delegates to the foreign error's own cause instead (src/error_chain.rs:69-70). So an error converted from a foreign error `f` whose cause is `g` iterates as `[E, g]`, not `[E, f, g]`.
- **Where `extract_backtrace` looks.** The documentation says it looks in the errors from `foreign_links` (src/lib.rs:368-369). The code downcasts to the taxonomy's own type and to the `links` paths (src/error_chain.rs:35, 410-420), and `Generated.ExtractBacktrace` follows the code.

## Model

| member | source | states |
|---|---|---|
| Errors.MakeBacktrace | src/lib.rs:349-359 | a trace is returned exactly when `RUST_BACKTRACE` is set and is not `"0"`, and it is the capture taken now |
| Errors.DefaultState | src/lib.rs:420-433 | the default state has no next error and carries a trace exactly when capture is on |
| Macro.ParseNames | src/error_chain.rs:5-7 | a `types` body that parses as a name triple is exactly `error, kind, result;` |
| Macro.NamesRoundTrip | src/error_chain.rs:5-7 | a body parses to a triple if and only if it is that triple's rendering |
| Macro.ParseMetas | src/error_chain.rs:10 | an entry's meta list takes exactly its `;` and two tokens per meta |
| Macro.ParseMetasRender | src/error_chain.rs:10 | the `, #[meta]` list of an entry reads back as those metas, leaving the following tokens |
| Macro.ParseMetasExact | src/error_chain.rs:10 | a meta list that parses is exactly the rendering of what it parsed to, followed by the rest |
| Macro.ParseLinks | src/error_chain.rs:9-11 | every parsed entry takes at least four tokens, and only the empty body parses to no entries |
| Macro.ParseRender | src/error_chain.rs:9-15 | every list of link entries, rendered, parses back to itself |
| Macro.ParseExact | src/error_chain.rs:9-15 | a links body that parses is exactly the rendering of its entries |
| Macro.RenderAppend | src/error_chain.rs:9-15 | rendering a concatenation of entry lists concatenates their renderings |
| Macro.ParseAppend | src/error_chain.rs:231-237 | two bodies that parse, concatenated, parse to their entries concatenated |
| Macro.MatchCanonical | src/error_chain.rs:3-21 | the generating rule accepts only the written-out form of the taxonomy it returns: the names triple, the rendered links and foreign links, and the errors tokens, each braced |
| Macro.MatchRender | src/error_chain.rs:3-21 | conversely, the written-out form of every taxonomy is accepted and gives back that taxonomy |
| Macro.Store | src/error_chain.rs:312-351 | one `@processing` rule gives the slots the reference fold `LastSlots` gives for that one block |
| Macro.Step | src/error_chain.rs:3-376 | code is generated only from a plain invocation in written-out form; a parse error arises only after exactly one `@processed`; every rewrite to a plain invocation emits four blocks after one `@processed`; a fold step consumes one block or finds no rule |
| Macro.ExpandStable | src/error_chain.rs:2-377 | a result reached under one recursion limit is the result under every larger limit; only `RecursionLimit` depends on the limit |
| Macro.SelfLoop | src/error_chain.rs:207-243 | an invocation that rewrites to itself ends at the recursion limit, however high |
| Macro.FinishFold | src/error_chain.rs:352-368 | when all four slots are braced and `types` is a triple or empty, the fold's `@processed` output goes on to code generation, or to the recursion limit when a `links` or `foreign_links` body does not parse; it is a parse error otherwise |
| Macro.Fold | src/error_chain.rs:312-362 | the `@processing` fold keeps the last block of each name and any unseen slot stays `{}`, and it rejects any other block name |
| Macro.DefineCase1 | src/error_chain.rs:207-243 | with a full `types` triple first and the rest in order, the definition is what the concatenated sections parse to under that triple, or the recursion limit when they do not parse |
| Macro.DefineCase2 | src/error_chain.rs:245-279 | with `types { }` first and the rest in order, the definition is what the concatenated sections parse to under the default names, or the recursion limit when they do not parse |
| Macro.DefineCase3 | src/error_chain.rs:281-311 | with no `types` and the blocks in order, the definition is what the concatenated sections parse to under the default names, or the recursion limit when they do not parse |
| Macro.DefineFold | src/error_chain.rs:369-376 | input that none of Cases 1-3 accept goes through the fold to the reference result |
| Macro.DefineMatchesNormalised | src/error_chain.rs:2-377 | for every block sequence, expansion under a sufficient recursion limit equals the declarative definition |
| Macro.EmptyDefinition | src/error_chain.rs:281-311 | `error_chain! { }` defines `Error, ErrorKind, Result` with no links, foreign links or errors |
| Macro.TypesOmittedOrEmpty | src/error_chain.rs:244-311 | omitting `types`, writing `types { }` and writing `types { Error, ErrorKind, Result; }` give the same definition |
| Macro.ConcatParses | src/error_chain.rs:225-242 | concatenated bodies that each parse parse to the concatenation of their entries, in declaration order |
| Macro.InOrderConcatenates | src/error_chain.rs:281-311 | in-order blocks define the default names with every `links`, `foreign_links` and `errors` body concatenated in order |
| Macro.AdjacentLinksConcatenate | src/error_chain.rs:281-311 | two adjacent `links` blocks contribute both their entry lists, first then second |
| Macro.SeparatedLinksLastWins | src/error_chain.rs:322-376 | two `links` blocks separated by an `errors` block go through the fold, and only the second list survives |
| Macro.LastTypesWin | src/error_chain.rs:312-321 | with two `types` blocks the second triple names the types |
| Macro.UnknownBlockRejected | src/error_chain.rs:312-376 | a block with a name other than the four sections makes the definition fail with no matching rule |
| Macro.BadTypesRejected | src/error_chain.rs:352-368 | a definition of the four sections whose last `types` block is unbraced, or is neither a name triple nor empty, is a parse error |
| Macro.FoldExhausts | src/error_chain.rs:312-351 | the fold takes one rewrite per block, so a smaller recursion limit is exhausted |
| Macro.LongFoldRejected | src/error_chain.rs:369-376 | an out-of-order definition fails at a recursion limit no larger than its block count |
| Generated.KindDescription | src/error_chain.rs:139-167 | a kind's description (and so the error's, src/error_chain.rs:57-59) is the text of the innermost kind a run of links wraps: the message, the foreign error's description, or the custom variant's |
| Generated.KindDisplay | src/error_chain.rs:139-167 | a kind's display (and so the error's, src/error_chain.rs:80-84) is likewise the innermost kind's message, foreign display or custom display |
| Generated.CauseAsWritten | src/error_chain.rs:62-77 | `cause()` is the next error whenever there is one, even for foreign-link kinds; otherwise the foreign error's own cause for a foreign-link kind, and nothing for any other kind |
| Generated.Cause | src/error_chain.rs:62-77 | like `CauseAsWritten` except for link kinds, and the cause is strictly smaller than the error, so chains are finite |
| Generated.DynCause | src/lib.rs:341 | under either rule, the cause of an error is smaller than it, is the next error whenever there is one, equals the generated `cause()` off link kinds, and is a foreign error's own cause |
| Generated.CauseRulesAgree | src/error_chain.rs:62-77 | the generated and corrected `cause()` agree exactly at errors where no link kind without a next error hides a foreign cause |
| Generated.Chain | src/lib.rs:335-347 | what the iterator yields starts with the error and is no longer than the error's size, so it is finite |
| Generated.AsWrittenChainIsPrefix | src/error_chain.rs:62-96 | the chain the generated `cause()` gives is a prefix of the corrected chain, equal to it exactly when none of its errors is a link hiding a cause |
| Generated.ChainStep | src/lib.rs:338-346 | the chain is the error followed by the chain of its cause |
| Generated.ChainFollowsCause | src/lib.rs:338-346 | the chain starts with the error, each element's cause is the next element, and the last has no cause |
| Generated.ChainUnique | src/lib.rs:338-346 | any sequence with those three properties is the chain |
| Generated.FromKind | src/error_chain.rs:37-44 | `from_kind` (and `From<ErrorKind>`) keeps the kind with no next error and a trace exactly when capture is on; the chain is the error and then the chain of the cause the kind carries: a foreign link's cause as generated, looked up through links when corrected |
| Generated.New | src/error_chain.rs:401-406 | `new` builds an error whose `kind()` and `backtrace()` read back as given, and whose cause is the given next error when one is given |
| Generated.KindAccessor | src/error_chain.rs:47-49 | `kind()` reads back the kind `new` was given, and rebuilding an error from its kind and state gives the error |
| Generated.BacktraceAccessor | src/error_chain.rs:393-395 | `backtrace()` reads back the backtrace `new` was given, and with the next error it is all of the state needed to rebuild the error |
| Generated.KindFromStr | src/error_chain.rs:178-188 | a string converted to a kind is always `Msg`, whose description and display are the string |
| Generated.FromStr | src/error_chain.rs:115-125 | an error built from a string has kind `Msg`, description and display equal to the string, a one-element chain under either rule and a backtrace from `make_backtrace` |
| Generated.KindFromLinked | src/error_chain.rs:169-176 | a linked kind becomes the link's case, which describes and displays as the linked kind |
| Generated.FromLink | src/error_chain.rs:86-96 | link conversion wraps the kind and keeps the state, so the same backtrace and next error, description and display; under the corrected rule the chain after its head is unchanged, so no frame is added; under the generated rule the same holds unless there is no next error and the linked kind is a foreign link with a cause, in which case the chain is the converted error alone |
| Generated.FromForeign | src/error_chain.rs:98-107 | foreign-link conversion gives a fresh state; display and description are the foreign error's; the cause is the foreign error's own cause, so under either rule the chain is one frame followed by that cause's chain |
| Generated.KindRoundTrip | src/error_chain.rs:190-194 | `From<Error> for ErrorKind` gives back what each constructor stored: the kind for `from_kind`, the link case over the linked error's kind for a link conversion, the foreign case for a foreign conversion |
| Generated.DowncastLinks | src/error_chain.rs:412-420 | the linked types are tried in order; a match exists if and only if the error's type is one of them, and the result is that error's backtrace |
| Generated.ExtractBacktrace | src/error_chain.rs:408-421 | the result is `Some(backtrace)` if and only if the error is of the taxonomy's own type or a linked type, and `None` otherwise |
| Generated.LinkDropsForeignCause | src/error_chain.rs:62-96 | an error of a linked taxonomy built from a foreign error with a cause has that cause, but after link conversion the generated `cause()` returns nothing, so its chain is one error where the corrected chain has two |
| ChainIter.ErrorChainIter.constructor | src/lib.rs:333 | a new iterator holds the given slot and has yielded nothing |
| ChainIter.ErrorChainIter.Next | src/lib.rs:338-346 | `next` yields the slot and refills it with that error's cause under the iterator's rule; an empty slot stays empty, so after `None` every call is `None`; yielded items followed by pending ones stay the whole chain |
| ChainIter.Iter | src/error_chain.rs:51-54 | `iter()` gives an iterator whose pending items are the error's chain under the chosen rule (the generated code's is `AsWritten`) |
| ChainIter.Collect | src/lib.rs:335-347 | draining an iterator yields exactly its pending items and leaves it exhausted |
| ChainIter.ChainOf | src/error_chain.rs:51-54 | draining `e.iter()` yields exactly the chain of `e`: it starts with `e`, each item's cause is the next, and the last has none |
| ResultExt.ResolveBacktrace | src/lib.rs:393-394 | the prior error's own or linked backtrace is reused as is, even when it is none; only an error of no known type gets a capture from `make_backtrace` |
| ResultExt.ChainErr | src/lib.rs:386-407 | `Ok` passes through unchanged; `Err(e)` becomes an error with the callback's kind, next error `e` and `e`'s backtrace, whose chain under either rule is itself followed by the chain of `e` |
| ResultExt.CaptureOnce | src/lib.rs:393-394 | after any number of `chain_err` calls the error carries the first error's backtrace, and under either rule its chain is one frame per call longer and ends with the first error's chain |
| ResultExt.SingleBacktrace | src/lib.rs:420-433 | an error built from a kind and then extended any number of times holds the one trace captured when it was built, or none when capture was off |
| ResultExt.LinkedBacktracePropagates | src/lib.rs:393-394 | extending an error converted through a link keeps the linked error's backtrace and adds one frame per extension to the linked error's chain, under the generated rule whenever the conversion did not cut that chain |

## Left out

- Real backtrace capture, the read of `RUST_BACKTRACE` and the `Arc` that shares a trace are not modelled. The variable's value and the captured trace are parameters, and sharing is equality of tokens.
- The formatting of custom `errors` variants is not modelled. It is done by `quick_error!`, which is not part of this model. Their description and display are opaque strings.
- The compiler evaluates `#[cfg]`/`#[meta]` guards on entries; the model only keeps them as strings.
- `Send`/`Sync`/`'static` bounds and `Deref` to the kind are not modelled.
- Downcasting compares type names, where the source compares type identities. A taxonomy is identified by its bare error-type name, so the model is faithful only when every taxonomy has a distinct error-type name equal to the path its linkers write. Two unrelated taxonomies that both keep the default name `Error` would be confused by `Generated.ExtractBacktrace`, and `Generated.FromLink` requires the linked error's name to be the link's path. `ResultExt.ChainErr` only ever looks at its own type and is unaffected.
- A path in a links body is one token.
- The build without the `backtrace` feature (src/lib.rs:400-403, src/error_chain.rs:431-449) is not modelled. It is the same logic without the backtrace field.
- Not part of this model:
  - src/log_ext.rs (logging output);
  - src/quick_main.rs (process exit and printing);
  - src/types.rs and src/trait_alias.rs (re-exports);
  - build.rs (compiler version probe);
  - the examples.
- `Macro.Define`: the limit counts only `error_chain!`'s own rewrites. The code that rule 0 generates expands further macros: `impl_error!` (src/error_chain.rs:35) and `quick_error!` over every link, foreign link and `errors` entry (src/error_chain.rs:139-167). That nested expansion is not modelled, and its depth grows with the taxonomy; this is why the crate asks for `#![recursion_limit = "1024"]` (src/lib.rs:70). So `Define(bs, limit) == Ok(c)` does not mean the compiler accepts the definition under that same limit.
- `Macro.Normalised` and `Macro.Define` do not check for repeated names. Two entries with the same variant name (src/error_chain.rs:149-155), a link path written twice (two `From` impls, src/error_chain.rs:86-96), or a custom variant named `Msg` all give an `Ok` taxonomy. The compiler refuses such a definition when it checks the generated code; that step is not part of this model.
- `Generated.KindFromStr` and `Generated.FromStr` stand for both the `From<&str>` and the `From<String>` conversions, which behave the same.
- `ResultExt.ChainErr`: the callback is a value, so the model cannot show that it is not called on `Ok`. It only shows that the result does not depend on it. The callback also returns the kind directly. This folds in the `.into()` that src/lib.rs:395 applies to the callback's result; those conversions into the kind are modelled by `Generated.KindFromStr` and `Generated.KindFromLinked`.
- `ResultExt.ChainErr` requires the prior error to be of the taxonomy's own type, as the signature of `chain_err` does. So the fallback to `make_backtrace` is stated only in `ResultExt.ResolveBacktrace`.
- `Generated.Cause` differs from the source's `cause()` on errors whose kind is a link case; see Findings. `Generated.CauseAsWritten` is the source's version, and every chain statement is made under both (`CauseRule`), except `Cause(r) == Cause(e)` in `Generated.FromLink`, which holds only for the corrected rule.
- `Macro.Expand` and `Macro.Define` only compute; what they promise is stated by `Macro.ExpandStable`, `Macro.SelfLoop`, `Macro.FoldExhausts` and `Macro.DefineMatchesNormalised`.

## Findings

| source | as written | input that shows it | evidently intended | confidence | as-written member | corrected member |
|---|---|---|---|---|---|---|
| src/error_chain.rs:62-96 | `cause()` delegates to the wrapped error's cause only for the taxonomy's own foreign-link kinds. Link conversion keeps the linked error's state but not the way its cause was found. | A linked taxonomy wraps a foreign error `f` whose cause is `g`. The linked error has cause `g`, but after the link conversion, which has no next error, the outer error has no cause. | Link conversion adds no frame and keeps the chain: the outer error's chain is itself followed by the linked error's chain after its head. This needs `cause()` to look through link kinds. | not executed | Generated.LinkDropsForeignCause | Generated.FromLink |
