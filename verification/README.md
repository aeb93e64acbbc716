# tracing_spanned in Dafny

A model of the Rust crate tracing_spanned: the error wrapper `SpanErr`, which pairs an
error with a `SpanTrace` snapshot of the tracing spans active when the error was
wrapped, and the two extension methods on `Result` that wrap (`in_current_span`)
and re-map (`spanned_map_err`) the error of a failure.

- `results.dfy` — module `Results`: Rust's `Result` (`Ok` / `Err`)
  and its standard `map_err`, which both extension methods are written with.
- `span_err.dfy` — module `TracingSpanned` (`src/lib.rs`): the opaque `Span`
  snapshot, the `SpanErr` datatype, its display, `map`, and the conversion
  `From`, plus `MapChain`, `map` applied once per function of a sequence.
- `result_ext.dfy` — module `ResultExt` (`src/result_ext.rs`): `InCurrentSpan`,
  `SpannedMapErr`, and `SpannedMapErrChain`, `spanned_map_err` applied once per
  function of a sequence.

Taking a snapshot (`SpanTrace::capture()`) is the only impure step of the crate.
Here `From` and `InCurrentSpan` receive the snapshot that call would return as a
parameter `captured`. `Map` and `SpannedMapErr` have no such parameter, so they
cannot take a new snapshot. The lemmas state that their span is always the one
they were given. A type's `Display` is a parameter `show: E -> string`.

## Model

| member | source | states |
|---|---|---|
| TracingSpanned.DisplayPassesThrough | src/lib.rs:39-43 | a wrapped error displays as exactly the raw error's text, with no prefix or suffix |
| TracingSpanned.DisplayIgnoresSpan | src/lib.rs:39-43 | two wrappers of the same error display the same text whatever their spans; the snapshot never enters the text |
| TracingSpanned.DisplayAfterMap | src/lib.rs:39-51 | after `map`, the wrapper displays as the new inner error does |
| TracingSpanned.MapKeepsSpan | src/lib.rs:47-51 | `map(w, f).error == f(w.error)` and `map(w, f).span == w.span`: the span is moved, not re-captured |
| TracingSpanned.MapComposes | src/lib.rs:47-51 | two maps in a row equal one map by the composed function; the error is `g(f(e))` and the span is the original one |
| TracingSpanned.MapIdentity | src/lib.rs:47-51 | mapping with the identity gives back the same wrapper |
| TracingSpanned.MapChain | src/lib.rs:47-51 | after any number of maps the span is the one the wrapper started with and the error is the inner error run through every function in order |
| TracingSpanned.FromRoundTrip | src/lib.rs:55-61 | `From(e, s)` holds exactly `e` and the snapshot `s`, and every wrapper is the conversion of its own error under its own snapshot |
| TracingSpanned.CapturedOnce | src/lib.rs:45-61 | the snapshot taken by `From` is still the span after any number of maps of one error type |
| ResultExt.InCurrentSpan | src/result_ext.rs:11-13 | the result is `Ok` exactly when the input is; `Ok(v)` passes through unchanged; `Err(e)` becomes a wrapper holding `e` and the snapshot taken at the call |
| ResultExt.InCurrentSpanOkCapturesNothing | src/result_ext.rs:11-13 | on `Ok(v)` the result is `Ok(v)` whatever snapshot would have been taken, so nothing is captured |
| ResultExt.InCurrentSpanKeepsDisplay | src/result_ext.rs:12 | the failure made by `in_current_span` displays as the raw error |
| ResultExt.SpannedMapErr | src/result_ext.rs:22-24 | the result is `Ok` exactly when the input is; `Ok(v)` passes through for every `f`; an `Err` keeps its span and its inner error becomes `f` of the old one |
| ResultExt.SpannedMapErrComposes | src/result_ext.rs:22-24 | `spanned_map_err` with `f` then `g` equals one call with `g ∘ f` |
| ResultExt.SpannedMapErrChain | src/result_ext.rs:22-24 | any chain of `spanned_map_err` calls keeps the variant, leaves a success as it is, and keeps the span of a failure while running its error through every function in order |
| ResultExt.ChainIsOneMap | src/result_ext.rs:22-24 | any chain of `spanned_map_err` calls of one error type equals one call with the composition of the chain |
| ResultExt.WrapThenChain | src/result_ext.rs:5-25 | wrapping then re-mapping any number of times within one error type fails exactly when the input failed, keeps the snapshot taken by the wrap, and leaves a success unchanged |

## Left out

- The internals of `SpanTrace` and of `SpanTrace::capture()` (src/lib.rs:6, 59): they belong to the external tracing_error crate, which reads thread-local span state. The span is an opaque type and the captured value is a parameter.
- The mechanics of `std::fmt::Formatter` (src/lib.rs:40-41): display is a string-valued function of the error, passed in as `show`.
- The compile-time ban on wrapping a `SpanErr` a second time (src/lib.rs:19-32). It rests on `SpanErr` not implementing `std::error::Error` and on the `T: Error` trait bounds. Dafny type parameters carry no such bounds, so in this model nothing stops a `SpanErr<SpanErr<E>>`.
- The derived `Debug` and `Clone` of `SpanErr` (src/lib.rs:33) are not modelled: `Debug` prints both fields, the span included, and `Clone` copies both fields into a second wrapper.
- `#[inline(always)]` (src/lib.rs:46; src/result_ext.rs:10, 21) changes no behaviour.
- The functions given to `map` and `spanned_map_err` are pure and total Dafny functions. A Rust `FnOnce` that panics or has side effects is not modelled.
- TracingSpanned.MapChain: the chain is over one error type (`seq<E -> E>`), while Rust lets each call change the type. Chains that change the type are covered two steps at a time by `MapComposes` and `SpannedMapErrComposes`.
- ResultExt.SpannedMapErrChain: the same one-type restriction as `MapChain`.
- TracingSpanned.CapturedOnce: it is stated through `MapChain`, so it covers chains of one error type only; chains that change the type are covered step by step by `MapKeepsSpan` and `MapComposes`.
- ResultExt.ChainIsOneMap: it is stated through `SpannedMapErrChain`, so it covers chains of one error type only; chains that change the type are covered two steps at a time by `SpannedMapErrComposes`.
- ResultExt.WrapThenChain: it is stated through `SpannedMapErrChain`, so the re-mapping chain keeps one error type; a type-changing step is covered by the contract of `SpannedMapErr`.
- `InCurrentSpan` receives a snapshot even on success, where Rust never calls `capture()`. `InCurrentSpanOkCapturesNothing` proves that value is ignored.
