/**
  The two extension methods on `Result`: `in_current_span` wraps the error of a
  failure with the current span snapshot, and `spanned_map_err` re-maps the
  inner error of an already wrapped failure. Both leave a success alone.
 */
module ResultExt {
  import opened Results
  import opened TracingSpanned

  /** `in_current_span`: the error of a failure goes through `From`, which takes
      the snapshot `captured`; a success passes through. */
  function InCurrentSpan<T, E>(r: Result<T, E>, captured: Span): (res: Result<T, SpanErr<E>>)
    ensures res.Ok? <==> r.Ok?
    ensures r.Ok? ==> res == Ok(r.value)
    ensures r.Err? ==> res.error.error == r.error && res.error.span == captured
  {
    MapErr(r, e => From(e, captured))
  }

  /** `spanned_map_err`: the inner error of a wrapped failure is run through `f`
      and its span is kept; a success passes through. */
  function SpannedMapErr<T, E, E2>(r: Result<T, SpanErr<E>>, f: E -> E2): (res: Result<T, SpanErr<E2>>)
    ensures res.Ok? <==> r.Ok?
    ensures r.Ok? ==> res == Ok(r.value)
    ensures r.Err? ==> res.error.error == f(r.error.error) && res.error.span == r.error.span
  {
    MapErr(r, w => Map(w, f))
  }

  /** A success comes out of `in_current_span` the same whatever snapshot would
      have been taken: nothing is captured on success. */
  lemma InCurrentSpanOkCapturesNothing<T, E>(v: T, s1: Span, s2: Span)
    ensures InCurrentSpan<T, E>(Ok(v), s1) == InCurrentSpan<T, E>(Ok(v), s2) == Ok(v)
  {
  }

  /** The failure made by `in_current_span` displays exactly as the raw error. */
  lemma InCurrentSpanKeepsDisplay<T, E>(e: E, captured: Span, show: E -> string)
    ensures InCurrentSpan<T, E>(Err(e), captured).Err?
    ensures Display(InCurrentSpan<T, E>(Err(e), captured).error, show) == show(e)
  {
  }

  /** Two `spanned_map_err` calls in a row are one call with the composed
      function. */
  lemma SpannedMapErrComposes<T, E, U, V>(r: Result<T, SpanErr<E>>, f: E -> U, g: U -> V)
    ensures SpannedMapErr(SpannedMapErr(r, f), g) == SpannedMapErr(r, x => g(f(x)))
  {
  }

  /** `spanned_map_err` called once per element of `fs`, in order. A success
      stays the same success, a failure stays a failure with the same span, and
      its inner error is run through every function in turn. */
  function SpannedMapErrChain<T, E>(r: Result<T, SpanErr<E>>, fs: seq<E -> E>): (res: Result<T, SpanErr<E>>)
    ensures res.Ok? <==> r.Ok?
    ensures r.Ok? ==> res == r
    ensures r.Err? ==> res.error.span == r.error.span
    ensures r.Err? ==> res.error.error == ApplyAll(fs, r.error.error)
    decreases |fs|
  {
    if |fs| == 0 then r
    else if r.Ok? then SpannedMapErrChain(SpannedMapErr(r, fs[0]), fs[1..])
    else
      ApplyAllFirst(fs, r.error.error);
      SpannedMapErrChain(SpannedMapErr(r, fs[0]), fs[1..])
  }

  /** Any chain of `spanned_map_err` calls equals a single call with the
      composition of the chain. */
  lemma ChainIsOneMap<T, E>(r: Result<T, SpanErr<E>>, fs: seq<E -> E>)
    ensures SpannedMapErrChain(r, fs) == SpannedMapErr(r, x => ApplyAll(fs, x))
  {
  }

  /** End to end: wrapping a result and then re-mapping it any number of times
      gives a failure exactly when the input was a failure, with the snapshot
      taken by the wrap and the error run through the chain; a success is left
      as it was. */
  lemma WrapThenChain<T, E>(r: Result<T, E>, captured: Span, fs: seq<E -> E>)
    ensures SpannedMapErrChain(InCurrentSpan(r, captured), fs).Err? <==> r.Err?
    ensures r.Ok? ==> SpannedMapErrChain(InCurrentSpan(r, captured), fs) == Ok(r.value)
    ensures r.Err? ==> SpannedMapErrChain(InCurrentSpan(r, captured), fs).error.span == captured
    ensures r.Err? ==> SpannedMapErrChain(InCurrentSpan(r, captured), fs).error.error == ApplyAll(fs, r.error)
  {
  }
}
