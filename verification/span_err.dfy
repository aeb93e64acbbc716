/**
  The crate root of tracing_spanned: the error wrapper `SpanErr`, which pairs an
  error with a snapshot of the tracing context that was current when the error
  was wrapped.

  The snapshot (`SpanTrace` in the crate) comes from an external instrumentation
  layer. Here it is the opaque type `Span`, and the one impure step of the crate,
  taking a snapshot, is replaced by a parameter `captured` that carries the value
  the snapshot call would have returned at that point. A function that has no
  such parameter therefore cannot capture anything.
 */
module TracingSpanned {

  /** An opaque, immutable snapshot of the active tracing spans. */
  type Span

  /** An error together with the span snapshot taken when it was wrapped. */
  datatype SpanErr<E> = SpanErr(error: E, span: Span)

  /** The text of the wrapper: handed straight to the inner error's own
      display, with nothing added before or after. `show` is the inner error
      type's display. */
  function Display<E>(w: SpanErr<E>, show: E -> string): string
  {
    show(w.error)
  }

  /** Replaces the inner error by `f` of it and moves the span along. */
  function Map<E, U>(w: SpanErr<E>, f: E -> U): SpanErr<U>
  {
    SpanErr(f(w.error), w.span)
  }

  /** The conversion from a plain error: the single place where a snapshot is
      taken. `captured` is the snapshot taken at this call. */
  function From<E>(error: E, captured: Span): SpanErr<E>
  {
    SpanErr(error, captured)
  }

  /** Applies `fs` to `e` in order, `fs[0]` first. Defined from the end of the
      sequence, so that it is a reference independent of `MapChain`'s recursion. */
  function ApplyAll<E>(fs: seq<E -> E>, e: E): E
  {
    if |fs| == 0 then e else fs[|fs| - 1](ApplyAll(fs[..|fs| - 1], e))
  }

  /** Applying a non-empty sequence is applying its head first, then the rest. */
  lemma {:induction false} ApplyAllFirst<E>(fs: seq<E -> E>, e: E)
    requires |fs| > 0
    ensures ApplyAll(fs, e) == ApplyAll(fs[1..], fs[0](e))
    decreases |fs|
  {
    if |fs| == 1 {
      assert fs[..0] == [];
      assert fs[1..] == [];
    } else {
      var init := fs[..|fs| - 1];
      assert init[1..] == fs[1..][..|fs[1..]| - 1];
      assert init[0] == fs[0];
      ApplyAllFirst(init, e);
    }
  }

  /** `map` called once per element of `fs`, in order, on the same wrapper, as a
      call site does when it re-maps an error several times. The span that comes
      out is the span that went in, however long the chain, and the error is the
      inner error run through every function in turn. */
  function MapChain<E>(w: SpanErr<E>, fs: seq<E -> E>): (r: SpanErr<E>)
    ensures r.span == w.span
    ensures r.error == ApplyAll(fs, w.error)
    decreases |fs|
  {
    if |fs| == 0 then w
    else
      ApplyAllFirst(fs, w.error);
      MapChain(Map(w, fs[0]), fs[1..])
  }

  /** `From` stores the given error and the given snapshot, and every wrapper is
      the conversion of its own error under its own snapshot: the two fields are
      exactly what `From` was given. */
  lemma FromRoundTrip<E>(e: E, captured: Span, w: SpanErr<E>)
    ensures From(e, captured).error == e
    ensures From(e, captured).span == captured
    ensures From(w.error, w.span) == w
  {
  }

  /** `map` transforms the inner error with the given function and keeps the
      span it was given: it never takes a new snapshot. */
  lemma MapKeepsSpan<E, U>(w: SpanErr<E>, f: E -> U)
    ensures Map(w, f).error == f(w.error)
    ensures Map(w, f).span == w.span
  {
  }

  /** Two maps in a row are one map by the composed function, and the span is
      still the original one. */
  lemma MapComposes<E, U, V>(w: SpanErr<E>, f: E -> U, g: U -> V)
    ensures Map(Map(w, f), g) == Map(w, x => g(f(x)))
    ensures Map(Map(w, f), g).error == g(f(w.error))
    ensures Map(Map(w, f), g).span == w.span
  {
  }

  /** Mapping with the identity gives back the same wrapper. */
  lemma MapIdentity<E>(w: SpanErr<E>)
    ensures Map(w, x => x) == w
  {
  }

  /** A wrapper keeps the snapshot taken by `From` through any number of maps:
      the span is captured once and never re-captured. */
  lemma CapturedOnce<E>(e: E, captured: Span, fs: seq<E -> E>)
    ensures MapChain(From(e, captured), fs).span == captured
    ensures MapChain(From(e, captured), fs).error == ApplyAll(fs, e)
  {
  }

  /** The wrapper's text is exactly the inner error's text, whatever snapshot it
      carries: wrapping adds no prefix or suffix. */
  lemma DisplayPassesThrough<E>(e: E, captured: Span, show: E -> string)
    ensures Display(From(e, captured), show) == show(e)
  {
  }

  /** Two wrappers of the same error display the same text, whatever their
      spans: the snapshot never shows up in the text. */
  lemma DisplayIgnoresSpan<E>(w1: SpanErr<E>, w2: SpanErr<E>, show: E -> string)
    requires w1.error == w2.error
    ensures Display(w1, show) == Display(w2, show)
  {
  }

  /** After a map, the wrapper displays as the new inner error does. */
  lemma DisplayAfterMap<E, U>(w: SpanErr<E>, f: E -> U, show: U -> string)
    ensures Display(Map(w, f), show) == show(f(w.error))
  {
  }
}
