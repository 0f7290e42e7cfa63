/** A model of the error wrapper of the `trasy` crate (src/lib.rs).

    `TrasyError<T>` carries an inner error together with a snapshot of the
    active tracing spans and, optionally, a stack backtrace. The snapshots
    come from foreign libraries (span tracing and stack unwinding); here
    they are abstract types, captured by the caller and passed in, and
    their textual renderings are total functions handed to the formatter.
 */
module Trasy {

  /** A snapshot of the active span stack, taken by the span-tracing library. */
  type SpanTrace

  /** A snapshot of the execution stack, taken by the unwinding library. */
  type Backtrace

  datatype Option<T> = None | Some(value: T)

  datatype Result<T, E> = Ok(value: T) | Err(error: E)

  /** The error of a formatting sink. The modelled sink never fails. */
  datatype FmtError = FmtError

  /** The renderings this crate takes from code outside it: the inner
      error's `Display`, the span trace's `Display` and the backtrace's
      `Debug`. */
  datatype Renderers<!T> = Renderers(
    displayInner: T -> string,
    displayContext: SpanTrace -> string,
    debugBacktrace: Backtrace -> string)

  /** A formatting sink: the text written so far. Each write appends. */
  class Formatter {
    var written: string

    constructor ()
      ensures written == []
    {
      written := [];
    }

    method WriteStr(s: string)
      modifies this
      ensures written == old(written) + s
    {
      written := written + s;
    }
  }

  /** The text `fmt` writes first, on every value. */
  function Header(inner: string, context: string): (h: string)
  {
    "Error: " + inner + "\nContext: " + context + "\n"
  }

  /** The text `fmt` writes for a present backtrace. */
  function BacktraceSection(trace: string): (t: string)
  {
    "Backtrace: " + trace + "\n"
  }

  /** Some sub-range of `s` starting at `i` is exactly `t`. */
  predicate OccursAt(s: string, t: string, i: nat)
  {
    i + |t| <= |s| && s[i..i + |t|] == t
  }

  predicate Contains(s: string, t: string)
  {
    exists i: nat | i <= |s| :: OccursAt(s, t, i)
  }

  datatype TrasyError<T> = TrasyError(
    context: SpanTrace,
    backtrace: Option<Backtrace>,
    inner: T)
  {
    /** Attaches a backtrace, replacing any that was there. */
    function WithBacktrace(b: Backtrace): (r: TrasyError<T>)
      ensures r.backtrace == Some(b)
      ensures r.inner == inner && r.context == context
    {
      this.(backtrace := Some(b))
    }

    /** The error's cause: always the wrapped value. */
    function Source(): (r: Option<T>)
      ensures r.Some? && r.value == inner
    {
      Some(inner)
    }

    /** The text the `Display` implementation produces. */
    function Render(show: Renderers<T>): (s: string)
      ensures Header(show.displayInner(inner), show.displayContext(context)) <= s
    {
      Header(show.displayInner(inner), show.displayContext(context)) +
      match backtrace
      case None => []
      case Some(b) => BacktraceSection(show.debugBacktrace(b))
    }

    /** The `Display` implementation: writes the header and, when a
        backtrace is present, the backtrace section, one piece at a time. */
    method Fmt(f: Formatter, show: Renderers<T>) returns (res: Result<(), FmtError>)
      modifies f
      ensures res == Ok(())
      ensures f.written == old(f.written) + Render(show)
    {
      f.WriteStr("Error: ");
      f.WriteStr(show.displayInner(inner));
      f.WriteStr("\nContext: ");
      f.WriteStr(show.displayContext(context));
      f.WriteStr("\n");
      if backtrace.Some? {
        f.WriteStr("Backtrace: ");
        f.WriteStr(show.debugBacktrace(backtrace.value));
        f.WriteStr("\n");
      }
      res := Ok(());
    }
  }

  /** `TrasyError::new`: wraps `inner` with the span trace captured at the
      call, and no backtrace. */
  function New<T>(inner: T, context: SpanTrace): (e: TrasyError<T>)
    ensures e.inner == inner && e.context == context
    ensures e.backtrace == None
  {
    TrasyError(context, None, inner)
  }

  /** The `error!` macro: `new` followed by attaching the backtrace captured
      at the call. */
  function Error<T>(inner: T, context: SpanTrace, captured: Backtrace): (e: TrasyError<T>)
    ensures e.inner == inner && e.context == context
    ensures e.backtrace == Some(captured)
  {
    New(inner, context).WithBacktrace(captured)
  }

  /** The `bail!` macro: the `error!` value wrapped in `Err`. */
  function Bail<U, T>(inner: T, context: SpanTrace, captured: Backtrace): (r: Result<U, TrasyError<T>>)
    ensures r.Err?
    ensures r.error.inner == inner && r.error.context == context
    ensures r.error.backtrace == Some(captured)
  {
    Err(Error(inner, context, captured))
  }

  // ---------------------------------------------------------------------
  // Properties of the builder

  lemma WithBacktraceOverwrites<T>(e: TrasyError<T>, b1: Backtrace, b2: Backtrace)
    ensures e.WithBacktrace(b1).WithBacktrace(b2) == e.WithBacktrace(b2)
  {
  }

  lemma WithBacktraceIdempotent<T>(e: TrasyError<T>, b: Backtrace)
    ensures e.WithBacktrace(b).WithBacktrace(b) == e.WithBacktrace(b)
  {
  }

  /** The wrapped value comes back out of `source` unchanged, whichever way
      the wrapper was built. */
  lemma SourceRoundTrip<T>(x: T, context: SpanTrace, b: Backtrace)
    ensures New(x, context).Source() == Some(x)
    ensures New(x, context).WithBacktrace(b).Source() == Some(x)
    ensures Error(x, context, b).Source() == Some(x)
  {
  }

  // ---------------------------------------------------------------------
  // Properties of the rendering

  /** The rendering opens with "Error: " and the inner error's own text,
      verbatim, then the context line; this header is always a prefix. */
  lemma RenderStartsWithHeader<T>(e: TrasyError<T>, show: Renderers<T>)
    ensures
      var s := e.Render(show);
      var h := Header(show.displayInner(e.inner), show.displayContext(e.context));
      && |h| <= |s| && s[..|h|] == h
      && s[..7] == "Error: "
      && s[7..7 + |show.displayInner(e.inner)|] == show.displayInner(e.inner)
  {
  }

  /** The inner error's text and the context's text both occur in the
      rendering. */
  lemma RenderContainsInnerAndContext<T>(e: TrasyError<T>, show: Renderers<T>)
    ensures Contains(e.Render(show), show.displayInner(e.inner))
    ensures Contains(e.Render(show), show.displayContext(e.context))
  {
    var s := e.Render(show);
    var d := show.displayInner(e.inner);
    var c := show.displayContext(e.context);
    var h := Header(d, c);
    assert s == h + s[|h|..];
    assert h[7..7 + |d|] == d;
    assert OccursAt(s, d, 7);
    var j := 7 + |d| + 10;
    assert h[j..j + |c|] == c;
    assert OccursAt(s, c, j);
  }

  /** The rendering is exactly the header when there is no backtrace, and
      the header followed by the backtrace section when there is one. */
  lemma RenderShape<T>(e: TrasyError<T>, show: Renderers<T>)
    ensures
      var h := Header(show.displayInner(e.inner), show.displayContext(e.context));
      && (e.backtrace.None? <==> e.Render(show) == h)
      && (e.backtrace.Some? ==>
            e.Render(show) == h + BacktraceSection(show.debugBacktrace(e.backtrace.value)))
  {
  }

  /** The rendering always ends with a newline. */
  lemma RenderEndsWithNewline<T>(e: TrasyError<T>, show: Renderers<T>)
    ensures |e.Render(show)| > 0 && e.Render(show)[|e.Render(show)| - 1] == '\n'
  {
  }

  /** Attaching a backtrace to a value without one keeps the old rendering as
      a prefix and makes it strictly longer. */
  lemma RenderGrowsWithBacktrace<T>(e: TrasyError<T>, b: Backtrace, show: Renderers<T>)
    requires e.backtrace.None?
    ensures e.WithBacktrace(b).Render(show)
            == e.Render(show) + BacktraceSection(show.debugBacktrace(b))
    ensures |e.WithBacktrace(b).Render(show)| > |e.Render(show)|
  {
  }

  /** For the same inner text and context text, two renderings are equal
      exactly when the backtrace sections agree: both absent, or both present
      with the same text. So the rendering tells whether a backtrace is
      attached, and which text it had. */
  lemma RenderDeterminesBacktrace<T>(e1: TrasyError<T>, e2: TrasyError<T>, show: Renderers<T>)
    requires show.displayInner(e1.inner) == show.displayInner(e2.inner)
    requires show.displayContext(e1.context) == show.displayContext(e2.context)
    ensures e1.Render(show) == e2.Render(show) <==>
      match (e1.backtrace, e2.backtrace)
      case (None, None) => true
      case (Some(b1), Some(b2)) => show.debugBacktrace(b1) == show.debugBacktrace(b2)
      case _ => false
  {
    var h := Header(show.displayInner(e1.inner), show.displayContext(e1.context));
    var s1, s2 := e1.Render(show), e2.Render(show);
    if e1.backtrace.Some? && e2.backtrace.Some? && s1 == s2 {
      var t1 := show.debugBacktrace(e1.backtrace.value);
      var t2 := show.debugBacktrace(e2.backtrace.value);
      var k := |h| + 11;
      assert s1[k..|s1| - 1] == t1;
      assert s2[k..|s2| - 1] == t2;
    }
  }

  // ---------------------------------------------------------------------
  // Properties of the macros

  /** A value made by `error!` always renders a backtrace section, whatever
      the backtrace snapshot holds. */
  lemma ErrorAlwaysRendersBacktrace<T>(x: T, context: SpanTrace, b: Backtrace, show: Renderers<T>)
    ensures Error(x, context, b).Render(show)
            == New(x, context).Render(show) + BacktraceSection(show.debugBacktrace(b))
    ensures New(x, context).Render(show)
            == Header(show.displayInner(x), show.displayContext(context))
  {
  }

  /** `bail!` yields exactly the `error!` value, as an error. */
  lemma BailIsErrError<U, T>(x: T, context: SpanTrace, b: Backtrace)
    ensures Bail<U, T>(x, context, b) == Err(Error(x, context, b))
  {
  }
}
