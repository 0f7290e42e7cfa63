# trasy error wrapper — Dafny model

`trasy` wraps any error value `T` in a `TrasyError<T>`. The wrapper also holds a snapshot of the active tracing spans (the "context") and, optionally, a stack backtrace. Both snapshots are captured where the error is created. This project models that wrapper (`src/lib.rs`, lines 14-64):

- the value itself, as the datatype `TrasyError<T>` with the fields `context`, `backtrace` and `inner`;
- `TrasyError::new` (`New`): the context snapshot is a parameter and no backtrace is stored;
- `with_backtrace` (`WithBacktrace`): a record update that stores `Some(b)`;
- the `Display` implementation: `Fmt` appends to a `Formatter` sink one write at a time. The pure function `Render` specifies the whole text it writes;
- `Error::source` (`Source`): always the inner error;
- the `error!` and `bail!` macros (`Error`, `Bail`), as plain functions whose captured backtrace is a parameter.

The span trace and the backtrace come from foreign libraries. They are abstract types (`SpanTrace`, `Backtrace`). Their text forms are supplied as total functions in a `Renderers<T>` record: the inner error's `Display`, the span trace's `Display` and the backtrace's `Debug`.

There is no macro that wraps without a backtrace: both `error!` and `bail!` call `with_backtrace(Backtrace::capture())` unconditionally (`src/lib.rs:55`, `src/lib.rs:62`), and `with_backtrace` always stores `Some`. The model follows the code: a value made by either macro always carries a backtrace and always renders a `Backtrace:` line. Whether the captured snapshot holds real frames is a property of the opaque `Backtrace` value.

## Model

| member | source | states |
|---|---|---|
| `Trasy.New` | src/lib.rs:22-28 | the wrapped value is kept unchanged, the given span trace is stored and no backtrace is attached |
| `Trasy.TrasyError.WithBacktrace` | src/lib.rs:30-33 | the backtrace becomes `Some(b)`; `inner` and `context` are unchanged |
| `Trasy.WithBacktraceOverwrites` | src/lib.rs:31 | attaching `b1` and then `b2` is the same as attaching `b2` alone |
| `Trasy.WithBacktraceIdempotent` | src/lib.rs:31 | attaching the same backtrace twice is the same as attaching it once |
| `Trasy.TrasyError.Source` | src/lib.rs:46-50 | `source` is always present and is the inner error |
| `Trasy.SourceRoundTrip` | src/lib.rs:22-50 | a value wrapped by `new`, by `new` plus `with_backtrace`, or by `error!` comes back out of `source` unchanged |
| `Trasy.TrasyError.Render` | src/lib.rs:38-42 | the text `Display` writes: the header `Error: …\nContext: …\n`, always a prefix, then the backtrace section only when one is present |
| `Trasy.TrasyError.Fmt` | src/lib.rs:36-44 | formatting always returns `Ok` and appends exactly the rendering to what the sink already held, so it depends only on the stored fields |
| `Trasy.RenderStartsWithHeader` | src/lib.rs:38 | the text starts with `Error: ` followed verbatim by the inner error's text; the header `Error: …\nContext: …\n` is always a prefix |
| `Trasy.RenderContainsInnerAndContext` | src/lib.rs:38 | the inner error's text and the span trace's text both occur verbatim in the rendering |
| `Trasy.RenderShape` | src/lib.rs:38-42 | the rendering is exactly the header if and only if there is no backtrace; with `Some(b)` it is the header followed by `Backtrace: `, the backtrace's debug text and a newline |
| `Trasy.RenderEndsWithNewline` | src/lib.rs:38-42 | the rendering is never empty and always ends with a newline |
| `Trasy.RenderGrowsWithBacktrace` | src/lib.rs:30-42 | attaching a backtrace to a value without one keeps its old rendering as a prefix and makes the text strictly longer |
| `Trasy.RenderDeterminesBacktrace` | src/lib.rs:38-42 | with the same inner and context text, two renderings are equal exactly when both have no backtrace or both have backtraces with the same debug text |
| `Trasy.Error` | src/lib.rs:52-57 | `error!(e)` keeps `e` as the inner error and always attaches the captured backtrace |
| `Trasy.ErrorAlwaysRendersBacktrace` | src/lib.rs:52-57 | an `error!` value renders as the `new` value's two-line header followed by a backtrace section |
| `Trasy.Bail` | src/lib.rs:59-64 | `bail!(e)` is always an `Err` whose value keeps `e` and carries the captured backtrace |
| `Trasy.BailIsErrError` | src/lib.rs:59-64 | `bail!(e)` is exactly `Err(error!(e))` |

## Left out

- `SpanTrace::capture()` and `Backtrace::capture()`: these belong to foreign tracing and unwinding libraries. Their results are parameters of `New`, `Error` and `Bail`.
- The text forms of the inner error, the span trace and the backtrace: these are foreign `Display`/`Debug` code. They are uninterpreted functions in `Renderers`.
- `Trasy.TrasyError.Fmt`: formatting errors are not modelled, whether from the sink or from the foreign `Display`/`Debug` implementations. `Renderers` are total and every write succeeds, so the early returns of the two `write!(…)?` calls never happen.
- The process-wide backtrace-enable setting: nothing in this code reads it. `Backtrace::capture` consults it inside the opaque snapshot.
- The derived `Debug` output of `TrasyError`: its format is generated by the compiler.
- The `AsRef<dyn Error>` conversion in `source`: the model returns the inner error itself, with no trait-object dispatch.
- `TelemetryConfig`, its `Default`, `with_oltp_exporter` and `setup_opentelemetry` (src/lib.rs:66-132): asynchronous exporter set-up around third-party libraries, with no logic of this crate's own.
