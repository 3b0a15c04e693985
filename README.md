# Timeout combinator: the sequential core

This project models, in Dafny, what `timed.cpp` itself decides when it attaches
a deadline to an arbitrary Asio operation, and proves properties of that model.
The combinator races a `steady_timer` wait against the wrapped operation in an
Asio parallel group. The race belongs to Asio. What `timed.cpp` adds is:

- the choice of executor: the handler's associated executor, else the
  initiation's, else the system executor. The one choice is used for the timer
  and for both branches of the group (module `Executors`, and the constructor of
  `Timed.TimedCompletion`);
- the group's completion handler. It ignores the completion order and the
  timer's error code, releases the shared timer and then invokes the caller's
  handler once with the wrapped operation's results, unchanged and in order.
  It is modelled as the class `Timed.TimedCompletion<R>`. The class has a
  nullable `timer` field and an event `trace` that logs the timer release and
  the handler invocation. The result tuple is a `seq<R>`, so its arity is not
  fixed;
- two string helpers the demo uses to print a line: `trim_crlf`, a loop that
  strips trailing CR/LF (module `StringViews`, method `TrimCrlf` proved against
  the reference function `TrimmedCrlf`), and `left_view`, which takes the first
  `n` characters.

The code never produces a distinct timeout error. Line 97 forwards the
wrapped operation's results whichever branch finished first, so on a timeout
the caller sees the cancelled operation's own results (typically its
"operation aborted" error code). The model therefore has no separate
timeout outcome in the error slot and no tie-break rule between the branches.

Files: `wrappers.dfy` (Option), `strings.dfy` (`StringViews`), `executors.dfy`
(`Executors`), `completion.dfy` (`Timed`).

## Model

| member | source | states |
|---|---|---|
| `StringViews.TrimmedCrlf` | timed.cpp:155-160 | the trimmed string is a prefix of the input, it is empty or its last character is neither '\r' nor '\n', and every character dropped from the end is '\r' or '\n' |
| `StringViews.TrimCrlf` | timed.cpp:155-160 | the loop that drops the last character while it is CR or LF returns exactly `TrimmedCrlf` of its input |
| `StringViews.TrimCrlfUnique` | timed.cpp:157-158 | those three properties determine the result: any prefix that ends clean and leaves only CR/LF behind equals `TrimmedCrlf(s)` |
| `StringViews.TrimCrlfIdempotent` | timed.cpp:155-160 | trimming twice gives the same string as trimming once |
| `StringViews.TrimCrlfUnchanged` | timed.cpp:157 | the input is returned unchanged if and only if it is empty or does not end in CR/LF |
| `StringViews.TrimCrlfIgnoresTerminators` | timed.cpp:157-158 | appending any run of CR/LF characters to a string does not change its trimmed form |
| `StringViews.LeftView` | timed.cpp:162-166 | for `n <= |s|`, the view has length `n` and is a prefix of `s`, i.e. it is `s[0..n]` |
| `StringViews.PrintedMessage` | timed.cpp:179-182 | when the first `n` characters of the line are a message followed by its CR/LF terminator, `trim_crlf(left_view(line, n))` is exactly the message, whatever follows in the buffer |
| `Executors.SelectExecutor` | timed.cpp:40-45 | the handler's associated executor if present; otherwise the initiation's associated executor if present; otherwise the system executor |
| `Executors.FirstPresent` | timed.cpp:40-43 | a fallback chain yields its default when no candidate is present, and otherwise the first present candidate: one equal to the result with none present before it |
| `Executors.SelectExecutorIsFallbackChain` | timed.cpp:40-45 | the selection equals the first present element of the chain handler, initiation, with the system executor as default |
| `Timed.SteadyTimer.constructor` | timed.cpp:51 | the timer is constructed on the given executor |
| `Timed.TimedCompletion.constructor` | timed.cpp:44-63 | the executor is chosen once by `SelectExecutor`; a fresh timer is built on it; both group branches (timer wait, wrapped operation) are bound to that same executor; nothing has been delivered yet |
| `Timed.Invocations` | timed.cpp:93-97 | the handler invocations recorded in a trace number at most the trace's length, and each one appears in the trace |
| `Timed.InvocationsAppend` | timed.cpp:93-97 | proof helper for the event log: logging one event adds that event's result tuple to the invocations if it is a handler invocation, and nothing otherwise |
| `Timed.ReleaseComesFirst` | timed.cpp:93-97 | in any log that keeps release-before-invocation, the first event is the timer's release; so while the timer is still held the log is empty |
| `Timed.TimedCompletion.ResetTimer` | timed.cpp:93-94 | called while the timer is still held, when nothing has happened yet; the timer reference becomes null, the log is exactly one release, and nothing has been delivered to the handler |
| `Timed.TimedCompletion.InvokeHandler` | timed.cpp:95-97 | with the timer already released, the handler receives exactly the given results, and this is its only invocation |
| `Timed.TimedCompletion.Complete` | timed.cpp:78-98 | whatever the completion order and timer error code, the log becomes exactly: timer released, then handler invoked with the wrapped operation's results, unchanged and in order; the handler has been invoked exactly once; the object invariant (one executor for both branches, release before invocation, at most one invocation) is kept |

## Left out

- The race: `make_parallel_group`, `wait_for_one`, detecting the first completion and cancelling the other branch (timed.cpp:55-75). This is concurrent code inside Asio. The model starts at the point where the group calls its completion handler.
- A distinct timeout error and a tie-break rule: neither exists in the code, which forwards the wrapped operation's results (timed.cpp:97).
- The `async_result` specialisation, `timed_token`, `timed()` and `with_timeout()` (timed.cpp:17-22, 103-147). They only forward arguments to `async_initiate` at compile time.
- `std::allocate_shared` with the handler's allocator, and the timer's duration (timed.cpp:50-51). These are allocation and clock behaviour. `SteadyTimer` keeps only its executor.
- Shared-pointer reference counting: the model has a single nullable reference that the completion handler owns. The only reference the sequential code releases is that one.
- `test`, `run` and `main` (timed.cpp:149-153, 168-201). These are coroutines, standard-input descriptors and console output. `PrintedMessage` states only how `run` composes the two string helpers.
- `scratch.cpp` and `scratch2.cpp`. The first is an earlier copy of the combinator that does not reset the timer before invoking the handler. The second is a socket experiment with no logic of its own.
- `StringViews.LeftView`: the C++ function has undefined behaviour for `n > s.size()`. The model requires `n <= |s|`, which both call sites in `run` (timed.cpp:182 and timed.cpp:192) meet because each `n` comes from the `async_read_until` that filled the string.
- Characters: `std::string_view` holds bytes and the model's `string` holds Unicode characters; one character stands for one byte. Nothing is lost, because only '\r' and '\n' are compared and neither byte occurs inside a UTF-8 multi-byte sequence.
- Element types of the result tuple: `seq<R>` has a single element type `R`. A heterogeneous tuple such as `(error_code, size_t)` is modelled by choosing `R` as a sum of those types.
