# multithread.js core in Dafny

A model of the core of `src/Multithread.js`, a browser library that runs
a function in single-use Web Workers. It keeps at most `threads` workers
running at once and sends arguments and results across the worker boundary
as binary buffers. The model covers five parts:

- **Scheduler** (`scheduler.dfy`): the pool record (`threads`, `_activeThreads`,
  `_queue`, `_debug`), the constructor's capacity floor, and `_execute` /
  `ready` as pure transitions. The clock reading is a parameter. A dispatch
  is just "slot taken, call handed on". Over whole histories of submissions and
  completions, the model proves the capacity invariant and first-in
  first-out dispatch.
- **SchedulerAsWritten** (`scheduler_as_written.dfy`): the same two operations
  with the source's queue handling, where a saturated call is only counted.
  The encode call of `_execute` is not part of it. It is kept to exhibit the
  lost-call defect (see Findings).
- **Codecs** (`int32_codec.dfy`, `json_bytes.dfy`, `numbers.dfy`, `bytes.dfy`):
  - the Int32 wire format: four big-endian two's-complement octets per
    element, with ECMA-262 ToInt32 applied to every argument;
  - the byte layer of the JSON wire format: one octet per UTF-16 code unit,
    with `& 255`. An empty buffer reads back as "no value".
- **Worker** (`worker.dfy`): the message handlers of the Int32 and JSON
  worker templates, with the computation as a function parameter.
- **BindingName** (`binding_name.dfy`): the name-choice loop of `_prepare`,
  with each random digit a nondeterministic choice.

Queued calls hold raw arguments. The source encodes a call's arguments only
when it is dispatched (`src/Multithread.js:205`), so the scheduler treats a
call as an opaque value `C`. The codecs apply to a call once it has been
dispatched.

`ready` is a public method that the embedding code must call when a worker
finishes; nothing in the file calls it. The model therefore states its
invariants for histories in which every `ready` answers a running worker
(`Scheduler.Legal`).

As the file stands it does not parse. The worker templates declare the same
`const` twice in one block (src/Multithread.js:31 and 50, 32 and 48, 67 and
76, 95 and 102), which is an early SyntaxError for the whole module. The
model, and both findings below, describe what the remaining lines do once
those declarations are renamed.

## Model

| member | source | states |
|---|---|---|
| JsNumbers.ToInt32 | src/Multithread.js:13 | the conversion the bitwise OR with 0 applies: a 32-bit signed integer congruent modulo 2^32 to the truncated Number, with NaN and the infinities giving 0 |
| JsNumbers.ToInt32OfInt32 | src/Multithread.js:140 | an integer already in the int32 range is unchanged by the conversion `setInt32` applies |
| Scheduler.Capacity | src/Multithread.js:13 | capacity is at least 2 for every request (0, 1, negative, NaN) and is the larger of 2 and ToInt32 of the request |
| Scheduler.Init | src/Multithread.js:12-22 | a new pool satisfies the invariant, is idle, has an empty queue and zeroed telemetry |
| Scheduler.Execute | src/Multithread.js:197-211 | a call is dispatched exactly when a slot is free, and otherwise appended at the queue's tail. Each call is counted once, either as active or as queued. The batch start is stamped exactly when the pool was idle, and end/time are never touched. The invariant is preserved |
| Scheduler.Ready | src/Multithread.js:213-223 | a completion with backlog dispatches the oldest queued call, with net `active` unchanged and the queue one shorter. Without backlog it only frees the slot. The batch end and elapsed time are set exactly when the last worker of an empty-backlog pool finishes. The invariant is preserved when a worker was running |
| Scheduler.RunKeepsInv | src/Multithread.js:197-223 | `threads >= 2`, `0 <= active <= threads`, and "backlog only while saturated" hold after every legal history |
| Scheduler.CapacityNeverExceeded | src/Multithread.js:12-22 | from construction on, no legal history runs more than `threads` workers at once |
| Scheduler.DispatchIsFifo | src/Multithread.js:202-218 | the backlog followed by all submitted calls equals all dispatched calls followed by what still waits |
| Scheduler.DispatchOrderIsSubmissionOrder | src/Multithread.js:197-223 | from construction on, calls are dispatched in submission order, so the dispatched calls form a prefix of the submitted ones |
| Scheduler.FifoScenario | src/Multithread.js:197-223 | with two slots, calls A B C D and one completion: A and B start first, then C, while D still waits |
| Scheduler.SpuriousReadyBreaksInv | src/Multithread.js:213-214 | a `ready` on an idle pool makes the active count negative |
| SchedulerAsWritten.ExecuteAsWritten | src/Multithread.js:197-211 | as written, the saturated branch only bumps `_queueSize`, leaving `_activeThreads` and `_queue` untouched. Otherwise the slot is taken and the call dispatched, or, for `undefined` arguments, the encoder lookup throws a TypeError. The batch start is stamped exactly when the pool was idle |
| SchedulerAsWritten.ReadyAsWritten | src/Multithread.js:213-223 | as written, the slot is freed. A stored head is dispatched with `_queueSize` one smaller. When `_queueSize` is positive but `_queue` is empty, `ready` retakes the slot, throws a TypeError, and leaves `_queueSize` unchanged. Without backlog the batch closes when the pool goes idle |
| SchedulerAsWritten.EveryLaterReadyThrows | src/Multithread.js:213-218 | a stuck pool, one that counts a backlog it does not hold while between 2 and `threads` workers run, is a fixed point of `ready`: every later completion throws and nothing changes. This is the state the lost third call leads to (ThirdCallIsLost), where the pool is saturated |
| SchedulerAsWritten.ExecuteCountersAgree | src/Multithread.js:202-210 | the as-written and corrected `_execute` agree on every counter and on the telemetry, so the defect lies only in the queue's contents |
| SchedulerAsWritten.ThirdCallIsLost | src/Multithread.js:208-218 | with two slots and three calls, the pool is left counting a call it does not hold. Every run of later completions leaves the pool unchanged, and each of them throws, so the third call never reaches a worker. The corrected scheduler dispatches it at the first completion |
| Int32Codec.WordBytes | src/Multithread.js:140 | `setInt32` stores four octets that, read most significant first, spell the value modulo 2^32 |
| Int32Codec.WordValue | src/Multithread.js:180 | `getInt32` yields the int32 congruent modulo 2^32 to the big-endian number the four octets spell |
| Int32Codec.Words | src/Multithread.js:178-181 | the decode loop yields one value per four octets, value i read from octets 4i..4i+3 |
| Int32Codec.Encode | src/Multithread.js:134-144 | n arguments give 4n octets, and octets 4i..4i+3 are the big-endian word of ToInt32(args[i]) |
| Int32Codec.Decode | src/Multithread.js:175-183 | decoding succeeds exactly when the length is a multiple of 4, and otherwise is a RangeError. The result has one int32 per 4 octets, each read from its own word |
| Int32Codec.WordValueOfWordBytes | src/Multithread.js:134-144 | reading back the four octets written for an int32 gives that int32 |
| Int32Codec.WordBytesOfWordValue | src/Multithread.js:175-183 | writing back the int32 read from any four octets gives those octets |
| Int32Codec.DecodeEncode | src/Multithread.js:134-144 | decoding an encoded argument list gives each argument's ToInt32 |
| Int32Codec.DecodeEncodeInt32 | src/Multithread.js:134-144 | `Decode(Encode(xs)) == xs` for every list of int32 values |
| Int32Codec.EncodeDecode | src/Multithread.js:175-183 | every buffer whose length is a multiple of 4 decodes successfully and re-encodes to itself |
| JsonBytes.LowByte | src/Multithread.js:128 | `code & 255` is the octet congruent to the code unit modulo 256 |
| JsonBytes.EncodeText | src/Multithread.js:123-131 | the buffer has one octet per code unit, octet i being the low 8 bits of code unit i |
| JsonBytes.Chars | src/Multithread.js:161-167 | octet i is read back as code unit i of the same value |
| JsonBytes.DecodeText | src/Multithread.js:161-173 | the result is "no value" exactly for an empty buffer, and otherwise the text of the octets |
| JsonBytes.DecodeEncodeText | src/Multithread.js:161-172 | a non-empty text comes back with every code unit reduced modulo 256 |
| JsonBytes.TextRoundTripIff | src/Multithread.js:123-131 | a non-empty text survives the byte layer if and only if every code unit is below 256 |
| JsonBytes.EncodeDecodeText | src/Multithread.js:161-167 | every non-empty buffer is the encoding of its own decoding |
| JsonBytes.TruncationAboveLatin1 | src/Multithread.js:128 | U+0100 is stored as octet 0 and reads back as U+0000 |
| JsonBytes.EmptyIsNoValue | src/Multithread.js:168-169 | an empty buffer decodes to "no value" rather than failing |
| Worker.Normalise | src/Multithread.js:75 | a bare Number becomes the one-element array holding it, and an array passes unchanged |
| Worker.RunInt32 | src/Multithread.js:64-86 | a reply is produced exactly when the inbound length is a multiple of 4, and otherwise a RangeError. The reply decodes to ToInt32 of the computation's result on the decoded arguments, after a bare Number is wrapped as an array |
| Worker.ScalarRepliesAsSingleton | src/Multithread.js:75 | a computation returning a bare Number replies exactly as one returning `[n]` |
| Worker.AddScenario | src/Multithread.js:64-86 | `add(2, 3)` is sent as octets 0 0 0 2 0 0 0 3, and the reply is 0 0 0 5 |
| Worker.RunJson | src/Multithread.js:29-58 | an unserialisable result is an error, and an `undefined` result replies with a buffer that reads back as "no value". A text result replies with one octet per code unit, octet i congruent to code unit i modulo 256. When non-empty, the text reads back unchanged if and only if it is Latin-1 |
| BindingName.IndexFrom | src/Multithread.js:232 | gives the first occurrence at or after a position, or -1 if and only if there is none |
| BindingName.IndexOf | src/Multithread.js:232 | `indexOf` gives -1 if and only if the needle does not occur, and otherwise its first position |
| BindingName.ChooseName | src/Multithread.js:225-235 | a non-empty `fn.name` is kept. Otherwise the name is `'$'` followed by at least one digit, does not occur in the function's source, and has at most `|fnStr| + 1` characters (or 2). The loop stops at the first candidate missing from the source: every shorter candidate, each a prefix of the name, occurs there |
| BindingName.ChooseNameAsWritten | src/Multithread.js:226-230 | as written, a named function keeps its name, and an anonymous one throws at the reassignment of the `const` binding |
| BindingName.AnonymousFunctionThrows | src/Multithread.js:226-230 | the as-written name choice throws a TypeError for every anonymous function |

## Findings

| source | as written | input that shows it | evidently intended | confidence | as-written member | corrected member |
|---|---|---|---|---|---|---|
| src/Multithread.js:208-210 | the saturated branch increments `_queueSize` but never pushes onto `_queue`. `ready` then calls `_execute` on the `undefined` that `shift()` returns, which takes the slot and throws before `_queueSize--`; every later `ready` does the same | `new Multithread(2)`, three calls, then `ready()` (once the duplicate `const` declarations are renamed so the file parses) | push `[resource, args, type]` onto `_queue` | high; not executed | SchedulerAsWritten.ThirdCallIsLost | Scheduler.DispatchIsFifo |
| src/Multithread.js:226-233 | `name` is declared `const` and then reassigned, which throws a TypeError | any anonymous function, e.g. `pool.process(function () {})` (once the file parses) | declare `name` with `let` | high; not executed | BindingName.AnonymousFunctionThrows | BindingName.ChooseName |

## Left out

- Worker, Blob, object-URL, `postMessage`/`close` and the environment
  checks (src/Multithread.js:1-9, 204, 207, 244, 56-57, 84-85, 108-109) are
  browser I/O and concurrency. A dispatch is reported as the call handed on,
  and the pool's events are a serial history.
- The script templating of `_prepare` (src/Multithread.js:237-242) rebuilds
  source text through `Function.prototype.toString` and regular
  expressions. Only the binding-name choice is modelled. The placeholders it
  replaces do not occur in the templates, so the substitutions change
  nothing.
- `JSON.stringify` / `JSON.parse` are library calls. The JSON byte layer
  works on already-serialised text. Serialisation failure is the abstract
  outcome `NotSerialisable` of the worker's result
  (src/Multithread.js:42-46). The failure of `_encode.JSON` to serialise its
  arguments (src/Multithread.js:117-121) is not modelled. A parse failure, or
  an exception thrown by the computation inside the JSON worker, is folded
  into the computation parameter and not modelled separately. The Int32
  worker's computation returns a value of `Int32Returned`, which has no
  failure variant, so an Int32 computation that throws is not represented.
- The Float64 codec and worker (src/Multithread.js:89-111, 146-156, 185-194)
  depend on IEEE-754 bit patterns.
- `Math.random` and `new Date` (src/Multithread.js:199, 220, 230, 233) become
  a nondeterministic digit choice and a `now` parameter. The contracts hold
  for every choice of digits.
- `process`, `processInt32` and `processFloat64` (src/Multithread.js:249-271)
  are glue that binds `_prepare` to `_execute`. They also pass the outer
  `arguments` instead of the call's own arguments.
- Scheduler.Execute: does not include the encoding step of
  src/Multithread.js:205. As written, an encoder that throws does so after
  `_activeThreads++` and leaves the slot taken. The model does not capture
  this, because encoding is kept apart from admission.
- Worker.RunInt32: models the intended behaviour of the Int32 template. As
  written, the template redeclares `const len`, assigns to the `const`
  bindings `value` and `view`, and never substitutes `func`
  (src/Multithread.js:62, 67, 75-78), so it cannot run.
- Worker.RunJson: models the intended behaviour of the JSON template. As
  written, it redeclares `const len` and `const view` and assigns to the
  `const` binding `data` (src/Multithread.js:30-50), and never substitutes
  `func` (src/Multithread.js:27).
- JsonBytes.EncodeText: models the evident intent of `_encode.JSON`. As
  written, `data` is declared inside the `try` block and is out of scope at
  src/Multithread.js:123.
- SchedulerAsWritten.ExecuteAsWritten: leaves out the encode call of
  src/Multithread.js:205. As written, `_encode.JSON` throws a ReferenceError
  at src/Multithread.js:123 after the slot has been taken, so every JSON call
  leaks a slot. Only the Threw outcome for `undefined` arguments is modelled.
- SchedulerAsWritten.ReadyAsWritten: the contract says nothing about a pool
  with more active workers than slots, which no sequence of calls reaches.
- Scheduler.Capacity: takes the request after ToNumber. The TypeError that
  `threads | 0` (src/Multithread.js:13) throws for a Symbol or a BigInt is
  not modelled, and neither is ToNumber's mapping of other values.
- Int32Codec.Encode: takes the arguments after ToNumber. The TypeError that
  `setInt32` (src/Multithread.js:140) throws for a Symbol or a BigInt
  argument is not modelled.
- BindingName.IndexOf: Dafny strings are sequences of Unicode scalar values,
  whereas `fn.toString()` is a sequence of UTF-16 code units. Positions
  differ when the source holds characters outside the Basic Multilingual
  Plane. Whether the ASCII `'$'`-and-digits name occurs does not differ,
  because no surrogate code unit is ASCII.
- Timestamps are `Date` milliseconds, modelled as unbounded integers.
