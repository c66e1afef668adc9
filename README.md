# FooBar firmware: a verified model of its core

The FooBar firmware runs on an ESP32 under FreeRTOS. A serial feeder reads a
decimal start value from UART 1 and validates it with `strtol`. It echoes the
value and posts it, without waiting, to the coordinator's request queue, which
holds 7 values. The value 0 restarts the device instead.

Once per second the coordinator (the Foobar task) does the following:

- When idle (counter 0), it takes the oldest request.
- While the counter is non-zero, it builds the message `{value, isPrime(value)}`.
- It sends the message to the Foo worker when the value is even, or to the Bar worker when it is odd. Each worker queue has one slot, and a message that does not fit is dropped.
- It counts down by one.

Each worker receives from its own queue once per second. It prints `Foo <value>` or `Bar <value>` on the UART, followed by ` Prime` for a prime.

The model is split into these modules:

- `Config` (config.dfy) holds the 32-bit word `u32`, the message and the capacities and buffer sizes.
- `Queues` (queues.dfy) models the zero-wait FreeRTOS queue:
  - pure `Send`/`Receive` with their FIFO lemmas;
  - a `BoundedQueue` class whose `TrySend`/`TryReceive` update its contents in place.
- `Primality` (primality.dfy) models `isPrime`. Its trial-division loop is proved equal to the mathematical definition of a prime.
- `Decimal` (decimal.dfy) defines decimal numerals and their values, with both round trips.
- `Rendering` (rendering.dfy) defines the printed line in two versions:
  - the line as intended (`Render`), which can be read back;
  - the line as the code builds it (`RenderAsWritten`: `%ld` on a 32-bit `long`, cut to 13 characters by `snprintf`).
- `Uart` (uart.dfy) models the UART as the list of texts written to it.
- `Workers` (workers.dfy) models the Foo and Bar tasks as one `Worker` class parameterised by its label. `Tick` is proved against the pure `Step`. The inverted receive test of the code is modelled beside it as `StepAsWritten`.
- `Coordinator` (coordinator.dfy) models the Foobar task as a `Coordinator` class. `Tick` is proved against the pure `Step`, whose contract states the tick's behaviour:
  - it picks up a request only when idle;
  - it routes values by parity;
  - it drops a value when the worker's queue is full;
  - it counts down by exactly one;
  - no queue ever grows past its bound.
- `Pipeline` (pipeline.dfy) runs the three tasks together, one period at a time (coordinator, then Foo, then Bar). It proves that a start value `n` prints the lines for `n, n-1, ..., 1` in order, then falls idle. The start value 5 is worked through line by line.
- `LibC` (strtol.dfy) models `strtol` in base 10 as section 7.22.1.4 of ISO/IEC 9899:2011 (C11) specifies it, with the 32-bit `long` of the ESP32: white space, sign, digits, saturation with ERANGE.
- `Serial` (serial.dfy) models the serial feeder:
  - `Validate`, the whole-text check with `errno` cleared;
  - `ValidateAsWritten`, which keeps the stale `errno`;
  - `Dispatch`, the pure decision of `serial_postFoobarData`;
  - a `Serial` class whose `PostFoobarData` fills the 32-byte receive buffer in place, NUL-terminates it, and is proved against `Dispatch`.

In four places the code does not do what it evidently means to. Both versions are modelled there, and "## Findings" lists them:

- the workers' receive test;
- the size given to `snprintf`;
- `%ld` used with an unsigned value;
- `errno` never being cleared.

The classes and the multi-tick lemmas use the corrected version; "## Left out" names where they differ from the code as written. Each defect is modelled as written beside them and shown on a concrete input.

## Model

| member | source | states |
|---|---|---|
| Queues.Send | foobar.cpp:150-159 | a zero-wait send never exceeds the capacity; on a full queue it fails and changes nothing; otherwise it keeps the queued elements and appends the new one as the newest |
| Queues.Receive | foobar.cpp:137-141 | a zero-wait receive on an empty queue delivers nothing and changes nothing; otherwise it delivers the oldest element and leaves exactly the rest |
| Queues.SendAllKeepsOldest | serial.cpp:81-85 | of a burst of sends into a bounded queue, exactly those that find room are kept, in order, and every later one is dropped |
| Queues.ReceiveAllInOrder | foobar.cpp:136-142 | receiving until the queue reports empty yields the queued elements oldest first |
| Queues.FifoRoundTrip | foobar.cpp:47 | whatever fits in the queue is received in the order it was sent |
| Queues.BoundedQueue.constructor | foobar.cpp:123-124 | a new queue is empty and has the given capacity |
| Queues.BoundedQueue.TrySend | foobar.cpp:150-153 | `xQueueSend` with zero wait: returns pdPASS exactly when there is room, and the contents become `Send` of the old contents |
| Queues.BoundedQueue.TryReceive | foobar.cpp:137-141 | `xQueueReceive` with zero wait: delivers and removes the head as `Receive` says, and fails without change on an empty queue |
| Decimal.Dec | foobar.cpp:188 | the decimal text of a value is non-empty, all digits, and has no leading zero |
| Decimal.DecRoundTrip | foobar.cpp:188-189 | reading back the decimal text of n gives n |
| Decimal.DigitsRoundTrip | serial.cpp:110 | a digit string without leading zeros is the decimal text of its own value |
| Decimal.DecLength | foobar.cpp:188-189 | a value below 10^k has at most k digits |
| Decimal.DecLengthAtLeast | foobar.cpp:188-189 | a value of at least 10^(k-1) has at least k digits |
| Primality.HalfRangeSuffices | foobar.cpp:249-253 | trial division up to n/2 decides primality: no divisor lies between n/2 and n |
| Primality.IsPrime | foobar.cpp:242-256 | the loop returns true exactly when the value is prime (false for 0 and 1), and its 32-bit counter never passes value/2 + 1, so it cannot wrap |
| Primality.SmallPrimes | foobar.cpp:245-247 | 0, 1 and 4 are not prime; 2, 3 and 5 are |
| Rendering.Truncate | foobar.cpp:188 | what `snprintf` of size n+1 keeps is a prefix of the text: all of a text that fits, and exactly its first n characters otherwise |
| Rendering.AsLong | foobar.cpp:188-189 | `%ld` of a `uint32_t` with a 32-bit `long` reads the same bits as a signed number in [LONG_MIN, LONG_MAX] congruent to it modulo 2^32 |
| Rendering.LongDec | foobar.cpp:188 | `%ld` prints the digits of a non-negative number, and a minus sign followed by the digits of the magnitude for a negative one; the digits read back as that value and carry no leading zero |
| Rendering.RenderAsWritten | foobar.cpp:187-194 | the line as built always fits the 64-byte buffer: at most 13 formatted characters plus " Prime" |
| Rendering.RenderRoundTrip | foobar.cpp:188-194 | the intended line carries the label, the value and the primality: reading it back gives exactly the message |
| Rendering.RenderFitsBuffer | foobar.cpp:187-194 | every intended line has at most 3 + 1 + 10 + 6 = 20 characters and fits the 64-byte buffer |
| Rendering.AsWrittenExactBelowBillion | foobar.cpp:188-189 | for values below 10^9 the line as built is exactly the intended line |
| Rendering.AsWrittenDropsLastDigit | foobar.cpp:188-189 | a ten-digit value up to LONG_MAX loses its last digit: the line as built is the intended line for value/10, not the one for value |
| Rendering.AsWrittenBillion | foobar.cpp:188-189 | 1000000000 is printed as "Foo 100000000" instead of "Foo 1000000000" |
| Rendering.AsWrittenPrintsNegative | foobar.cpp:188-189 | a value above LONG_MAX is printed with a minus sign right after the label and the space, so the line differs from the intended one |
| Rendering.AsWrittenMinusFive | foobar.cpp:221-222 | the value 4294967291 is printed as "Bar -5", followed by " Prime" when it is marked prime |
| Workers.StepsPrintInOrder | foobar.cpp:182-200 | k ticks of a worker print one queued message per tick, oldest first, each as its rendered line, and leave the rest queued; ticks on an empty queue print nothing |
| Workers.AsWrittenSwallowsMessage | foobar.cpp:186-197 | with the receive test as written, a queued message is consumed and nothing is printed, where the intended tick prints its line |
| Workers.AsWrittenPrintsWhenIdle | foobar.cpp:219-230 | with the receive test as written, an empty queue prints a line built from the uninitialised message, where the intended tick prints nothing |
| Workers.Worker.constructor | foobar.cpp:179-180 | a worker is bound to its label and its queue |
| Workers.Worker.Tick | foobar.cpp:183-197 | one loop pass: receive with zero wait and, if a message was there, write its rendered line; queue and UART log change exactly as `Step` says |
| Coordinator.Step | foobar.cpp:136-164 | idle with no request: nothing changes; idle with requests: exactly the oldest is removed, a start value 0 keeps it idle with the worker queues untouched, and a start value n > 0 is sent in the same tick, leaving the counter at n - 1; active: the request queue is untouched; the counter drops by one from the value emitted this tick and never below 0; even values are sent to Foo and odd ones to Bar, leaving the other queue untouched; queue bounds are preserved |
| Coordinator.DropWhenWorkerBusy | foobar.cpp:150-163 | a value whose worker queue is full is dropped and the counter still moves on, with nothing else changed |
| Coordinator.Coordinator.constructor | foobar.cpp:121-124 | the coordinator starts idle with all three queues empty and separate |
| Coordinator.Coordinator.Tick | foobar.cpp:136-164 | one loop pass, calling `isPrime`, changes the counter and the three queues exactly as `Step` says and keeps every queue within its capacity |
| Pipeline.CountdownAt | foobar.cpp:145-164 | the i-th line of the countdown from v is the line for v - i |
| Pipeline.ActiveTick | foobar.cpp:145-164 | an active period with empty worker queues prints the line for the current value (Foo for even, Bar for odd, marked when prime) and counts down by one |
| Pipeline.ActiveRun | foobar.cpp:145-164 | k active periods print v, v-1, ..., v-k+1 in order and drop nothing |
| Pipeline.StartIsFirstActivePeriod | foobar.cpp:136-146 | the period that takes a start value n already prints n |
| Pipeline.SequenceFromRequest | foobar.cpp:136-164 | a start value n > 0 prints every line n, n-1, ..., 1 exactly once, in order, in n periods, then the coordinator is idle with the remaining requests still queued |
| Pipeline.IdleStaysIdle | foobar.cpp:136-145 | with no requests, any number of periods changes nothing and prints nothing |
| Pipeline.CountdownFromFive | foobar.cpp:146-161 | the lines for 5 down to 1 are "Bar 5 Prime", "Foo 4", "Bar 3 Prime", "Foo 2 Prime", "Bar 1" |
| Pipeline.ScenarioFive | foobar.cpp:133-167 | the start value 5 prints those five lines in six periods and leaves everything idle |
| EndToEnd.FeedFive | serial.cpp:52-88 | the text "5" fed to an idle system is echoed and queued, and six periods later the five lines have been printed and everything is idle |
| Pipeline.SystemTick | foobar.cpp:133-233 | one period of the three task objects is exactly one step of the system |
| Uart.Channel.Write | foobar.cpp:196 | a UART write appends its text to the log |
| LibC.SpacePrefix | serial.cpp:110 | `strtol` skips exactly the leading white space |
| LibC.DigitRun | serial.cpp:110 | `strtol` reads exactly the longest run of decimal digits |
| LibC.StrToL | serial.cpp:110 | the end index stays within the text and the result fits a 32-bit `long`; `endptr` stays at the start, with result 0 and no ERANGE, exactly when no digit follows the leading white space and optional sign, and otherwise lands just after those digits |
| LibC.Clamp | serial.cpp:110 | a value outside the range of `long` saturates to LONG_MAX or LONG_MIN with ERANGE; one inside is returned as is |
| LibC.NumeralConverts | serial.cpp:110 | a numeral followed by a non-digit is read exactly, with ERANGE exactly when it exceeds LONG_MAX |
| LibC.NegativeNumeralConverts | serial.cpp:110 | a minus sign followed by digits up to LONG_MIN in magnitude converts to the negated value |
| LibC.NothingConverted | serial.cpp:110 | text starting with neither space, sign nor digit converts nothing |
| Serial.CString | serial.cpp:60 | the C string in a buffer is its prefix before the first NUL |
| Serial.CStringOfTerminated | serial.cpp:60-64 | a NUL written after the bytes read hides the rest of the buffer |
| Serial.ToU32 | serial.cpp:110 | storing a `long` into a `uint32_t` reduces it modulo 2^32, negative values included, and so keeps every value in 0..2^32-1 |
| Serial.ValidateNumeral | serial.cpp:105-117 | a plain numeral up to LONG_MAX is accepted with its own value |
| Serial.ValidateRoundTrip | serial.cpp:105-117 | the decimal text of any value up to LONG_MAX is accepted as that value |
| Serial.ValidateRejectsOverflow | serial.cpp:110-114 | a numeral above LONG_MAX is rejected |
| Serial.ValidateRejectsTrailing | serial.cpp:112 | a numeral followed by anything else, a newline included, is rejected because the conversion stops before the NUL |
| Serial.ValidateRejectsWord | serial.cpp:110-114 | text starting with a letter is rejected |
| Serial.ValidateEmpty | serial.cpp:110-114 | empty text passes the check as 0 |
| Serial.ValidateNegativeWraps | serial.cpp:110 | "-5" is accepted and stored as 4294967291 |
| Serial.AsWrittenStaysRejecting | serial.cpp:112 | as written, once `errno` is non-zero every later text is rejected and `errno` stays non-zero |
| Serial.AsWrittenAgreesWhenClear | serial.cpp:110-116 | with `errno` clear beforehand, the check as written and `Validate` accept the same texts with the same value |
| Serial.AsWrittenOverflowPoisons | serial.cpp:110-112 | after any out-of-range numeral, "5" is rejected as written although `Validate` accepts it |
| Serial.AsWrittenRefusesFiveAfterOverflow | serial.cpp:110-112 | the inputs "2147483648" then "5": both are rejected as written |
| Serial.ReadCount | serial.cpp:54-55 | at most 31 bytes are read, and all that arrived when fewer did |
| Serial.Dispatch | serial.cpp:52-88 | nothing read: nothing written or queued; invalid: exactly "Invalid data" and the queue unchanged; valid: the "Received ..." echo comes first and fits its 50-byte buffer; restart exactly for 0, which is never queued; a valid non-zero value becomes the newest request when the queue has room, and otherwise "Currently full" follows the echo and the queue is unchanged; the queue stays within 7 |
| Serial.ZeroNeverQueued | serial.cpp:76-85 | over any sequence of inputs, 0 never reaches the request queue |
| Serial.InputFiveQueued | serial.cpp:71-85 | "5" echoes "Received 5" and is queued as the newest request |
| Serial.InputWordRefused | serial.cpp:64-68 | "abc" writes "Invalid data" and queues nothing |
| Serial.InputZeroRestarts | serial.cpp:76-78 | "0" echoes "Received 0" and restarts without queueing |
| Serial.InputNulRestarts | serial.cpp:58-78 | a lone NUL byte is accepted as 0 and leads to the restart |
| Serial.InputWithNewlineRefused | serial.cpp:64-68 | "5" followed by a newline writes "Invalid data" |
| Serial.Serial.constructor | serial.cpp:36 | the receive buffer is a fresh 32-byte array and the feeder posts to the coordinator's request queue |
| Serial.Serial.ReadBytes | serial.cpp:54-55 | the bytes read are copied to the start of the buffer, and the rest of the buffer is untouched |
| Serial.Serial.PostFoobarData | serial.cpp:52-88 | one call writes to the UART, changes the queue and returns the outcome exactly as `Dispatch` says; the bytes read sit at the start of the buffer with a NUL right after them |

## Left out

- Task creation, priorities, stack sizes and core pinning (foobar.cpp:39-45, 98-101, 123-130) are runtime configuration and are not modelled.
- The `while (1)` loops and `vTaskDelay` periods are not modelled as such. One loop pass is a `Tick` method; many passes are the pure `Run` over periods.
- Concurrency is left out. The three tasks are separate threads, and the multi-tick lemmas hold for one schedule per period: coordinator, then Foo, then Bar. Other interleavings, in which a worker may miss a period and a value be dropped, are covered only per tick: each `Step` holds whatever the order, and `Coordinator.DropWhenWorkerBusy` states the drop.
- The startup race is not modelled. The worker queues are created inside the worker tasks, after the coordinator may already send. The model creates all queues up front (`Coordinator.Coordinator.constructor`).
- `esp_restart` is an outcome value (`Restart`), not a reset of the device's state.
- Serial.Serial.ReadBytes: does not model the one-second wait of `uart_read_bytes` or its -1 error return. Both end in the "nothing read" branch through `rxBytes > 0`. Bytes beyond the 31 read are left to a later call, whose input is a separate argument.
- UART output is the list of texts written. Bytes, `strlen` and the driver are not modelled.
- `serial_validateRxData` converts the static `rxBuf` and ignores its `buf` parameter. At the only call site both are the same buffer, so the model converts the text read.
- LibC.StrToL: covers base 10 with a 32-bit `long`, the "C" locale's white space, an optional sign and saturation with ERANGE. Other bases and locales are not modelled.
- Rendering.RenderRoundTrip: proved for three-letter labels only, which both labels are.
- Primality.IsPrime: its result on particular large values, for instance whether 4294967291 is prime, is not worked out.
- Workers.Worker.Tick: prints the intended line, uncut and in unsigned decimal, when a receive succeeds. The code prints on a failed receive and keeps 13 characters of `%ld` output; that behaviour is `Workers.StepAsWritten` and `Rendering.RenderAsWritten`, and the multi-tick lemmas do not cover it.
- Serial.Dispatch: validates with `errno` cleared before each conversion. After an out-of-range input the code rejects every later input, so on "2147483648" then "5" it writes "Invalid data" twice where `Dispatch` queues 5; that behaviour is `Serial.ValidateAsWritten`, and `Serial.Serial.PostFoobarData` follows `Dispatch`.
- The header files foobar.hpp and serial.hpp only declare what the two source files define, and are not part of this model.

## Findings

| source | as written | input that shows it | evidently intended | confidence | as-written member | corrected member |
|---|---|---|---|---|---|---|
| foobar.cpp:186 | `xQueueReceive(...) != pdPASS` takes the print branch when the receive failed. The same test is at foobar.cpp:219. | a queue holding one message: it is removed and never printed; an empty queue prints a line from an uninitialised message every second | print when the receive returned pdPASS, as the comment above the test says | high; not executed | Workers.AsWrittenSwallowsMessage | Workers.StepsPrintInOrder |
| foobar.cpp:188-189 | `snprintf(buffer, 14, ...)` keeps 13 characters, which the comment says holds the largest value | value 1000000000: "Foo 100000000" is printed | a size that holds "Foo " and ten digits | high; not executed | Rendering.AsWrittenBillion | Rendering.RenderRoundTrip |
| foobar.cpp:188 | `%ld` prints the `uint32_t` value as a 32-bit `long` | input "-5", stored as 4294967291: its first line reads "Bar -5", followed by " Prime" since the value is prime | unsigned decimal, as for every other value | medium; not executed | Rendering.AsWrittenMinusFive | Rendering.RenderRoundTrip |
| serial.cpp:110-112 | `errno` is never cleared before `strtol`, which only ever sets it | "2147483648" then "5": the second input is rejected as "Invalid data" | clear `errno` before the conversion | high; not executed | Serial.AsWrittenRefusesFiveAfterOverflow | Serial.ValidateRoundTrip |
