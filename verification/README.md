# Calculator client-server: a Dafny model

This project models the two sequential cores of a small TCP calculator:

- **The server's request pipeline** (`server.py`). `CalculationEngine.calculate` maps an
  operation name and an argument list to `{status: success, result}` or `{status: error, message}`.
  It checks, in order, the argument count, the numeric conversion of both arguments, the
  operation name and a zero divisor. It then returns an integral result as an integer and
  rounds any other result to ten decimals. `CalculatorServer._handle_client` answers each
  received chunk with one response until the peer closes or an exception reaches the outer
  handler (server.py:280-283).
- **The client's keypad** (`client.py`). `CalculatorUI` keeps four fields: `current_input`,
  `first_operand`, `current_operator` and `should_reset`. Button clicks edit them: digits up to a
  cap of 12, a single decimal point, backspace, sign toggle, operators with chaining, and
  evaluation through the server.

Modules:

| file | module | models |
|---|---|---|
| `base.dfy` | `Base` | an `Option` type for Python's `None` and for `dict.get` defaults |
| `engine.dfy` | `Engine` | `CalculationEngine`: arguments, operations, normalisation, `calculate` |
| `session.dfy` | `Session` | one pass of the `_handle_client` loop (`Step`), the session as a fold (`Transcript`), and the loop itself (`Serve`) |
| `numerals.dfy` | `Numerals` | Python's `float(text)` on decimal literals (`ParseFloat`) and `str(int)` (`IntText`) |
| `keypad.dfy` | `Keypad` | `_on_button_click` (`Click`) and its helpers, plus an invariant over every key sequence (`Run`) |

Modelling choices:

- Numbers are exact `real`s. An argument is `Num(value)` or `NotNumeric(fault)`. The fault records
  whether `float()` raised a `ValueError`, which is reported with its own text, or another
  exception, which is reported behind `"Terjadi kesalahan: "`.
- JSON and UTF-8 decoding are not reimplemented. A received chunk is described by the decoder's
  verdict: `NotUtf8`, `NotJson`, `NonObject`, or `Object(operation?, args?)`.
- `round(x, 10)` is defined as exact decimal rounding of the real value to ten places, with ties
  going to the even neighbour. That is how Python rounds the exact value of a float.
- The keypad's network call is a parameter. `Reply = Succeeded(value, text) | Failed(message)`,
  where `text` is `str(result)`. `Consistent(reply)` says that the text reads back as the value.
- The four operator glyphs are opaque tokens: `Plus`, `Minus`, `Times`, `Obelus`.

How the session handler treats malformed input:

- A payload that is not JSON gets the fixed error "Format request tidak valid (bukan JSON)!" and
  the session carries on (server.py:268-273).
- Valid JSON that is not an object (`[1, 2]`, `"x"`) has no `.get` (server.py:262-263). The
  resulting `AttributeError` is not a `JSONDecodeError`, so it reaches the outer handler
  (server.py:282-283). The session closes without a reply.
- Bytes that are not UTF-8 fail at server.py:256, before the inner `try`, and also close the
  session without a reply. So does a failing `recv` (server.py:249, 280-281).
- A missing `operation` field reads as `""`, and a missing `args` field reads as `[]`, which gives
  the arity error (server.py:262-263).

Observations the proofs make precise:

- The sign toggle is not an involution on every input. It turns the lone `"-"` (reachable by
  `5`, `±`, `⌫`) into `""`, and a second toggle leaves `""` unchanged (`ToggleSignInvolution`,
  `TidySignInvolution`).
- After a result, `±`, `⌫` and `.` first wipe the displayed result, because only `C`, `=` and
  the operators are exempt (`ResultWipedBeforeEditing`). So `±` cannot negate a result.
- If chaining hits an error reply, the new operator is dropped. The error clears the input, and
  `float("")` then fails (`OperatorChainsOnFailure`).
- The `should_reset` test inside the digit branch (client.py:475-477) never fires. The check at
  client.py:440-442 has already cleared the flag for every digit key, so `Click` has no second test.

## Model

| member | source | states |
|---|---|---|
| Engine.Lookup | server.py:115-123 | exactly the four names add, sub, mul, div are found in the dispatch table |
| Engine.LookupNameOf | server.py:115-120 | each operation is registered under one name, and that name finds it |
| Engine.Round10 | server.py:136 | the rounded value has at most ten decimals and lies within 0.5e-10 of the input |
| Engine.Round10Idempotent | server.py:136 | rounding an already rounded value changes nothing |
| Engine.Normalize | server.py:132-136 | the result is an integer exactly when the value is integral, and then equals it; otherwise it is the ten-decimal rounding |
| Engine.Calculate | server.py:93-154 | success exactly for two numeric args, a known name and no zero divisor; the value is within 0.5e-10 of the exact sum, difference, product or quotient, and is an integer iff that outcome is integral; every other input gives an error response, never an exception |
| Engine.ArityCheckedFirst | server.py:106-110 | a list of length other than 2 gives "Diperlukan tepat 2 argumen!" for every operation |
| Engine.ConversionBeforeLookup | server.py:112-127 | a non-numeric argument gives its conversion error whatever the operation, so the name is checked only after both arguments convert |
| Engine.UnknownOperation | server.py:122-127 | two numbers and a name outside the four give "Operasi '<name>' tidak dikenal!" |
| Engine.DivisionByZero | server.py:89-90 | div with divisor 0 gives "Pembagian dengan nol tidak diperbolehkan!" for every dividend |
| Engine.Perform | server.py:36-91 | the four engine methods fail only on division by zero, and otherwise give the value of the separately defined Exact for the operation's name |
| Engine.UnsizedArgs | server.py:106-154 | an args value without a length gives "Terjadi kesalahan: " followed by the exception text, whatever the operation |
| Engine.UnhashableOperation | server.py:112-154 | an unhashable operation gives "Terjadi kesalahan: " followed by the exception text, but only once both arguments have converted; before that, the conversion error wins |
| Engine.SuccessIsNormalizedExact | server.py:36-91 | add, sub, mul and div of two numbers give the normalised a+b, a-b, a*b and a/b |
| Session.Step | server.py:247-283 | a receive closes the session exactly on zero bytes, a read fault, undecodable bytes or non-object JSON; non-JSON gives the fixed format error; an object without args gives the arity error |
| Session.ObjectIsCalculated | server.py:261-266 | a request object is answered as calculate answers its fields, with operation defaulting to "" and args to [] |
| Session.Transcript | server.py:247-287 | the session's replies: no more than the receives, and each one is the step's reply to the receive at the same position; TranscriptInOrder, NothingAfterClose and TranscriptAppend say where it stops |
| Session.TranscriptInOrder | server.py:247-287 | a session sends one reply per receive before the first closing one, in arrival order, each the step's reply |
| Session.NothingAfterClose | server.py:251-253 | receives after the closing one are never answered |
| Session.TranscriptAppend | server.py:247-278 | while nothing closes the session, consecutive batches are answered independently |
| Session.MalformedKeepsSessionOpen | server.py:268-273 | a non-JSON payload gets the format error and the next receive is still answered |
| Session.Serve | server.py:246-287 | the receive loop sends a reply for each receive until the first closing one, and stops there |
| Session.ServeIsTranscript | server.py:246-287 | what the loop sends is exactly the session transcript |
| Numerals.ParseFloat | client.py:518-548 | float() as a partial function on decimal literals; ParsedShape, ParseDigits, ParseNegated and ParseIntText specify it |
| Numerals.ParsedShape | client.py:520 | every text float() accepts is non-empty, with one decimal point at most and one leading sign at most |
| Numerals.ParseDigits | client.py:544 | a string of digits reads as its decimal value |
| Numerals.ParseNegated | client.py:544 | a leading minus negates the value read, and a text that fails still fails |
| Numerals.NatText | client.py:575 | the text of a natural number is a non-empty digit string without leading zero whose value is the number |
| Numerals.IntText | client.py:575 | str() of an integer; ParseIntText states that it reads back as the integer, and NatText gives its digits |
| Numerals.ParseIntText | client.py:575 | str() of an integer result reads back as that integer |
| Keypad.OperationCode | client.py:550-557 | every glyph is sent as one of the names the server knows |
| Keypad.OperationCodesMatchServer | client.py:550-557 | the mapping is injective and sends plus, minus, times and divide to the server's add, sub, mul and div |
| Keypad.AppendDigit | client.py:479-481 | a digit is appended exactly when fewer than 12 characters other than '.' and '-' are present; otherwise the input is unchanged |
| Keypad.AppendPoint | client.py:465-470 | a point is added only when none is present, an empty input becomes "0.", and afterwards one point is present |
| Keypad.DropLast | client.py:448-450 | backspace removes exactly the last character; an empty input stays empty |
| Keypad.ToggleSign | client.py:495-504 | an empty input is unchanged; a leading '-' is removed, otherwise one is added |
| Keypad.ToggleSignInvolution | client.py:495-504 | toggling twice restores the input iff it is empty or neither "-" nor starting with "--" |
| Keypad.ToggleSignNegates | client.py:495-504 | on a number without a '+' sign, toggling negates the value float() reads |
| Keypad.Pending | client.py:538-557 | a request is sent iff first operand and operator are set and the input is empty or numeric; the empty input repeats the first operand |
| Keypad.Evaluate | client.py:534-592 | without a pending request nothing changes; otherwise the operator is cleared and reset set; success stores the result and its text, an error clears both |
| Keypad.ClearResets | client.py:444-446 | C sets the input to "", both operand and operator to None and the reset flag to false |
| Keypad.ResultWipedBeforeEditing | client.py:440-442 | with the reset flag set, every key but C, = and the operators acts as on an empty input with the flag cleared |
| Keypad.DigitKey | client.py:473-482 | a digit click appends only below the cap and leaves operand and operator alone |
| Keypad.PointKey | client.py:465-471 | a point click adds a point only when none is present, "0." on an empty input |
| Keypad.BackspaceKey | client.py:448-451 | a backspace click removes exactly the last character |
| Keypad.SignKey | client.py:453-455 | a sign click toggles the sign of the edited input and leaves operand, operator and a clear reset flag |
| Keypad.EqualsNeedsOperandAndOperator | client.py:538-539 | = is a no-op unless first operand and operator are both set |
| Keypad.EqualsRepeatsOperand | client.py:543-546 | = on an empty input sends the first operand twice |
| Keypad.HandleOperator | client.py:506-532 | on an empty input, the operator replaces the pending one when an operand is set and otherwise only the reset flag clears; an input float() rejects leaves everything unchanged; a readable input without a complete pending expression becomes the first operand under the new operator |
| Keypad.OperatorReplaces | client.py:513-532 | an operator on an empty input replaces the pending operator when there is a first operand, and otherwise only clears the reset flag |
| Keypad.OperatorOnUnreadableInput | client.py:518-522 | on "-" or "-." an operator returns early and changes nothing, the reset flag included |
| Keypad.OperatorAfterResult | client.py:513-532 | an operator pressed while a result is shown makes the result the first operand under that operator |
| Keypad.OperatorStoresOperand | client.py:513-532 | a number followed by an operator becomes the first operand, with the operator recorded |
| Keypad.OperatorChainsOnSuccess | client.py:513-532 | an operator after a complete expression sends it, and on success its result becomes the first operand of the new operator |
| Keypad.OperatorChainsOnFailure | client.py:514-522 | an operator after an expression that fails leaves no operand, no operator and the reset flag set |
| Keypad.Click | client.py:432-482 | C restores the initial state; every key other than C, = and the operators leaves the reset flag clear and the operand and operator untouched; the per-key lemmas, ClickKeepsTidy and ClickKeepsCapped specify the rest |
| Keypad.ClickKeepsTidy | client.py:432-482 | every key keeps the input to one decimal point at most and one leading minus at most |
| Keypad.RunKeepsTidy | client.py:432-482 | every sequence of clicks from a tidy state stays tidy |
| Keypad.Run | client.py:432-482 | a sequence of clicks; RunAppend, RunKeepsTidy and RunKeepsCapped specify it |
| Keypad.RunAppend | client.py:432-482 | clicking two key sequences in turn is clicking their concatenation |
| Keypad.ClickKeepsCapped | client.py:432-482 | every key keeps typed input to at most 12 characters other than '.' and '-'; only a shown result, with the reset flag set, may be longer |
| Keypad.RunKeepsCapped | client.py:479-481 | from a capped state, every sequence of clicks keeps typed input within the 12-character cap |
| Keypad.TidySignInvolution | client.py:495-504 | on a tidy input, toggling twice restores it except on the lone "-" |
| Keypad.PendingRequestsAreComputable | client.py:567 | the server answers every keypad request with success, except a division by zero |
| Keypad.IntegralResultConsistent | client.py:575-580 | an integral result's text reads back as its value |

## Left out

- Sockets, the accept loop, address reuse, the listen backlog, `recv` and `send` sizes, and the
  per-client threads (server.py:183-235). These are I/O and concurrency. Sessions share no state,
  so one session's fold is the whole behaviour.
- A failing `send` at server.py:278, which closes the session after the reply is computed. This is
  transport behaviour. `ReadFault` covers the failing `recv`.
- `NetworkClient.connect`, `disconnect` and `send_calculation` (client.py:51-142). This is transport
  with timeouts. Their result is the `Reply` parameter of the keypad.
- All tkinter construction, colours, layout, labels, message boxes, `_update_display` and
  `_update_connection_status`. These are presentation only and do not change the four fields.
- Replies without a `status` key, which would raise inside the click handler. The server never sends one.
- IEEE-754 behaviour: overflow to `inf` making `int(result)` raise, NaN, and rounding of literals
  and results to the nearest double. Results are exact reals.
- `_format_number` and `str(float)`. A float result's text arrives inside the `Reply`.
- Numerals.ParseFloat: reads only `[sign] digits [. digits] [e [sign] digits]`. Python's `float()`
  also accepts surrounding whitespace, `_` digit separators, `inf` and `nan`. None of these can be
  typed on the keypad or produced by `str()` of a finite number.
- Engine.OpField: a non-string but hashable `operation` (a number, `true`, `null`) is represented by
  the text the error message interpolates. The model does not derive that text from the JSON value.
- Exceptions from `json.loads` other than `JSONDecodeError` (a `RecursionError` on deeply nested
  input). These would escape to the outer handler and close the session. The decoder verdicts do
  not distinguish them.
- Console logging and the `__main__` blocks.
