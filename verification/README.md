# Signal-driven bracket orders with a trailing stop, in Dafny

This project models the core of a small trading bot. The bot reads trade signals posted as text,
places a bracket order on a USD-margined futures exchange, and then trails the stop loss as the
mark price passes the signal's targets. Three parts are modelled:

- **The signal parser** (`parseMessage`, module `ParseMessage`). It splits the message into
  trimmed lines. It tries six patterns on each line in a fixed order: pair, direction, leverage
  with margin type, entry, target, stop loss. The first pattern that matches decides what the
  line sets. A scalar field keeps the value of the last line that set it. Targets are appended in
  line order, and a target that parses to NaN is skipped. The signal is accepted only when pair,
  direction, margin type, leverage, entry, stop loss and at least one target are all present.
  - The pattern search is modelled as written: a leftmost match anywhere in the line, greedy
    classes, and backtracking of the leverage word.
  - `ParseMessage.ParseMessage` is the loop. It is proved equal to the function `Parse`, and the
    properties are proved about `Parse`.
- **The bracket-order builder** (`placeOrder`, module `OrderManagement`). It does these steps in
  order:
  1. Sets the leverage on the upper-cased pair.
  2. Fetches the exchange information and looks up the pair's precisions.
  3. Computes the entry price and the quantity `7 / entry * leverage`, each rounded with
     `toFixed`.
  4. Submits a LIMIT entry, a TAKE_PROFIT_MARKET at the last target and a STOP_MARKET at the stop
     loss. Both protective legs are on the opposite side.
  5. Returns the stop-loss reply.

  Any failure stops it and reaches the caller. The exchange is a `Client` object that logs every
  request and refuses the requests in a fixed set. `PlaceOrder` is proved to append exactly the
  requests of the function `Plan` and to return its result.
- **The trailing-stop engine and the registry** (module `Websocket`).
  - The registry `Registry.activePairs` maps a pair to the signal, the stop-loss order id and the
    index of the last target reached.
  - A new signal is tracked unless its upper-cased pair is already a key. The record is keyed by
    the pair as written.
  - When a pair's price stream closes, its record is dropped.
  - On each mark-price tick, the index moves to the first target past it that the price has
    crossed. The stop-loss order is then amended to the entry (for the first target) or to the
    target before, rounded to two decimals.
  - When the price crosses the last target, the engine also cancels all open orders of the pair.
  - `Registry.OnTick` is proved equal to the function `TrailingStop` on the stored index.

Numbers are JavaScript numbers as the core uses them: `Num` is a finite exact decimal,
`Infinity` (from `7 / 0`) or `NaN` (from a failed `parseFloat`). `x.toFixed(d)` read back by
`parseFloat` is `Numeric.RoundTo`. It rounds half up on the magnitude. It leaves magnitudes of
1e21 and more unchanged, and passes NaN and Infinity through. A `toFixed` with more than 100
digits throws a RangeError. Reading the last target of an empty target list throws a TypeError.
Both are error results of `placeOrder`.

Three points of the program's behaviour shape the model:

- The parser requires a stop loss (parseMessage.ts:52). A message without one is rejected.
- `toFixed` rounds half up on the magnitude, so quantities and prices are rounded to the
  nearest step, not down.
- The parser does not upper-case the pair. Only the order builder and the engine do. So a pair
  written in lower case is keyed as written, is never found by the registry's duplicate check,
  and a second signal for it replaces the first record (`Websocket.LowerCasePairReplaced`).

## Model

| member | source | states |
|---|---|---|
| Text.Span | parseMessage.ts:14-19 | a greedy run of one character class: every character in it belongs to the class, and the character after it does not |
| Text.MaxRunIsSpan | parseMessage.ts:14-19 | a greedy run has exactly one end, the one `Span` finds |
| Text.Upper | order_management.ts:27 | `toUpperCase` keeps the length, leaves no lower-case ASCII letter, keeps every other character, and maps each lower-case letter to its capital |
| Text.UpperEqualsIgnoringCase | order_management.ts:28 | a string upper-cases to an upper-case word (such as LONG) exactly when it has the word's length and each character is the word's letter in either case |
| Text.Split | parseMessage.ts:6 | `split('\n')` yields at least one piece, and no piece contains the separator |
| Text.SplitJoin | parseMessage.ts:6 | splitting loses nothing: joining the pieces with the separator gives the message back |
| Text.TrimStart | parseMessage.ts:6 | removes exactly the leading white space: the result is a suffix, everything removed is white space, and the result does not start with white space |
| Text.TrimEnd | parseMessage.ts:6 | removes exactly the trailing white space, symmetrically |
| Text.Trim | parseMessage.ts:6 | a trimmed line neither starts nor ends with white space |
| Numeric.RoundTo | order_management.ts:38 | `parseFloat(x.toFixed(d))` is NaN exactly for NaN and Infinity exactly for Infinity |
| Numeric.RoundHalfUpError | order_management.ts:39 | rounding a non-negative number half up moves it by at most half a unit of the last kept place |
| Numeric.RoundToError | order_management.ts:38-47 | a finite number below 1e21 in magnitude stays finite and moves by at most half a unit of the d-th decimal |
| Numeric.RoundToIdempotent | order_management.ts:38-47 | rounding a rounded value to the same precision changes nothing |
| Numeric.RoundToGrid | order_management.ts:38-47 | a finite number below 1e21 in magnitude is rounded onto the grid of d decimals: the result is a whole number of 10^-d steps |
| Numeric.RoundToSymmetric | order_management.ts:38-47 | rounding a negative number is rounding its magnitude and negating, so ties go away from zero |
| Numeric.RoundToTie | order_management.ts:38-47 | a number exactly halfway between two steps rounds up to the higher step |
| Numeric.RoundWhole | websocket.ts:155 | a whole number is unchanged by `toFixed(2)` |
| Numeric.ParseFloat | parseMessage.ts:33 | `parseFloat` on a captured token is never negative, and is NaN exactly when the token starts with neither a digit nor a dot followed by a digit |
| Numeric.ParseIntRoundTrip | parseMessage.ts:31 | `parseInt` reads back the decimal digits of any natural number |
| Numeric.ParseFloatOfInteger | parseMessage.ts:33 | `parseFloat` reads back the decimal digits of any natural number |
| Exchange.EntrySide | order_management.ts:28 | the entry side is BUY exactly when the upper-cased direction is LONG |
| Exchange.Opposite | order_management.ts:66 | the opposite side differs from the side |
| Exchange.FindSymbol | order_management.ts:35 | `symbols.find` is absent exactly when no entry has the symbol, and otherwise it is the first entry with that symbol |
| Exchange.Client.constructor | order_management.ts:19-22 | a fresh client has an empty log, with the given listing and refusals |
| Exchange.Client.Send | order_management.ts:31 | a call appends its request to the log and succeeds exactly when the exchange does not refuse it |
| Exchange.Client.SubmitNewOrder | order_management.ts:52-59 | a submission appends its request, and the reply carries the order's id and quantity unless the request is refused |
| ParseMessage.TokenAfter | parseMessage.ts:14-19 | `\s*(C+)` captures a non-empty token or fails |
| ParseMessage.TokenAfterRuns | parseMessage.ts:14-19 | `\s*(C+)` matches exactly when a run of C follows the run of white space, and the capture is that whole run |
| ParseMessage.LeverageAfterRuns | parseMessage.ts:16 | `\s*(\d+)x` matches exactly when a run of digits follows the white space and an `x` follows the digits; the leverage is `parseInt` of that run |
| ParseMessage.LeverageSplit | parseMessage.ts:16 | `(\w+)\s*(\d+)x` captures a non-empty margin type and a leverage, or fails |
| ParseMessage.LeverageSplitLongest | parseMessage.ts:16 | backtracking keeps the longest prefix of the word that `\s*(\d+)x` follows: it is the margin type, and the digits after it are the leverage |
| ParseMessage.LeverageSplitFails | parseMessage.ts:16 | the leverage pattern fails on a word exactly when no non-empty prefix of it is followed by `\s*(\d+)x` |
| ParseMessage.MatchAt | parseMessage.ts:14-19 | a pattern tried at one position yields a capture of that pattern's shape, and only where its marker starts |
| ParseMessage.MatchAtToken | parseMessage.ts:14-19 | where its marker starts, a one-token pattern matches exactly when a run of its class follows the white space, and captures that run |
| ParseMessage.TargetAfterRuns | parseMessage.ts:18 | after the marker, the target pattern matches exactly when a colon follows the digits and a run of digits and dots follows the white space after it, and captures that run |
| ParseMessage.MatchAtTarget | parseMessage.ts:18 | the same, where the target marker starts |
| ParseMessage.MatchAtLeverage | parseMessage.ts:16 | where its marker starts, the leverage pattern matches as the backtracking split of the word after the white space |
| ParseMessage.Find | parseMessage.ts:25 | `exec` yields a capture of the pattern's shape |
| ParseMessage.FindComplete | parseMessage.ts:25-41 | `exec` misses no match: if the pattern matches at some position, `exec` finds a match |
| ParseMessage.FindSound | parseMessage.ts:25-41 | `exec` invents no match: what it returns is the pattern's match at some position of the line |
| ParseMessage.FindLeftmost | parseMessage.ts:25-41 | `exec` returns the match at the leftmost position where the pattern matches |
| ParseMessage.Classify | parseMessage.ts:25-42 | the kind of a line never carries an empty pair, direction or margin type |
| ParseMessage.FirstMatchWins | parseMessage.ts:25-42 | a line sets nothing exactly when no pattern matches it; otherwise what it sets comes from a matching pattern that no earlier pattern preempts |
| ParseMessage.LineSetsCapture | parseMessage.ts:25-41 | what a line sets is what the deciding pattern captured: the words as captured, the leverage as `parseInt` read it, and entry, target and stop loss as `parseFloat` reads the token |
| ParseMessage.Apply | parseMessage.ts:26-41 | one line keeps margin type and leverage set together, and grows the targets by at most one, at the end |
| ParseMessage.Validate | parseMessage.ts:46-59 | an accepted signal has a non-empty pair, direction and margin type, and the draft's targets, at least one |
| ParseMessage.Parse | parseMessage.ts:3-64 | a parsed signal has a non-empty pair, direction and margin type and at least one target |
| ParseMessage.Lines | parseMessage.ts:6 | there is one trimmed line per piece of the split |
| ParseMessage.ApplyLine | parseMessage.ts:23-42 | one pass of the loop body updates the draft as the first matching pattern dictates |
| ParseMessage.ParseMessage | parseMessage.ts:3-64 | the loop over the lines followed by validation returns exactly `Parse(messageText)` |
| ParseMessage.ApplyTouchesOneField | parseMessage.ts:25-42 | a line populates at most one field: it overwrites the field its kind names, appends a target only on a target line with a number, and leaves every other field alone |
| ParseMessage.FoldCoherent | parseMessage.ts:29-31 | margin type and leverage are always set together |
| ParseMessage.LastMatchWins | parseMessage.ts:22-43 | a field is unset exactly when no line sets it; otherwise it holds the value of the last line that sets it |
| ParseMessage.TargetsInLineOrder | parseMessage.ts:34-39 | the targets are the numeric target values in the order of their lines, with NaN skipped |
| ParseMessage.WordsNonEmpty | parseMessage.ts:46-49 | so pair, direction and margin type, once set, are truthy |
| ParseMessage.ValidateAccepts | parseMessage.ts:46-59 | a draft validates exactly when some line sets each required field and some target is a number; the signal then carries the last value of each field and all targets in order |
| ParseMessage.ParseAccepts | parseMessage.ts:3-59 | a message parses exactly when its lines carry every required field and at least one numeric target |
| ParseMessage.MissingTargetRejected | parseMessage.ts:53-58 | a message with no target line is rejected |
| OrderManagement.PlaceOrder | order_management.ts:25-95 | `placeOrder` sends exactly the requests of `Plan`, in order, and returns or throws what `Plan` says |
| OrderManagement.Plan | order_management.ts:25-95 | `placeOrder` sends one to five requests, the first always setting the leverage on the upper-cased pair, and all five when it returns normally |
| OrderManagement.Legs | order_management.ts:38-83 | three legs, all on the upper-cased pair and for the same quantity, the two protective legs on the side opposite to the entry |
| OrderManagement.SubmitFrom | order_management.ts:52-87 | at least one and at most all remaining legs are sent, and all of them when the result is a reply |
| OrderManagement.Quantity | order_management.ts:39 | a positive entry price gives a finite quantity of at least zero; a zero entry price gives Infinity (NaN at leverage 0); a NaN entry price gives NaN |
| OrderManagement.UnknownSymbolSubmitsNothing | order_management.ts:31-89 | a pair missing from the exchange information throws after setting leverage and fetching the information, and submits no order |
| OrderManagement.SubmitFromInOrder | order_management.ts:52-87 | legs are submitted in order until the first refusal; success means all were accepted, and the reply is the last leg's |
| OrderManagement.OrdersFollowLegs | order_management.ts:37-83 | orders are submitted exactly when every earlier step succeeds; they then follow the two setup calls as LIMIT, TAKE_PROFIT_MARKET, STOP_MARKET, up to the first refusal |
| OrderManagement.SuccessReturnsStopLoss | order_management.ts:76-87 | `placeOrder` returns normally exactly when it reaches the orders and nothing is refused; it then made five calls and returns the STOP_MARKET order's reply |
| OrderManagement.FailureIsRethrown | order_management.ts:88-94 | every failure reaches the caller: a refused request is the error and the last call; any other error happens before any order |
| OrderManagement.LegSides | order_management.ts:52-83 | the entry buys exactly for a LONG, and both protective legs take the other side |
| OrderManagement.LegPrices | order_management.ts:38-82 | the legs' types, symbol and common quantity; the entry, last-target and stop prices each lie within half a price tick of the signal's value |
| OrderManagement.QuantityNotional | order_management.ts:39 | the quantity at a positive entry price is worth BALANCE times leverage, up to half a quantity step times the price |
| Websocket.TrailingStop | websocket.ts:104-157 | a tick makes at most two calls, each a cancel-all or an amendment, and none when the direction is neither LONG nor SHORT |
| Websocket.AfterNewSignal | websocket.ts:40-57 | a signal whose upper-cased pair is a key leaves the registry alone; otherwise it adds the pair as written, with index -1, and every other record stays |
| Websocket.FirstCrossing | websocket.ts:117-125 | the scan finds the lowest index past the current one whose target the price has crossed, or reports that there is none |
| Websocket.Registry.constructor | websocket.ts:31 | the registry starts empty |
| Websocket.Registry.OnNewSignal | websocket.ts:33-57 | a stream is opened exactly when the upper-cased pair is not a key; the record is then keyed by the pair as written, with index -1 |
| Websocket.Registry.OnClose | websocket.ts:75-78 | closing a pair's stream removes exactly that pair's record |
| Websocket.Registry.OnTick | websocket.ts:104-157 | an untracked pair is left alone; otherwise the record's index becomes the tick's new index, and the calls are the tick's calls in order |
| Websocket.TickIndexBounds | websocket.ts:117-143 | a tick leaves the index alone or moves it forward to a target index, never past the last |
| Websocket.TickTakesLowestCrossing | websocket.ts:114-143 | the index moves exactly when the direction is LONG or SHORT and a target past it is crossed, and it moves to the lowest such target |
| Websocket.AmendIffTransition | websocket.ts:154-156 | the stop-loss order is amended exactly when the index moves, once, as the last call: at the entry or the previous target rounded to two decimals, on the entry side, with the order's id and quantity |
| Websocket.CancelIffFinalCrossed | websocket.ts:127-134 | all orders of the upper-cased pair are cancelled exactly when the last target is crossed and the index read before the scan was below it; the cancel then comes first |
| Websocket.UnknownDirectionIsInert | websocket.ts:114-152 | a direction other than LONG or SHORT changes nothing and calls nothing |
| Websocket.LastTargetIsFinal | websocket.ts:117-151 | once the last target is reached, a tick does nothing |
| Websocket.OneTargetPerTick | websocket.ts:117-134 | a price past every target advances the index by one per tick, cancelling all orders each time |
| Websocket.TicksMonotone | websocket.ts:111-122 | over any run of ticks the index never decreases and never passes the last target |
| Websocket.AmendSideOpposesStopLeg | websocket.ts:108-155 | the amendment uses the entry side, which is not the side of the STOP_MARKET leg it amends |
| Websocket.LongScenarioFirst | websocket.ts:114-156 | LONG at 100 with targets 110, 120, 130: a tick at 110 moves to index 0 and trails the stop to 100 |
| Websocket.LongScenarioSecond | websocket.ts:114-156 | then a tick at 120 moves to index 1 and trails the stop to 110 |
| Websocket.LongScenarioThird | websocket.ts:114-156 | then a tick at 130 moves to index 2, cancels all orders, and trails the stop to 120 |
| Websocket.ShortScenario | websocket.ts:135-156 | SHORT at 50 with targets 45, 40, 35: a tick at 44 moves to index 0 and trails the stop to 50 |
| Websocket.UpperCasePairTrackedOnce | websocket.ts:35-57 | a second signal for an upper-case pair leaves the registry as the first left it |
| Websocket.LowerCasePairReplaced | websocket.ts:35-57 | a second signal for a pair not in upper case replaces the first record, with the index back at -1 |

## Left out

- Binary floating point. Numbers are exact decimals, so binary rounding of parsed decimals and
  of the quantity, negative zero, `-Infinity` and exponent notation are not modelled.
- Numeric.ParseFloat: it only handles the tokens the patterns capture (digits and dots), not
  signs or exponents.
- Numeric.ParseFloat: a token of more than 308 integer digits overflows to Infinity in
  JavaScript, and the parser would push that Infinity as a target. The model's numbers are
  exact decimals with no overflow, so it never yields Infinity.
- Text.Upper: it upper-cases ASCII letters only. Captured pairs and directions are `\w`
  (ASCII) words.
- The emoji markers of the patterns are replaced by ASCII stand-ins (`@Pair:`, `@Direction:`,
  `@Leverage:`, `@Entry:`, `@Target`, `@Stop Loss:`). Only the marker text changes, not how
  the patterns match.
- The parser's `try`/`catch` is not modelled: nothing in the modelled parser throws.
- The exchange itself is abstracted to a fixed set of refused requests, a listing of symbols,
  and client order ids taken from the position in the request log. HTTP, signing and the
  exchange's rejection reasons are left out.
- The API-key checks, `dotenv`, every console log, and the `keepAlive` timer are left out.
- The WebSocket transport is left out: connecting, JSON decoding of the message, the filter
  on `markPriceUpdate` events and the `error` handler. A tick reaches `Registry.OnTick` as
  an already-parsed price, and a close reaches `Registry.OnClose`.
- The `ws` object stored in each record is left out.
- The event emitter that hands a placed order to the registry is left out. `index.ts` (the
  message bot that calls the parser, then `placeOrder`, then emits the event) is not part of
  this model.
- Time and concurrency are left out.
  - The 5-second delay before cancelling is left out.
  - Ticks that interleave during that delay are left out.
  - The cancel and amend calls are modelled as the tick's calls, in order. They are not
    awaited and their errors are only logged; neither is modelled.
  - The model returns the calls of one tick, cancel first and amend last, in the order the
    source issues them.
- The LONG and SHORT branches of the trailing-stop handler are modelled as one loop with a
  `long` flag choosing `>=` or `<=`. Both branches are otherwise identical.
