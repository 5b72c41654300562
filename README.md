# mplayer-as-promised, modelled in Dafny

This project models the core of `mplayer-as-promised`, a TypeScript library that drives
the MPlayer media engine as a child process. It speaks the engine's "slave mode" text
protocol: commands go to the engine's standard input, and answers are read back line by
line from its output. The model covers three parts.

- **The metadata decoder** (`parseUtils.ts`). `parseKeyValueList` turns a comma-separated
  `key,value,key,value,...` report into a dictionary. `parseMetadata` turns that dictionary
  into the seven-field `Metadata` record, and handles the engine's `(null)` report.
  Module `ParseUtils` holds this part. Module `JsString` holds the JavaScript built-ins it
  relies on: `split`, `join`, `toLowerCase`, `trim`, `includes`, `parseInt` and
  number-to-string.
- **The session manager** (`mplayerManager.ts`), in module `Manager`. Class `MPlayerManager`
  does four things:
  - it gates critical operations, so at most one is outstanding and a second one is
    refused with `Busy - cannot execute operation`;
  - it readies the engine: it uses a ready process as is, or shuts the old process down
    (`kill`), spawns a new one and waits for the `CPLAYER: MPlayer` banner on standard output;
  - it writes each operation's commands as `words joined by spaces` plus a line feed;
  - it dispatches every output line to each listening operation's `processData` callback
    until one line settles that operation. A nonzero timeout arms a timer that rejects the
    operation with `Timed out`. Exit and error events reject the outstanding operations and
    settle pending `shutdown` calls.

  Each promise is a single-settlement cell. Each asynchronous callback is an event method:
  the spawn completing, an output chunk, the process exiting or failing, a timer firing, and
  an operation's writes completing or failing. Module `Command` holds the command-line format.
- **The early `MPlayer` class** (`index.ts`), in module `Player`. `openFile` waits for the
  readiness banner and then writes `loadfile "<name>"`. `onData` resolves readiness on
  the banner and resolves the latest request on `CPLAYER: Starting playback...`.

Module `Scenarios` runs both classes from construction through whole event sequences. The
sequences mirror the behaviour the library's unit tests check: the busy refusal, the gate
opening again after a resolution or rejection, the timeout, and the three `shutdown` cases.

## Model

| member | source | states |
|---|---|---|
| JsString.Split | src/lib/parseUtils.ts:10 | `split` never returns an empty array, and no piece contains the separator |
| JsString.JoinSplit | src/lib/parseUtils.ts:10 | joining the pieces of `split` with the same separator restores the string |
| JsString.SplitJoin | src/lib/mplayerManager.ts:117 | splitting a join of separator-free pieces gives back exactly those pieces |
| JsString.SplitWithoutSeparator | src/lib/mplayerManager.ts:251 | a chunk without a line feed is a single line |
| JsString.JoinAvoids | src/lib/mplayerManager.ts:190 | a character in neither the pieces nor the separator is not in their join |
| JsString.ContainsIff | src/lib/mplayerManager.ts:253 | `includes` holds exactly when some position starts an occurrence of the substring |
| JsString.Lower | src/lib/parseUtils.ts:19 | `toLowerCase` keeps the length, leaves no capital letter, keeps every other character, and turns each capital into the small letter at the same place in the alphabet |
| JsString.LowerIdempotent | src/lib/parseUtils.ts:19 | lower-casing twice is lower-casing once |
| JsString.TrimStartShape | src/lib/parseUtils.ts:19 | removing leading white space keeps a suffix, drops only white space, and stops at a non-white character |
| JsString.TrimEndShape | src/lib/parseUtils.ts:19 | removing trailing white space keeps a prefix, drops only white space, and stops at a non-white character |
| JsString.TrimShape | src/lib/parseUtils.ts:19 | `trim` yields the infix left after removing white space, and only white space, at both ends |
| JsString.TrimUnchanged | src/lib/parseUtils.ts:19 | a string with no white space at its ends is its own trim |
| JsString.TrimPadded | src/lib/parseUtils.ts:19 | text followed only by padding trims to the text |
| JsString.TrimIntroducesNothing | src/lib/parseUtils.ts:19 | trimming never introduces a character |
| JsString.TrimIdempotent | src/lib/parseUtils.ts:19 | trimming is idempotent |
| JsString.DigitPrefix | src/lib/parseUtils.ts:65 | `parseInt` reads the longest run of leading digits: a prefix, all digits, followed by a non-digit or the end |
| JsString.NatDigits | src/lib/mplayerManager.ts:93 | a non-negative number renders as digits without leading zeros whose value is the number |
| JsString.Decimal | src/lib/mplayerManager.ts:93 | a rendered integer is non-empty, starts with a minus sign exactly when it is negative, is digits everywhere else, and those digits have the number's absolute value |
| JsString.ParseInt | src/lib/parseUtils.ts:65 | defines `parseInt(s, 10)`; its promises are stated by `ParseIntDigits`, `ParseIntMinusDigits`, `ParseIntPlusDigits`, `ParseIntSkipsWhiteSpace`, `ParseIntNaN` and `ParseIntDecimal` |
| JsString.DigitPrefixOfDigits | src/lib/parseUtils.ts:65 | the digit prefix of a digit run followed by a non-digit is that run |
| JsString.ParseIntDigits | src/lib/parseUtils.ts:65 | `parseInt(s, 10)` of digits followed by a non-digit is the value of the digits |
| JsString.ParseIntMinusDigits | src/lib/parseUtils.ts:65 | the same after a minus sign, with the value negated |
| JsString.ParseIntPlusDigits | src/lib/parseUtils.ts:65 | the same after a plus sign, with the value unchanged |
| JsString.TrimStartWhiteSpace | src/lib/parseUtils.ts:65 | any run of leading white space is removed before the sign and digits are read |
| JsString.ParseIntSkipsWhiteSpace | src/lib/parseUtils.ts:65 | `parseInt` of white space followed by `t` equals `parseInt` of `t` |
| JsString.ParseIntNaN | src/lib/parseUtils.ts:65 | text with no decimal digit at all parses to `NaN` |
| JsString.ParseIntDecimal | src/lib/parseUtils.ts:65 | `parseInt` reads back the decimal rendering of every integer, whatever non-digit text follows |
| ParseUtils.ParseKeyValueList | src/lib/parseUtils.ts:8-25 | defines `parseKeyValueList` as the fold over the split pieces; its promises are stated by `KeyValueListKeys`, `KeyValueListLastWins`, `KeyValueListTrailingKey` and `KeyValueListValuesTrimmed` |
| ParseUtils.LastKeyIndexSpec | src/lib/parseUtils.ts:18-19 | the backward scan finds an even position whose lower-cased piece is the key with none after it, and finds nothing only when there is no such position |
| ParseUtils.CollectIsLastKey | src/lib/parseUtils.ts:9-24 | the fold stores a key exactly when some even position carries it, with the trimmed value after the last such position |
| ParseUtils.KeyValueListKeys | src/lib/parseUtils.ts:8-25 | the dictionary's keys are exactly the lower-cased pieces at even positions |
| ParseUtils.KeyValueListLastWins | src/lib/parseUtils.ts:18-19 | a key that occurs more than once takes the value after its last occurrence |
| ParseUtils.KeyValueListTrailingKey | src/lib/parseUtils.ts:19 | a key in the last position, with no value after it, maps to the empty string |
| ParseUtils.KeyValueListValuesTrimmed | src/lib/parseUtils.ts:19 | every stored value is its own trim and contains no comma |
| ParseUtils.LookupIsLastValue | src/lib/parseUtils.ts:60-68 | reading a text or numeric property from the dictionary equals taking it from the last occurrence of its key |
| ParseUtils.ParseMetadata | src/lib/parseUtils.ts:48-70 | defines `parseMetadata`; its promises are stated by `MetadataOfNull`, `MetadataFromLastValues`, `MetadataNullOnlyForNoMetadata` and `MetadataOfExample` |
| ParseUtils.MetadataOfNull | src/lib/parseUtils.ts:49-58 | the `(null)` report gives a record whose seven properties are all `null` |
| ParseUtils.MetadataFromLastValues | src/lib/parseUtils.ts:60-69 | any other report gives the text properties from the last occurrence of each key, absent keys left `undefined`; `year` and `track` are parsed when non-empty and `null` otherwise |
| ParseUtils.NumberWithoutDigitsIsNaN | src/lib/parseUtils.ts:65-67 | a non-empty `year` or `track` value with no digit makes that property `NaN`, not `null` |
| ParseUtils.MetadataNullOnlyForNoMetadata | src/lib/parseUtils.ts:48-70 | a `null` title happens exactly for the `(null)` report, and the numeric properties are never `undefined` |
| ParseUtils.LastKeyIndex | src/lib/parseUtils.ts:18 | any key position found lies before the bound |
| ParseUtils.MetadataOfExample | src/test/index.spec.ts:585-598 | the metadata report of a well-known track decodes to the record the test expects: padded values trimmed, year 2000, track 1, empty comment |
| Command.CommandLine | src/lib/mplayerManager.ts:190-198 | defines the written line (words joined by spaces, then a line feed); its promise is stated by `CommandLineRoundTrip` and `ArgsRoundTrip` |
| Command.CommandLineRoundTrip | src/lib/mplayerManager.ts:190-198 | a command line ends in its only line feed, and splitting the rest on spaces gives back the words, provided no word holds a space or a line feed |
| Command.NumberIsPlain | src/lib/mplayerManager.ts:190 | a number renders without spaces or line feeds |
| Command.ArgsRoundTrip | src/lib/mplayerManager.ts:188-198 | the written line of an argument list carries the rendered arguments back out |
| Manager.SettleOnce | src/lib/mplayerManager.ts:119-125 | a settled promise never changes; a pending one takes the first resolve or reject |
| Manager.ExitCodeReadBack | src/lib/mplayerManager.ts:93 | the exit code can be parsed back out of the `MPLAYER exited (...)` message |
| Manager.FirstVerdictSpec | src/lib/mplayerManager.ts:116-138 | dispatch stops at the first settling line; every earlier line was offered and did nothing, and no later line is offered |
| Manager.OfferLines | src/lib/mplayerManager.ts:116-138 | the loop returns the reference dispatch's verdict and the number of lines offered |
| Manager.FindBanner | src/lib/mplayerManager.ts:251-263 | the readiness loop reports the banner exactly when some line includes `CPLAYER: MPlayer` |
| Manager.StartStage | src/lib/mplayerManager.ts:221-224 | an operation starts writing at once exactly when the process is ready, waits for a shutdown exactly when a non-ready process exists, and waits for a spawn exactly when there is no process |
| Manager.EndOp | src/lib/mplayerManager.ts:89-101 | on exit or error, an operation waiting for the old process moves on to spawning; an attached operation is rejected with the cause (if pending), loses its timer and is detached; nothing else changes |
| Manager.ChunkOp | src/lib/mplayerManager.ts:113-139 | output reaching an operation starts its writes if it waited for the banner; if it listens, the first settling line settles it and detaches it; other stages are untouched |
| Manager.PendingCriticalShrinks | src/lib/mplayerManager.ts:58-65 | events only settle promises, so no new pending critical operation appears and there is still at most one |
| Manager.ChunkKeepsValid | src/lib/mplayerManager.ts:249-262 | a chunk preserves every operation's stage invariant and never unsettles a promise |
| Manager.DispatchChunk | src/lib/mplayerManager.ts:113-142 | handing a chunk to every operation in order gives each one its `ChunkOp` result and writes the commands of the operations the banner releases |
| Manager.MPlayerManager.constructor | src/lib/mplayerManager.ts:23-32 | a new manager is not busy, not ready, and has no process |
| Manager.MPlayerManager.DoOperation | src/lib/mplayerManager.ts:78-153 | starts an operation: writes its commands at once if ready, otherwise kills the current process, if any, and waits; the gate is untouched |
| Manager.MPlayerManager.DoCriticalOperation | src/lib/mplayerManager.ts:45-66 | while busy, refuses with the busy message and changes nothing; otherwise marks the manager busy and starts a critical operation |
| Manager.MPlayerManager.Begin | src/lib/mplayerManager.ts:78-106 | the shared start of both entry points (`doOperation` up to its `op` call): appends the new operation at its start stage, writes its commands at once if ready, kills a non-ready process, and, for a critical operation, sets `busy` as line 56 does |
| Manager.MPlayerManager.Shutdown | src/lib/mplayerManager.ts:163-179 | resolves at once without a process; otherwise kills the process once and stays pending |
| Manager.MPlayerManager.Spawn | src/lib/mplayerManager.ts:226-227 | a new process starts, not ready, and every operation that waited for a spawn waits for its banner |
| Manager.MPlayerManager.Chunk | src/lib/mplayerManager.ts:249-264 | each operation gets its `ChunkOp` result; the banner makes the manager ready and writes the released commands; the gate opens once no critical operation is pending |
| Manager.MPlayerManager.Exit | src/lib/mplayerManager.ts:229-243 | the process and readiness are dropped, each operation gets its `EndOp` result with the exit message, and pending shutdowns resolve |
| Manager.MPlayerManager.Error | src/lib/mplayerManager.ts:244-247 | the same with the error as the cause; pending shutdowns are rejected with it |
| Manager.MPlayerManager.End | src/lib/mplayerManager.ts:229-238 | `handleProcCompletion` and the listeners it fires: process and readiness dropped, each operation gets its `EndOp` result, pending shutdowns settle with the given verdict, and the gate opens once no critical operation is pending |
| Manager.MPlayerManager.TimerFires | src/lib/mplayerManager.ts:107-111 | the operation is rejected with `Timed out`, its listeners stay attached, and the gate opens if it was the critical one |
| Manager.MPlayerManager.WritesDone | src/lib/mplayerManager.ts:106-142 | after its writes the operation listens, with a timer armed exactly when its timeout is nonzero |
| Manager.MPlayerManager.WritesFailed | src/lib/mplayerManager.ts:143-148 | a failed write rejects the operation with the failure and detaches it |
| Player.LoadfileCommand | src/lib/index.ts:52-61 | defines the `loadfile` line; its promise is stated by `LoadfileCommandText` and `LoadfileRoundTrip` |
| Player.LoadfileCommandText | src/lib/index.ts:52 | `openFile` writes exactly `loadfile "<name>"` followed by a line feed |
| Player.LoadfileRoundTrip | src/lib/index.ts:52-64 | the file name reads back from the written line, and only that name's line reads back to it |
| Player.MPlayer.constructor | src/lib/index.ts:19-39 | a new player is not playing, not ready, and has written nothing |
| Player.MPlayer.OpenFile | src/lib/index.ts:48-58 | before readiness the request waits; afterwards its line is written and it takes the single pending slot |
| Player.MPlayer.OnData | src/lib/index.ts:74-86 | the readiness banner resolves readiness and nothing else; failing that, the playback banner resolves and empties the slot and sets `isPlaying`; otherwise nothing changes |
| Player.MPlayer.ResolveReady | src/lib/index.ts:78 | the first resolution writes every waiting request's line in order and leaves the last one in the slot; later ones change nothing |
| Player.MPlayer.ResolvePlayback | src/lib/index.ts:80-84 | the request in the slot starts, the slot empties, and the player is playing |
| Scenarios.SecondCriticalIsRefused | src/test/mplayerManager.spec.ts:128-151 | while one critical operation is outstanding, a second is refused with the busy message |
| Scenarios.CriticalResolvesAndFreesTheGate | src/test/mplayerManager.spec.ts:92-108 | spawn, banner, writes and a matching line resolve a critical operation; the gate opens and the next critical operation is accepted |
| Scenarios.CriticalRejectsAndFreesTheGate | src/test/mplayerManager.spec.ts:110-126 | a rejecting `processData` rejects the operation with its reason, and the gate opens |
| Scenarios.TimeoutRejects | src/lib/mplayerManager.ts:106-111 | a nonzero timeout arms a timer that rejects with `Timed out` and opens the gate |
| Scenarios.ShutdownWithoutProcess | src/test/mplayerManager.spec.ts:27-34 | `shutdown` without a process resolves and kills nothing |
| Scenarios.ShutdownThenExit | src/test/mplayerManager.spec.ts:36-49 | `shutdown` kills the process once and resolves when it exits; the operation awaiting its banner is rejected with the exit message |
| Scenarios.ShutdownThenError | src/test/mplayerManager.spec.ts:51-65 | `shutdown` kills the process once and is rejected with the process's error |
| Scenarios.ContainedCharacter | src/lib/index.ts:77-79 | every character of an included substring occurs in the string |
| Scenarios.PlaybackIsNotReady | src/lib/index.ts:77-79 | the playback banner does not include the readiness banner, so it reaches the second branch of `onData` |
| Scenarios.BannersAreChunks | src/lib/index.ts:77-79 | each banner is a chunk that takes its own branch of `onData` |
| Scenarios.BannerChunk | src/lib/mplayerManager.ts:251-253 | a one-line chunk that includes the banner is one line that carries the banner |
| Scenarios.OpenBeforeReady | src/lib/index.ts:48-86 | a request made before readiness writes nothing until the banner, then its `loadfile` line; the playback banner then starts it |

`ParseUtils.MetadataOfExample` is stated for the report built as `Join(ExampleItems, ",")`: the fourteen pieces of the test's report joined by commas. Character for character, this is the text after `ANS_metadata=` in the test's line (`src/test/index.spec.ts:585`).

The class invariants are `Manager.MPlayerManager.Valid` and `Player.MPlayer.Valid`. Every
event method requires and preserves its class's invariant. For the manager, the invariant
says:

- `busy` holds exactly when a critical operation is pending;
- at most one critical operation is pending;
- each operation's stage agrees with whether there is a process and whether it is ready.

For the player, the invariant says:

- before readiness every request waits and nothing has been written;
- after readiness exactly the requests' `loadfile` lines have been written, in order;
- only the newest request can occupy the pending slot.

## Left out

- Process spawning, the streams and the `kill` call are not modelled as I/O. A spawn is the event `Spawn`, standard input is the `written` log, and a kill is an entry in `kills`.
- `MPLAYER_ARGS` and `mplayerArgs` are not modelled. They are constant command-line flags passed to `spawn`.
- Stream backpressure (`drain`) is not modelled. An operation's writes complete through the `WritesDone` event or fail through the `WritesFailed` event. A failure of `exec`'s standard-input stream (`mplayerManager.ts:193-196`) maps to `WritesFailed`.
- Timers are events: `TimerFires` models the timer running out. No clock is modelled.
- Logging (`log`, the `logEnabled` flag, `Date`) is left out, because it has no effect on behaviour. So is `index.ts`'s `onError`, which only logs standard-error chunks.
- Promise continuations run in the same step as the event that triggers them. JavaScript would run them in a later microtask, so interleavings that depend on that delay are not modelled. This covers `readyMPlayer().then`, `ready.then` in `openFile`, and the gate reset in `.then`/`.catch`.
- An operation's `op` body is modelled as the list of commands it writes. Arbitrary asynchronous bodies are not modelled.
- `processData` is a pure function from a line to a verdict (no match, resolve, reject). A callback that calls both `resolve` and `reject` is not modelled. For one that calls them twice, only the first counts, as in JavaScript.
- Manager.MPlayerManager: all operations of one manager share one value type `T`, since Dafny needs a single type for the operation log.
- Manager.MPlayerManager.Spawn: one spawn serves every operation waiting for a new process. The source's `readyMPlayer` spawns once for each waiting call, and a later spawn replaces an earlier one.
- Events concern only the current process. `handleProcCompletion` of an older process clearing a newer one (`mplayerManager.ts:229-238`) is not modelled.
- A timed-out operation keeps its listeners attached, because `mplayerManager.ts:106-111` does not remove them (stage `Listening`). The model follows the code. Likewise, several non-critical operations may listen at once, each receiving every chunk.
- Command.Arg: numeric arguments are integers rendered in plain decimal. Fractional and exponent renderings (`${1.5}`, `${1e21}`) are not modelled. Timeouts are natural numbers, so negative and `NaN` timeouts, which `if (timeout)` at `mplayerManager.ts:107` would treat as set or unset, are not modelled either.
- JsString.Lower: only the ASCII letters A–Z are lower-cased. Full Unicode case mapping is not modelled.
- JsString.ParseInt: only integer values plus `NaN` are modelled. JavaScript's double-precision rounding of very long digit runs is not captured.
- A `__proto__` key in a metadata report is stored like any other key. For a plain JavaScript object it would be special.
- The newer media-item API (`MPlayerMediaItem` and its operations) is not part of this model, and neither are `prebuild.js` and `src/example.ts`.
