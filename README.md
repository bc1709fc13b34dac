# LES/CEML data-center demo — Dafny model

This project models the core of the "LES Data Center Optimizer" demo. The
demo compares two energy-accounting policies over a fixed list of 1000
generated requests:

- the **basic** policy charges every request 10 units;
- the **optimized** policy works in two steps. First, CEML (the redundancy
  detector) looks up a request's signature in a memory of signatures. A
  redundant request costs 1 unit. Any other request lets LES (the decaying
  global entropy) cool by a factor 0.99, floored at 0.1. The request's
  signature is then stored, and the request costs
  `10 * (0.3 + 0.7 * entropy)`.

The model covers both implementations of the demo:

- the TypeScript port: `utils/lesLogic.ts` and the batch stepper in
  `App.tsx`;
- the Python original: the same functions, plus the `DataCenterBasique` and
  `DataCenterOptimise` classes in `App.py`.

Modules:

- `Text` (`text.dfy`) holds the string primitives the code relies on:
  - ASCII lower-casing;
  - substring search and occurrence counting;
  - prefix and suffix cuts;
  - decimal rendering of an index.
- `LesLogic` (`les_logic.dfy`) holds the pure functions:
  - the motif-entropy estimate, with the base-2 logarithm as a parameter
    `log2: real -> real`;
  - the signature compressor and the redundancy detector;
  - the request generator.
- `Ceml` (`ceml.dfy`) holds the optimized policy's handling of one request
  (`Serve`) and of a list of requests (`ServeBatch`). Both implementations
  share them.
- `App` (`app.dfy`) models the TypeScript stepper:
  - the class `Simulation` has the refs and state of `App.tsx` as fields;
  - `ProcessBatch`, `Start`, `Reset` and `AddLog` update those fields;
  - each `ProcessBatch` is proved to move the state by the pure step
    `Tick`, whose invariant and energy bounds are proved as lemmas.
- `DataCenters` (`data_centers.dfy`) models the Python classes and the
  simulation over the whole request list.

The stored signature is made at the request's own entropy estimate
(`App.tsx:82,87`, `App.py:79,81`), while the cost uses the decayed global
entropy. `Serve` is written that way, and `StoredLowSignature` /
`StoredHighSignature` state what this means for later redundancy checks:
- a signature stored from a request with entropy above 0.7 never makes
  another request redundant;
- one stored at or below 0.7 makes exactly the requests of the same keyword
  class redundant.

The two implementations also differ on the empty text:
- Python divides by the length and raises, modelled as `None`
  (`EntropyLES`), which makes `OptimizedDataCenter.ProcessRequest` fail;
- TypeScript computes NaN probabilities, skips them all and returns (minus)
  zero, modelled as `0.0` (`EntropyPort`).

On non-empty text whose characters all lie in Unicode's Basic Multilingual
Plane the two estimates agree (see "## Left out" for other text). The
generated requests are never empty, so `DataCenters.Simulate` never fails on them. It ends the Python
optimized center in the state `ServeBatch(Initial, requests)`: the
per-request handling of the stepper (`Ceml.Serve`) applied to the requests
in order. `App.TicksServeInOrder` states the same for the stepper: batching
ten requests per call leaves memory, entropy and the optimized total exactly
as serving the processed requests one at a time would.

## Model

The helper definitions `Text.Contains`, `LesLogic.Sum`,
`LesLogic.WeightedLogSum` and `LesLogic.RequestAt` model source expressions
(`includes` / `in`, the sum of utils/lesLogic.ts:30, the entropy sum of
utils/lesLogic.ts:34-36, the request string of utils/lesLogic.ts:76-77);
their rows are those of the lemmas and members that state their properties:
`Text.ContainsIff`, `LesLogic.Distribution`, `LesLogic.WeightedLogSumNegative`,
`LesLogic.GenerateRequests` and `LesLogic.RequestsDistinct`.

| member | source | states |
|---|---|---|
| Text.LowerChar | utils/lesLogic.ts:17 | an ASCII capital maps to its lower-case letter (code point + 32); every other character is unchanged |
| Text.Lower | utils/lesLogic.ts:17 | lower-casing keeps the length and lower-cases each character in place |
| Text.Prefix | utils/lesLogic.ts:44 | `slice(0, n)` has length min(n, len) and is a prefix of the text |
| Text.Suffix | App.tsx:109 | `slice(-n)` has length min(n, len) and is a suffix of the text |
| Text.ContainsIff | utils/lesLogic.ts:47 | the substring search answers true exactly when the pattern occurs at some position |
| Text.CountPositiveIff | utils/lesLogic.ts:22 | the global-match count is positive exactly when the motif occurs |
| Text.CountOccurrences | utils/lesLogic.ts:22 | the count of non-overlapping occurrences of a non-empty motif, times the motif's length, is at most the text length |
| Text.Decimal | utils/lesLogic.ts:77 | the rendering of an index is non-empty and made only of digits, has one digit exactly for indices below 10, and has no leading zero: it starts with `0` only for 0 |
| Text.DecimalRoundTrip | utils/lesLogic.ts:77 | reading the rendered index back gives the index |
| Text.DecimalInjective | utils/lesLogic.ts:77 | distinct indices render to distinct strings |
| Text.SplitAtLast | utils/lesLogic.ts:77 | a string `a_b`, where `b` has no `_`, determines both `a` and `b` |
| LesLogic.Frequencies | utils/lesLogic.ts:20-24 | one value per motif: its occurrence count in the lower-cased text divided by the text length |
| LesLogic.FloorAll | utils/lesLogic.ts:27 | each value becomes itself or 1e-10, whichever is larger |
| LesLogic.Scale | utils/lesLogic.ts:30-31 | each value is divided by the sum |
| LesLogic.Distribution | App.py:29-32 | for a non-empty text: five values in (0, 1] summing to 1 |
| LesLogic.EntropyLES | App.py:26-33 | fails exactly on the empty text; otherwise the value is at most 1 |
| LesLogic.EntropyPort | utils/lesLogic.ts:15-39 | at most 1; zero on the empty text; otherwise the Python estimate |
| LesLogic.WeightedLogSumNegative | utils/lesLogic.ts:34-36 | with probabilities in (0, 1) and a logarithm negative there, the sum of x·log2(x) is negative |
| LesLogic.EntropyInUnit | App.py:33 | for a non-empty text the estimate lies in (0, 1] |
| LesLogic.FoundKeywords | utils/lesLogic.ts:46-47 | the kept keywords all occur in the text and come from the keyword list |
| LesLogic.FoundKeywordsForm | App.py:40 | the filtered list is the sub-list of qubit, spin, fc-496 present in the text, in that order |
| LesLogic.FoundKeywordsIff | utils/lesLogic.ts:47 | a keyword is kept exactly when it occurs in the lower-cased text |
| LesLogic.Join | utils/lesLogic.ts:50 | `join("_")`: empty for no parts; otherwise it starts with the first part, puts `_` right after it when there are more, and is as long as the parts plus one separator between each two |
| LesLogic.Compress | utils/lesLogic.ts:42-55 | a signature has 4 to 20 characters |
| LesLogic.KeywordJoinShort | utils/lesLogic.ts:50 | the joined keywords have at most 17 characters, so the 20-character cut never shortens them |
| LesLogic.SignatureForms | App.py:35-41 | three forms: `COMP_`+first 5 characters above 0.7; the `_`-joined keywords present; else `UNK_`+first 5 characters |
| LesLogic.LowEntropyIgnoresValue | utils/lesLogic.ts:59-61 | at or below 0.7 the signature does not depend on the entropy, so it equals the detector's signature at 0.5 |
| LesLogic.SignatureInitial | utils/lesLogic.ts:42-55 | the first character tells the branch: `C` above 0.7, otherwise `q`, `s`, `f` or `U` |
| LesLogic.HighNeverEqualsLow | utils/lesLogic.ts:58-63 | a signature made above 0.7 never equals a signature the detector computes |
| LesLogic.LowSignatureEqualIff | App.py:43-46 | two detector signatures are equal exactly when the texts have the same keywords and, if they have none, the same first five characters |
| LesLogic.IsRedundant | utils/lesLogic.ts:58-63 | a request is redundant only when memory holds a signature of the detector's own forms, starting with `q`, `s`, `f` or `U` and never `C`; never with an empty memory |
| LesLogic.StoredLowSignature | App.tsx:77-88 | storing a signature made at or below 0.7 makes a text redundant exactly when it already was or shares the keyword class |
| LesLogic.StoredHighSignature | App.tsx:77-88 | storing a signature made above 0.7 never changes what the detector answers |
| LesLogic.GenerateRequests | utils/lesLogic.ts:66-81 | 1000 requests; request k is base template k mod 4, then `_`, then k |
| LesLogic.RequestsDistinct | App.py:106-110 | no two generated requests are equal |
| Ceml.Decay | App.tsx:84 | the decayed entropy is max(0.1, 0.99·e): at least 0.1 and at least 0.99·e, and equal to one of them; never above the old one (from ≥ 0.1) and at most 0.99 (from ≤ 1) |
| Ceml.FreshCost | App.py:88 | for entropy in [0.1, 0.99] a processed request costs strictly between 1 and 10 |
| Ceml.Serve | App.tsx:77-93 | memory only gains the request's signature; a redundant request changes neither memory nor entropy; every request costs at least 1; from an entropy in [0.1, 1] the entropy stays in [0.1, 1] and never rises, and the cost is in [1, 10) |
| Ceml.ServeBatch | App.tsx:73-93 | the requests of a slice served in order, each at its own entropy; memory never loses a signature |
| Ceml.ServeBatchState | App.tsx:66-96 | over any list the entropy stays in [0.1, 1] and never rises; memory only grows, gaining only signatures of the list |
| Ceml.ServeBatchEnergy | App.tsx:66-96 | a list of n requests costs between n and 10n, strictly below 10n when n > 0 |
| Ceml.ServeBatchSingle | App.tsx:66-96 | a one-request list is that request served at its own entropy |
| Ceml.ServeBatchExtend | App.tsx:66-96 | extending the slice by one request serves that request last |
| Ceml.ServeBatchShift | App.tsx:54-55 | a batch's effect on memory and entropy does not depend on the energy before it, and its cost adds to that energy |
| Ceml.ServeBatchAppend | App.tsx:51-116 | serving two lists one after the other is serving their concatenation |
| App.NextCursor | App.tsx:58-64 | before the end the cursor moves forward by 1 to 10 and stays within the list; at the end it stays |
| App.CursorAfterCalls | App.tsx:64 | after c calls the cursor is min(10c, total) |
| App.FullRunCalls | App.tsx:52 | 1000 requests take exactly 100 calls |
| App.PushLog | App.tsx:44-49 | the new entry comes first, the older ones follow in order, and at most 5 are kept |
| App.ProcessedLog | App.tsx:109 | the line logged after a slice is an info entry carrying the global entropy |
| App.ProcessedLogText | App.tsx:109 | its text is `Processed: ...` followed by the last min(15, len) characters of the slice's last request |
| App.Tick | App.tsx:51-116 | the cursor moves as `NextCursor` says |
| App.FreshRunInvariant | App.tsx:131-143 | the reset state satisfies the run invariant |
| App.BatchKeepsInvariant | App.tsx:66-96 | a slice keeps the entropy in range, memory within the processed signatures, and the optimized total between 1 and 10 per request |
| App.TickKeepsInvariant | App.tsx:51-116 | every call keeps the run invariant: cursor in range, entropy in [0.1, 1], memory holds only signatures of processed requests, basic total = 10 per request, optimized total between 1 per request and the basic total |
| App.TickEnergy | App.tsx:70-103 | a call adds 10 per request to the basic total and between 1 and 10 per request (strictly less than 10) to the optimized total; memory only grows and the global entropy never rises; after the end nothing changes and the run stops |
| App.TickRunning | App.tsx:111-115 | the run keeps going exactly while it was running and the slice did not reach the end |
| App.TicksFromFresh | App.tsx:51-116 | after n calls from a reset the invariant holds and the cursor is min(10n, total) |
| App.TicksCursor | App.tsx:64 | after n calls from a reset the cursor is min(10n, total), whatever the requests |
| App.TickServesInOrder | App.tsx:66-96 | if memory, entropy and optimized total are those of serving the requests before the cursor one at a time, a call keeps that true for the requests before the new cursor |
| App.TicksServeInOrder | App.tsx:51-116 | after n calls from a reset, memory, entropy and optimized total equal serving the first min(10n, total) requests one at a time, in order, from the initial state |
| App.StartedTicks | App.tsx:111-115 | from a started run the cursor after n calls is min(10n, total), and the run is running exactly while that is below the total |
| App.FullRun | App.tsx:51-116 | a full run over 1000 requests: 100 calls, basic total 10000, optimized total in [1000, 10000); a started run is still running after 99 calls and stopped after the 100th |
| App.Simulation.constructor | App.tsx:40-42 | the generated requests are loaded and the state is the reset state |
| App.Simulation.Progress | App.tsx:105 | progress is in [0, 100] and is 100 exactly when every request is processed |
| App.Simulation.ProgressBounds | App.tsx:105 | the percentage cursor/total·100 is in [0, 100] and equals 100 exactly at the end |
| App.Simulation.AddLog | App.tsx:44-49 | only the log changes: it becomes the new entry followed by the newest older ones, at most 5, and the run invariant is kept |
| App.Simulation.Reset | App.tsx:131-143 | the state becomes the reset state (cursor 0, entropy 1, empty memory, zero totals, stopped, empty log) and the invariant holds |
| App.Simulation.Start | App.tsx:118-129 | does nothing while running; otherwise resets a finished run, then runs, keeping the invariant |
| App.Simulation.ServeRequest | App.tsx:73-93 | one request as the loop body handles it equals serving that request at its own entropy |
| App.Simulation.ServeSlice | App.tsx:66-96 | the loop adds 10 per request to the basic total and leaves memory, entropy and optimized total as serving the slice in order |
| App.Simulation.FinishRun | App.tsx:58-62 | at the end the call stops the run and logs completion, as `Tick` says |
| App.Simulation.Advance | App.tsx:64-115 | before the end the call's new state is `Tick` of the old one |
| App.Simulation.AdvanceRun | App.tsx:64-115 | the fields move as `Tick` says |
| App.Simulation.ProcessBatch | App.tsx:51-116 | the fields move as `Tick` says and the run invariant is kept |
| DataCenters.DecayTimes | App.py:80 | n decays from an entropy in [0.1, 1] stay in [0.1, that entropy] |
| DataCenters.DecayTimesClosedForm | App.py:80 | after n processed requests the entropy is max(0.1, 0.99^n) |
| DataCenters.FreshTotalBounds | App.py:88-89 | n processed requests cost between n and 10n, strictly inside when n > 0 |
| DataCenters.BasicDataCenter.constructor | App.py:50-54 | starts with zero energy and zero count |
| DataCenters.BasicDataCenter.ProcessRequest | App.py:56-61 | adds 10 to the energy and 1 to the count, keeping energy = 10 · count |
| DataCenters.Handle | App.py:72-90 | fails exactly for a non-redundant empty text; on success it does what the stepper's `Serve` does; a redundant request leaves memory and count alone; otherwise memory gains signature ↦ request and the count grows by 1 |
| DataCenters.HandleKeepsSigned | App.py:81-82 | every memory key stays the signature of the non-empty request it maps to |
| DataCenters.HandleKeepsValid | App.py:72-90 | keeps: entropy = entropy after `count` decays, at most one key per processed request, energy = 1 per redundant request + the fresh costs |
| DataCenters.OptimizedDataCenter.constructor | App.py:64-70 | starts with empty memory, entropy 1, zero energy and zero processed count, satisfying the invariant |
| DataCenters.OptimizedDataCenter.ProcessRequest | App.py:72-90 | fails and changes nothing exactly when `Handle` fails; otherwise the fields become `Handle`'s result and the invariant is kept |
| DataCenters.Simulate | App.py:113-122 | no failure when no request is empty; on success the basic center counted every request, the optimized center is in the state `ServeBatch(Initial, requests)`, spends at least 1 per request and less than the basic center, memory stays signed, and savings are in (0, 90] |
| DataCenters.RunSavings | App.py:132-134 | over a non-empty list the optimized policy spends in [n, 10n) and the savings figure is in (0, 90] |
| DataCenters.Savings | App.py:132-134 | zero when the basic energy is zero; in (0, 90] when the optimized energy lies in [basic/10, basic) |

## Left out

- Floating point: every number is an exact `real`. Rounding in `0.99` decay steps, in the cost and in `toFixed(4)` / `:.1f` formatting is not modelled. The log entry keeps the entropy value rather than its formatted text.
- The base-2 logarithm is a parameter. `LesLogic.EntropyInUnit` assumes only that it is negative on (0, 1). No other property of the logarithm is used, so the exact entropy values are not computed.
- Strings are sequences of Unicode code points, as in Python. TypeScript's `length` and `slice` count UTF-16 code units instead, so on text with a character outside the Basic Multilingual Plane (an emoji, say) `LesLogic.EntropyPort` and the `COMP_` / `UNK_` five-character prefixes of `LesLogic.Compress` follow Python, not the TypeScript port: the TypeScript divides by a larger length and can cut a surrogate pair. The generated requests contain no such character.
- Lower-casing covers ASCII letters only. `toLowerCase()` and `lower()` also fold non-ASCII capitals; no request template has one, and no motif or keyword contains one.
- React rendering, `requestAnimationFrame` scheduling and its cancellation, the `disabled` state of the button, the components `HeroSection` and `SimulationResults`, and the Streamlit page and chart are left out. The caller of `ProcessBatch` stands for the animation frame.
- Log entry ids (`Date.now() + Math.random()`) are not modelled. `LogEntry` has no id.
- SimPy is left out: the environment, the 100 servers, `random.choice` among them and the 0.01 timeouts. A request takes no simulated time, so each request is finished before the next one arrives. The model therefore handles them in order, and the two data centers independently.
- A Python exception stops the whole simulation. `DataCenters.Simulate` stops at the first failure but says nothing about the basic center's state in that case.
- App.Simulation.ProcessBatch: the slice loop and the step after it run on a snapshot of the fields taken as a value (`Advance`, `ServeSlice`). The fields are written back together. The model does not show the refs being updated one by one inside the loop, which no other code observes during the call.
- DataCenters.OptimizedDataCenter.ProcessRequest: the new field values are computed on a value (`Handle`) and then assigned. The order of the Python assignments (entropy, then memory, then energy and count after the server is granted) is not shown.
- App.Invariant (the run invariant) bounds memory by the signatures of every processed request, redundant or not. A redundant request stores nothing, so the bound is looser than the code allows; the tighter bound, over the non-redundant requests only, is not part of the invariant. `App.TicksServeInOrder` gives the exact memory of a run started from the reset state.
- `SimulationStepResult`, `SimulationState` and the constants `NUM_SERVERS` / the server slider are declared but not used by the modelled code.

