# sssg challenge solver: parameter extraction and parallel proof of work

This project models the two cores of a client for the "sssg" proof-of-work
challenge:

- **Parameter extraction.** `extract_challenge_params` reads the challenge page.
  It walks the `<script>` elements in document order. It looks for a call
  `window.sssg_challenge("salt", difficulty, timeout)` in the first text node
  of each script, using one regular expression. It returns the salt and the
  difficulty, the difficulty parsed as a `u32`.
- **Parallel solving.** `solve_challenge` runs `n` workers over disjoint slices
  of the attempt numbers. A worker hashes the salt followed by the attempt
  text with SHA-256. It accepts the attempt when the first 32 bits of the
  digest have at least `difficulty` leading zero bits. The first worker to win
  the swap of a shared flag sends `(attempt, hex digest)` on a channel. Every
  worker stops once it sees the flag set. After all workers have returned,
  the coordinator receives from the channel: the winner's message, or
  nothing (`None`) when the channel closed empty, which happens when there
  are no workers.

Modules:

- `Wrappers`: `Option` and `Result`.
- `ChallengePattern`: the regular expression.
  - `Render` gives the declarative meaning of a match: a `CallText` records
    the text each token consumed.
  - `MatchCall` is a greedy anchored matcher. `FindCall` is the leftmost
    search built on it.
  - The matcher is proved sound and complete against `Render`. Since the
    tokens that follow one another have disjoint character classes, there is
    at most one match per start position, so `FindCall` finds exactly the
    regex's leftmost match and its capture groups.
- `U32Parse`: Rust's `str::parse::<u32>`.
  - It accepts an optional `+` and then ASCII digits only.
  - An empty string gives `Empty`, a non-digit gives `InvalidDigit`, and a
    value above `u32::MAX` gives `PosOverflow`.
- `HtmlParser`: the error type and `ExtractChallengeParams`. The document is
  given as the sequence of its scripts' first text nodes.
- `PowCheck`:
  - the first big-endian word of a digest;
  - `leading_zeros` of that word;
  - the acceptance test;
  - `hex::encode` with its inverse.
- `SearchSpace`: worker `w`'s `k`-th attempt is at offset `w + k*n` from the
  base.
- `PowSolver`: the concurrent search as an interleaving of atomic stretches.
  - `State` and `Step` give the meaning of one stretch. `Run` applies a
    schedule of stretches.
  - The class `Race` holds the shared flag and the channel. Its method
    `Iterate` carries out one stretch in place and is proved equal to `Step`.
  - `SolveChallenge` drives the `Race` along a schedule and reports the
    received value once all workers have returned.

Inputs the model does not compute itself are parameters:
- the SHA-256 function and the text of the attempt at each offset, both
  fields of `PowSolver.Oracle`;
- the order in which threads run, as `schedule`;
- the page, as the list of script texts.

## Model

| member | source | states |
|---|---|---|
| ChallengePattern.TakeWhile | src/html_parser.rs:7 | A greedy repetition of one character class: the result splits the input into a run of the class and a rest that does not start with the class. |
| ChallengePattern.TakeWhileUnique | src/html_parser.rs:7 | Any split into a run of the class and a rest not starting with it is the greedy one, so a repetition followed by a token of a disjoint class can be matched only one way. |
| ChallengePattern.MatchCall | src/html_parser.rs:7 | The pattern anchored at the start of a text. `MatchCallIff` proves it returns `c` exactly when the text starts with the rendering of the well-formed call `c`. |
| ChallengePattern.FindCall | src/html_parser.rs:48 | `captures` on a script text. `FindCallLeftmost` proves it returns the leftmost match with its pieces, and nothing exactly when the pattern matches nowhere. |
| ChallengePattern.MatchHeadComplete | src/html_parser.rs:7 | The opening parenthesis, the quoted salt of one or more non-quote characters and the first comma, with optional whitespace between them, are matched with exactly those pieces. |
| ChallengePattern.MatchHeadSound | src/html_parser.rs:7 | Whatever the head matcher returns is well formed: whitespace runs, either quote, a salt of one or more non-quote characters, and its text is a prefix of the input. |
| ChallengePattern.MatchArgComplete | src/html_parser.rs:7 | A numeric argument (whitespace, one or more digits, whitespace) followed by its separator is matched with exactly those pieces. |
| ChallengePattern.MatchArgSound | src/html_parser.rs:7 | Whatever the argument matcher returns is well formed and its text is a prefix of the input. |
| ChallengePattern.MatchCallComplete | src/html_parser.rs:7 | The text of any well-formed call, followed by anything, is matched, and the captures are the call's salt, difficulty digits and timeout digits. |
| ChallengePattern.MatchCallSound | src/html_parser.rs:7 | A successful match is a well-formed call whose text is a prefix of the input. |
| ChallengePattern.MatchCallIff | src/html_parser.rs:7 | The anchored matcher returns `c` if and only if the pattern matches a prefix of the input with pieces `c`. |
| ChallengePattern.LeftmostFirst | src/html_parser.rs:48 | The unanchored search returns the first start index at which the anchored match succeeds, and nothing when it succeeds nowhere. |
| ChallengePattern.FindCallLeftmost | src/html_parser.rs:48 | `captures` yields the leftmost match of the pattern, with its pieces; it yields nothing exactly when the pattern matches at no position. |
| U32Parse.ParseU32 | src/html_parser.rs:56 | `parse::<u32>`: a value it returns is at most `u32::MAX`. `ParseU32Spec` pins down when it succeeds and with what value. |
| U32Parse.Accumulate | src/html_parser.rs:56 | The digit loop of `parse::<u32>` never reports `Empty`, and a value it returns lies between the accumulator and `u32::MAX`. |
| U32Parse.AccumulateValue | src/html_parser.rs:56 | Started after digits `p`, the loop returns the decimal value of all the digits when they are all ASCII digits and the value fits in 32 bits, and fails otherwise. |
| U32Parse.ParseU32Spec | src/html_parser.rs:56 | `parse::<u32>` succeeds exactly on an optional `+` followed by a non-empty run of ASCII digits worth at most `u32::MAX`, and returns that value; it reports `Empty` exactly on the empty string. |
| HtmlParser.ExtractChallengeParams | src/html_parser.rs:36-70 | `extract_challenge_params`: a success carries a difficulty of at most `u32::MAX`, and the only errors are `ChallengeScriptNotFound` and `InvalidParameterValue`. `NotFoundIff`, `FirstMatchDecides`, `ExtractAppend` and `ExtractResultShape` give the rest. |
| HtmlParser.ScriptCall | src/html_parser.rs:47-48 | The first text node of one script and the match in it. `ScriptCallSpec` proves it yields the leftmost match, and nothing exactly when there is no match or no text node. |
| HtmlParser.CallOutcome | src/html_parser.rs:49-57 | A match's result: on success the salt capture and a difficulty of at most `u32::MAX`; the only error is `InvalidParameterValue`. `CallOutcomeSpec` gives the value and the message. |
| HtmlParser.ScriptCallSpec | src/html_parser.rs:47-48 | A script's text yields the leftmost match of the challenge pattern, and nothing when there is none. |
| HtmlParser.CallOutcomeSpec | src/html_parser.rs:49-57 | A match yields its salt capture and the value of its difficulty capture when that fits in a `u32`, and `InvalidParameterValue("difficulty: " + digits)` otherwise. |
| HtmlParser.NotFoundIff | src/html_parser.rs:46-69 | The result is `ChallengeScriptNotFound` if and only if no script's first text node contains a match. |
| HtmlParser.FirstMatchDecides | src/html_parser.rs:46-64 | When script `k` is the first one with a match, the result is the outcome of that match: earlier scripts have none and later scripts are not looked at. |
| HtmlParser.ExtractAppend | src/html_parser.rs:46-67 | Scripts after one that holds a match never change the result; scripts without a match or without a text node are skipped. |
| HtmlParser.ExtractResultShape | src/html_parser.rs:49-69 | A success is a non-empty salt free of quotes with a difficulty of at most `u32::MAX`; the only errors are `ChallengeScriptNotFound` and `InvalidParameterValue`, since every capture group of a match is present. |
| HtmlParser.ExtractSingleCall | src/html_parser.rs:46-64 | A script whose text starts with a well-formed call yields that call's salt and difficulty. |
| HtmlParser.DocumentedExample | src/html_parser.rs:42 | The example call `window.sssg_challenge("salt_value", 8, 5000);` yields `("salt_value", 8)`. |
| HtmlParser.WideDigitRejected | src/html_parser.rs:48-57 | A difficulty written with a non-ASCII digit (U+1D7CE) is matched by the pattern, fails to parse, and ends the search with `InvalidParameterValue("difficulty: 8𝟎")`, whatever scripts follow. |
| PowCheck.FirstWord | src/pow_solver.rs:57-58 | The big-endian word of digest bytes 0 to 3 is below 2^32. |
| PowCheck.LeadingZeros | src/pow_solver.rs:61 | The leading-zero count of a `width`-bit word is at most `width`. |
| PowCheck.LeadingZerosAtLeast | src/pow_solver.rs:61-64 | A word below 2^width has at least `k` leading zeros if and only if it is below 2^(width - k). |
| PowCheck.LeadingZerosAll | src/pow_solver.rs:61 | A word has `width` leading zeros if and only if it is zero. |
| PowCheck.Accepts | src/pow_solver.rs:55-64 | The acceptance test. `AcceptsBelow`, `AcceptsExtremes` and `AcceptsWholeBytes` state which digests it accepts. |
| PowCheck.AcceptsBelow | src/pow_solver.rs:55-64 | For a difficulty of at most 32, an attempt is accepted if and only if the first word of its digest is below 2^(32 - difficulty). |
| PowCheck.AcceptsExtremes | src/pow_solver.rs:64 | Difficulty 0 accepts every digest, and a difficulty above 32 accepts none. |
| PowCheck.AcceptsWholeBytes | src/pow_solver.rs:55-64 | A difficulty of 8, 16, 24 or 32 accepts exactly the digests that start with 1, 2, 3 or 4 zero bytes. |
| PowCheck.HexEncode | src/pow_solver.rs:66 | `hex::encode` produces two lowercase hex characters per byte. |
| PowCheck.HexRoundTrip | src/pow_solver.rs:66 | Decoding the hex string gives back the bytes, so distinct digests are published as distinct strings. |
| PowCheck.DigestHexLength | src/pow_solver.rs:53-66 | A published digest is 64 lowercase hex characters. |
| SearchSpace.Offset | src/pow_solver.rs:31-77 | The offset of worker `w`'s `k`-th attempt. `OffsetsDisjoint` and `OffsetsPartition` prove the workers' slices are disjoint and cover every offset. |
| SearchSpace.OffsetsDisjoint | src/pow_solver.rs:28-77 | Two workers never try the same attempt, and a worker never tries an attempt twice. |
| SearchSpace.OffsetsPartition | src/pow_solver.rs:28-77 | Every offset is tried by exactly one worker at exactly one step: worker `m % n` at step `m / n`. |
| PowSolver.Step | src/pow_solver.rs:34-73 | One atomic stretch of one worker; it keeps the number of workers. `StepInv` proves it keeps the invariant, and `Race.Iterate` performs it in place. |
| PowSolver.Run | src/pow_solver.rs:28-87 | A schedule of stretches; it keeps the number of workers. `RunInv` proves every schedule keeps the invariant. |
| PowSolver.OutcomeOf | src/pow_solver.rs:89-105 | What the call has done: still running until every worker has returned, then the first message sent, or `None`. `OutcomeSpec` states what it can be. |
| PowSolver.StartInv | src/pow_solver.rs:25-31 | At the start the flag is clear, nothing is sent and every worker is at its first attempt, which satisfies the invariant. |
| PowSolver.StepInv | src/pow_solver.rs:34-73 | Every stretch of every worker keeps the invariant: at most one message is sent, one is sent exactly when the flag is set, what is sent is the first accepted attempt of some worker's slice with its hex digest, each worker has rejected every earlier attempt of its slice, and a worker returns only when the flag is set. |
| PowSolver.RunInv | src/pow_solver.rs:28-87 | Every interleaving of the workers keeps the invariant. |
| PowSolver.SolvedIsFinal | src/pow_solver.rs:65-71 | Once the flag is set it stays set, and no further message is sent. |
| PowSolver.UnreachableDifficulty | src/pow_solver.rs:61-64 | With a difficulty above 32 the flag stays clear, nothing is sent and no worker returns, whatever the schedule. |
| PowSolver.NoWorkers | src/pow_solver.rs:28 | With no workers no schedule changes anything. |
| PowSolver.OutcomeSpec | src/pow_solver.rs:89-105 | Once every worker has returned, the received value is a first accepted attempt of some slice with its hex digest; it is `Some` if and only if there is at least one worker; with no worker the result is `None`; with a difficulty above 32 and a worker, the call never returns. |
| PowSolver.SwapStretches | src/pow_solver.rs:65-72 | When every worker has accepted its first attempt and none has swapped, the state is unchanged until the first entry that names a worker; from then on the flag is set and exactly one message has been sent, that worker's solution, whatever follows. |
| PowSolver.ZeroDifficultySingleWinner | src/pow_solver.rs:64-72 | With difficulty 0, for any order `p` in which every worker runs its first stretch once (each accepts its first attempt) followed by any schedule `q`: after `p` every worker is about to swap, and after `p + q` exactly one message has been sent, the solution of the first worker `q` names, or none if `q` names none. |
| PowSolver.Race.constructor | src/pow_solver.rs:25-26 | The flag starts clear and the channel empty. |
| PowSolver.Race.Load | src/pow_solver.rs:35 | Loading the flag returns its current value. |
| PowSolver.Race.Swap | src/pow_solver.rs:65 | The swap sets the flag and returns its previous value, and leaves the channel alone. |
| PowSolver.Race.Send | src/pow_solver.rs:68 | Sending appends one message to the channel, and leaves the flag alone. |
| PowSolver.Race.Iterate | src/pow_solver.rs:34-73 | One stretch of a worker's loop, done in place, moves the flag, the channel and the worker as `Step` says. A worker that sees the flag set returns. A worker that accepted an attempt returns whether or not it wins the swap. Only a worker that accepted an attempt and found the flag clear sends. |
| PowSolver.SolveChallenge | src/pow_solver.rs:20-106 | Under any schedule the result is the outcome of `Run`. A received solution is a first accepted attempt of some worker's slice with its hex digest. The result is `Some` exactly when there is a worker. With a difficulty above 32 the call does not return. |

## Left out

- HTML parsing and the CSS selector. `Html::parse_document` and
  `select("script")` are not modelled. The document is given as the sequence of
  its `<script>` elements in document order, each with its first text node or
  none. So `SelectorError` exists in `ParseError` but is never produced,
  because the selector is a constant that always parses.
- `RegexError` carries the error's message as a string. It is never produced,
  because the pattern is a constant that compiles. `ParameterNotFound` is
  never produced either, because every capture group of the pattern takes part
  in every match. `ExtractResultShape` proves this.
- The Unicode version of the `\d` class. `IsDigit` lists the decimal digits
  (general category Nd) of Unicode 15.0, in all planes. Digits that a later
  Unicode version adds (for example those added in Unicode 16.0) are not in
  the model. A newer `regex` crate would match such a digit, and the call
  would then end with `InvalidParameterValue`, as `WideDigitRejected` shows
  for a Unicode 15.0 digit. The model would instead skip that call.
- The `Display` texts of `ParseError` are not modelled.
- SHA-256 itself. It is the `sha256` field of `PowSolver.Oracle`, a function
  from the salt-plus-attempt text to 32 bytes. The model does not model UTF-8
  encoding separately.
- Attempt numbers and their formatting.
  - The source keeps the attempt as an `f64` that starts at the random base
    plus the worker index and grows by `num_threads`. It formats the number
    with one decimal place.
  - The model keeps the integer offset `w + k*n` from the base and leaves the
    text to `Oracle.attemptText`.
  - So float rounding is not modelled. The random base is a multiple of 0.5
    below 2^52. From 2^52 on, a half is no longer representable, so
    neighbouring attempts can round to the same number. For example, with
    base 2^52 - 0.5 and two workers, both try 2^52 + 2 at their second
    attempt.
  - Neither is the choice between one decimal place and JavaScript's shortest
    form: the code uses one decimal place, and the model follows it by leaving
    the formatter abstract.
- Threads.
  - Rayon's scheduling, the `Relaxed` memory ordering and the channel's
    blocking are replaced by sequentially consistent interleavings of two
    atomic stretches per loop iteration. The first stretch is the flag load
    with the hashing; the second is the swap with the send.
  - Cutting a loop iteration into these two stretches loses no behaviour:
    - The hashing in the first stretch touches only thread-local data.
    - In the second stretch another worker may load the flag between the swap
      and the send. It then returns, which the model lets it do after the
      send. This changes nothing anyone observes, because the channel is read
      only after every worker has returned (src/pow_solver.rs:89-93).
  - Schedule entries that name no worker do nothing.
  - The model uses finite schedules and no fairness. So it states what holds
    whenever the call returns, and that it cannot return for a difficulty
    above 32, but not that it returns at all.
- The failure branch of `tx.send`. The receiver lives until after the
  parallel loop, so a send cannot fail. The model's `Send` always succeeds.
- `iteration_count` and `yield_now`. The counter only drives the yield every
  10000 iterations, and a yield changes no state. The worker's `k` is the same
  count, as an unbounded natural.
- `difficulty` is an unbounded natural rather than a `u32`. All `u32` values
  are covered, and none beyond 32 is ever accepted.
- Logging and timing (`debug!`, `info!`, `error!`, `Instant`).
- `main.rs`, `network_client.rs` and `utils.rs` are not part of this model.
- Difficulty range and empty results:
  - `extract_challenge_params` accepts any `u32` difficulty, including those
    above 32.
  - `solve_challenge` returns `None` when the channel closes empty
    (src/pow_solver.rs:93-105). Its doc comment (src/pow_solver.rs:18-19)
    says it blocks until some thread finds a solution.
  - The model follows the code. `OutcomeSpec` shows that `None` comes only
    with no workers. `UnreachableDifficulty` shows that with a difficulty
    above 32 and at least one worker the call never returns.
