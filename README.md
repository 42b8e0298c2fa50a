# Workspace cleaner: a Dafny model

`cy-runner.js` is the "workspace cleaner" edition of a Cypress test runner for the
VTEX platform. Before a test run it removes stale VTEX workspaces. It keeps the
lines of the workspace listing that contain seven consecutive digits and takes the
first field of each, flattening those fields to one space-separated line. It cuts
that line into names. If there is more than one name,
it sends `workspace delete <name>` through the toolbelt for each name in turn and logs
`<name> removed` or `<name> failed` depending on the call's `success` flag.
Otherwise it logs `No dirty workspaces to clean`. Throughout, it records timings in
the shared run-state record `control`.

The model has three modules:

- `Listing` (listing.dfy) holds the pure text pipeline of line 35. `Normalize` is
  `replace(/\r?\n/g, '')`, `Split` is JavaScript's `split(' ')`, `Join` is
  `join(' ')`, and `Tokens` is their composition.
- `Cleanup` (cleanup.dfy) holds the gate and the loop of lines 37-47. The reference
  functions `Commands` and `Messages` define what is issued and logged. The method
  `Clean` runs the loop with invariants and is proved equal to them.
- `Runner` (runner.dfy) holds the `control` record as a class. It also holds `main`
  from line 29 on, as a method that writes `timing` and calls the cleanup.

The toolbelt's results are an input: a sequence of `success` flags, one per delete
call in call order. A name listed twice is deleted twice, and the two calls may have
different outcomes. The captured listing text is an input too.

A quirk of the code, proved as written: a listing that names exactly one workspace
yields one token. One token fails the `length > 1` gate, so that single stale
workspace is not deleted and the run logs `No dirty workspaces to clean`
(`Cleanup.SingleWorkspaceKept`). The same gate is what turns the empty listing's
single empty token into "nothing to clean" (`Cleanup.EmptyListing`).

## Model

| member | source | states |
|---|---|---|
| `Listing.Normalize` | cy-runner.js:35 | the normalised listing contains no `\n` and is no longer than the captured text |
| `Listing.NormalizeKeepsNewlineFree` | cy-runner.js:35 | text without `\n` is left unchanged, so a `\r` that no `\n` follows is kept |
| `Listing.CrBeforeCrLf` | cy-runner.js:35 | in `\r\r\n` only the second `\r` is removed with the `\n`, leaving `\r`, as the left-to-right regex scan does |
| `Listing.NormalizeIdempotent` | cy-runner.js:35 | removing line breaks a second time changes nothing |
| `Listing.NormalizeConcat` | cy-runner.js:35 | line-break removal distributes over concatenation unless the cut falls between `\r` and `\n` |
| `Listing.LineEndingDropped` | cy-runner.js:34-35 | the single line printed by `xargs` loses its trailing `\n` or `\r\n` and nothing else |
| `Listing.Tokens` | cy-runner.js:35 | `wrk` is `Split(Normalize(listing))`; its contract says there is always at least one token and no token holds a space or a line feed |
| `Listing.Split` | cy-runner.js:35 | `split(' ')` yields one more token than the text has spaces, no token contains a space, and every character of a token comes from the text |
| `Listing.SplitPrefix` | cy-runner.js:35 | a space-free prefix of the text becomes the start of the first token |
| `Listing.JoinSplit` | cy-runner.js:35 | joining the tokens with single spaces gives back exactly the split text |
| `Listing.SplitJoin` | cy-runner.js:35 | splitting a join of space-free tokens gives the same tokens back |
| `Listing.TokensOfListing` | cy-runner.js:35 | the workspace tokens number one plus the spaces of the normalised listing and join back to it |
| `Listing.SingleToken` | cy-runner.js:35 | a listing without a space, empty or a single name, is exactly one token |
| `Listing.NormalizeDropsNoSpace` | cy-runner.js:35 | removing line breaks introduces no space |
| `Cleanup.DeleteCommand` | cy-runner.js:40 | the subcommand is `workspace delete ` followed by the token; its contract says the token can be read back intact after that 17-character prefix |
| `Cleanup.Outcome` | cy-runner.js:41-43 | the message for one call is `<token> removed` at level ok or `<token> failed` at level error; its contract says the level is ok iff `success`, error iff not, and the text starts with the token |
| `Cleanup.Commands` | cy-runner.js:37-40 | the commands of the gated loop: one delete per token when there is more than one token, else none; its contract gives that count |
| `Cleanup.Messages` | cy-runner.js:37-46 | the messages of the gated loop: one outcome per token when there is more than one token, else the nothing-to-clean message alone; its contract gives the count and the plain level of the lone message |
| `Cleanup.Clean` | cy-runner.js:37-47 | the loop issues exactly the reference commands and emits exactly the reference messages for any outcomes |
| `Cleanup.DeleteCommandsAt` | cy-runner.js:38-40 | one delete command per token, command `i` being `workspace delete ` followed by token `i` |
| `Cleanup.OutcomesAt` | cy-runner.js:41-43 | one message per token: `<token> removed` at level ok iff call `i` succeeded, `<token> failed` at level error iff it did not |
| `Cleanup.ErrorsAreFailures` | cy-runner.js:41-43 | the error-level messages are exactly as many as the failed calls |
| `Cleanup.AllAttempted` | cy-runner.js:37-44 | with more than one token every token is attempted in index order whatever earlier calls returned, and errors equal failures |
| `Cleanup.NothingAttempted` | cy-runner.js:37-46 | with at most one token no command is issued and the only message is `No dirty workspaces to clean` |
| `Cleanup.SingleWorkspaceKept` | cy-runner.js:35-37 | a listing naming one workspace yields that one token, so nothing is deleted and only the nothing-to-clean message appears |
| `Cleanup.EmptyListing` | cy-runner.js:35-37 | the empty listing is one empty token and leads to no delete and only the nothing-to-clean message |
| `Listing.JoinAvoids` | cy-runner.js:35 | joining names with spaces adds no character other than the space |
| `Listing.ListedNames` | cy-runner.js:34-35 | the line printed for one or more space-free, newline-free names gives back exactly those names in order |
| `Cleanup.ListingDeletedInOrder` | cy-runner.js:35-43 | a listing of n > 1 such names issues n deletes, delete `i` for name `i`, and message `i` is name `i`'s outcome, for any outcomes |
| `Cleanup.TwoWorkspaces` | cy-runner.js:35-43 | a two-name listing deletes the first name then the second and reports each by its own call's outcome |
| `Runner.Control.constructor` | cy-runner.js:7-14 | the record starts with the given start time, no timings, empty spec buckets and no run URL |
| `Runner.Control.CleanWorkspaces` | cy-runner.js:29-50 | `vtexCli` and then `total` are written to `timing` and no other field changes; a failed listing stops the run before any deletion and before `total` |
| `Runner.RunScript` | cy-runner.js:7-54 | after one run on a successful listing `timing` holds exactly `vtexCli` and `total`, otherwise only `vtexCli` and no command or message is produced; the spec buckets are empty and the run URL is unset |

## Left out

- The listing pipeline `workspace ls | grep | awk | xargs` and `qe.exec` (cy-runner.js:34-35) are a subprocess. Their captured text is an input, and an exception from `qe.exec` is an absent listing. The 7-digit filter belongs to `grep` and is not modelled.
- The pipeline's exit status is that of `xargs`, because the shell runs it without `pipefail`. When `workspace ls` itself fails, the captured text is still a bare line break (GNU `xargs`) or nothing, so the run logs `No dirty workspaces to clean` instead of stopping. The model gives that input the same outcome, but it does not make a listing failure fatal, because the code does not.
- `qe.toolbelt` is taken never to reject. A rejected call would end the loop at cy-runner.js:40, and the claim that every token is attempted (`Cleanup.AllAttempted`) rests on this.
- `for (const w in wrk)` (cy-runner.js:38) is modelled as the indices 0 to n-1 in order. The enumerable properties that a real `for…in` would also visit if something had been added to `Array.prototype` are not modelled.
- Commands and messages are two separate sequences. The model does not state that message `i` is logged before delete `i+1` is issued.
- `qe.toolbelt` (cy-runner.js:40) runs the vendor CLI. Only its `success` flag is modelled, as one input per call. Its output and duration are not used by this code.
- The log level that `qe.msg` uses when no level is passed (cy-runner.js:46) is defined in `./node/utils`, which is not part of this model. That level is modelled as `Plain`.
- The logs folder (`qe.storage`, cy-runner.js:18), the section banners (`qe.msgSection`, cy-runner.js:21, 32) and `getConfig` (cy-runner.js:24) are file I/O and terminal output. `vtexCli` (cy-runner.js:27) is a bootstrap in modules that are not part of this model.
- The `process.env.PATH` assignment (cy-runner.js:29) changes the process environment, which is not modelled.
- `report` (cy-runner.js:51) renders output in a module that is not part of this model.
- `qe.tick` and `qe.tock` (cy-runner.js:8, 50) read the wall clock. Their values are opaque integers passed in. For this reason the model does not claim that `total` is at least the `vtexCli` time.
- The `await` on each toolbelt call (cy-runner.js:40) is modelled as an ordinary sequential loop step. No concurrency takes place.
