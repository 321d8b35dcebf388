# Skyra: choice filter, mention-spam enforcement, starboard reaction clear

This project models three small pieces of the Skyra Discord bot and proves properties about them.

- **`choice` word filter** (`filterWords`). The command receives the words a user offered. If there are fewer than two, it raises the "missing" error. Otherwise it trims every word with `String.prototype.trim`, skips words that trim to empty, and puts each word into `output` the first time it appears and into `filtered` when it appears again. If `output` ends up with at least two words, those words are returned in insertion order. Otherwise the command raises the "duplicates" error, whose argument is the `filtered` words joined by `', '`.
- **Mention-spam listener.** It runs when an author exceeds the guild's mention threshold. It takes the guild's moderation lock and then, in this order:
  1. bans the author, with 0 days of messages purged;
  2. sends a notice to the channel;
  3. deletes the author's mention counter;
  4. creates a Ban moderation case.

  A rejected ban or a rejected notice is emitted as a client error and does not stop the later steps. The lock is released in `finally`.
- **Starboard reaction-clear listener.** It runs when all reactions are removed from a message. It ignores events without a guild id, and events whose guild or channel is not in the client's cache. For any other event it:
  1. evicts the message's `channel-message` entry from the guild's starboard cache;
  2. deletes the starboard row of that guild and message;
  3. stops if no row was deleted, or if the guild has no starboard channel configured;
  4. otherwise, if the row has a star message, deletes that message from the starboard channel.

  A rejected remote delete is emitted as a client error. Any other failure is logged as fatal. The listener never rejects.

The files:

- `common.dfy` (`Common`): identifiers, options and results, the outcome of an awaited call, and the two diagnostic channels.
- `choice.dfy` (`Choice`): `trim`, the `Set` contents the loop builds, and the filter.
- `mention_spam.dfy` (`MentionSpam`): the guild's moderation state as a class, and the enforcement run.
- `starboard_clear.dfy` (`StarboardClear`): the caches, rows and settings as a class, and the reconciling run.

Each listener method is proved against a pure function of the old state. Its `ensures` is `State() == F(old(State()), …)`. The lemmas then state what the source promises about `F` and not just what `F` computes. `FilterWords` keeps the source's loop and is proved equal to `FilterResult`. Every collaborator call (ban, send, case creation, the delete query, `readSettings`, the remote delete) is a parameter that says whether the call resolved or rejected.

## Model

| member | source | states |
|---|---|---|
| Choice.IsTrimmable | src/commands/Fun/choice.ts:28 | the characters `trim` strips: the ECMAScript WhiteSpace characters (TAB, VT, FF, SP, NBSP, ZWNBSP, the Unicode space separators) and the LineTerminator characters (LF, CR, LS, PS) |
| Choice.TrimStart | src/commands/Fun/choice.ts:28 | the word without its leading whitespace; its properties are `TrimStartShape` |
| Choice.TrimEnd | src/commands/Fun/choice.ts:28 | the word without its trailing whitespace; its properties are `TrimEndShape` |
| Choice.Trim | src/commands/Fun/choice.ts:28 | `raw.trim()`: both ends stripped; its properties are `TrimShape`, `TrimIsSlice` and `TrimIgnoresSurrounding` |
| Choice.TrimShape | src/commands/Fun/choice.ts:28-29 | `trim` gives the empty word (skipped by the `continue`) exactly when the raw word is all whitespace; otherwise the result neither starts nor ends with whitespace |
| Choice.TrimStartShape | src/commands/Fun/choice.ts:28 | stripping the front removes a whitespace prefix and leaves a suffix that is empty or starts with a non-whitespace character |
| Choice.TrimEndShape | src/commands/Fun/choice.ts:28 | stripping the back removes a whitespace suffix and leaves a prefix that is empty or ends with a non-whitespace character |
| Choice.TrimIgnoresSurrounding | src/commands/Fun/choice.ts:28 | whitespace added around a word does not change its trimmed form |
| Choice.TrimIsSlice | src/commands/Fun/choice.ts:28 | the trimmed word is a contiguous part of the raw word with only whitespace before and after it |
| Choice.FirstOccurrences | src/commands/Fun/choice.ts:25-31 | the contents of `output` have no duplicates and hold exactly the words that were added |
| Choice.FirstOccurrencesOrdered | src/commands/Fun/choice.ts:25-31 | `output` lists words in the order of their first occurrence |
| Choice.Repeats | src/commands/Fun/choice.ts:26-30 | `filtered` has no duplicates and holds exactly the words added at least twice |
| Choice.Candidates | src/commands/Fun/choice.ts:27-29 | the words that get past the `continue` are exactly the non-empty trimmed raw words |
| Choice.NonEmptyKeepOrder | src/commands/Fun/choice.ts:27-31 | skipping empty words keeps the relative order of first occurrences among the trimmed words |
| Choice.NonEmptyCount | src/commands/Fun/choice.ts:29-30 | skipping empty words keeps the number of occurrences of every non-empty word |
| Choice.ScanSets | src/commands/Fun/choice.ts:25-32 | after the loop, `output` holds the first occurrences and `filtered` the repeats of the non-empty trimmed words, both in insertion order |
| Choice.Scan | src/commands/Fun/choice.ts:25-32 | the two sets after the loop has gone through a prefix of the raw words, one word at a time: empty trimmed words skipped, a seen word added to `filtered`, a new one to `output`; `ScanSets` characterises it |
| Choice.Join | src/commands/Fun/choice.ts:35 | `Array.prototype.join`: the parts with the separator between neighbours, the empty string for no parts |
| Choice.JoinSnoc | src/commands/Fun/choice.ts:35 | joining one more part appends the separator and that part |
| Choice.FilterWords | src/commands/Fun/choice.ts:22-36 | the loop over the raw words, with its two sets, returns or raises exactly what `FilterResult` gives |
| Choice.FilterMissing | src/commands/Fun/choice.ts:23 | the "missing" error is raised if and only if fewer than two raw words are given |
| Choice.FilterSuccess | src/commands/Fun/choice.ts:25-34 | a success has at least two words, no duplicates, only non-empty trimmed raw words, and every non-empty trimmed raw word |
| Choice.FilterSuccessOrder | src/commands/Fun/choice.ts:25-34 | a success lists words in order of first occurrence among the trimmed raw words |
| Choice.FilteredIffRepeated | src/commands/Fun/choice.ts:30 | a word is in `filtered` if and only if it is non-empty and at least two raw words trim to it |
| Choice.FilterDuplicates | src/commands/Fun/choice.ts:34-35 | with two or more raw words, the "duplicates" error is raised if and only if fewer than two distinct non-empty trimmed words remain; it carries `filtered` joined by `', '`, which then holds at most one word, so the argument is that word or empty |
| Choice.FilterCollapsesWhitespace | src/commands/Fun/choice.ts:28-31 | two raw words that differ only by surrounding whitespace trim alike and give one entry of a success |
| MentionSpam.GuildModeration.CreateLock | src/listeners/mentionSpamExceeded.ts:18 | taking the lock raises the lock depth by one and records it; nothing else changes |
| MentionSpam.GuildModeration.ReleaseLock | src/listeners/mentionSpamExceeded.ts:38 | releasing the lock lowers the depth by one and records it; nothing else changes |
| MentionSpam.GuildModeration.Run | src/listeners/mentionSpamExceeded.ts:17-39 | the run leaves the state `Enforce` gives and resolves or rejects as `Enforce` says |
| MentionSpam.EnforceLockBalanced | src/listeners/mentionSpamExceeded.ts:18-39 | the lock is taken before the first remote call and released exactly once, as the last effect, whatever the calls do; the depth is unchanged |
| MentionSpam.EnforceOrder | src/listeners/mentionSpamExceeded.ts:20-36 | the effects are lock, ban with 0 days purged and the footer reason, notice, counter delete, Ban case request, release, in that order |
| MentionSpam.EnforceNonAbortive | src/listeners/mentionSpamExceeded.ts:20-26 | failed calls change neither the effects issued, the counters nor the lock |
| MentionSpam.EnforceReportsFailures | src/listeners/mentionSpamExceeded.ts:20-25 | a rejected ban and a rejected notice are each emitted as an error, the ban's first; nothing else is reported |
| MentionSpam.EnforceClearsCounter | src/listeners/mentionSpamExceeded.ts:26 | the author's counter is removed and every other counter is unchanged |
| MentionSpam.EnforceFilesCase | src/listeners/mentionSpamExceeded.ts:28-39 | a resolved case creation appends one case (author, client id, Ban, threshold reason); a rejected one appends none, rejects the run with its error and still restores the lock depth |
| MentionSpam.EnforceStep | src/listeners/mentionSpamExceeded.ts:18-38 | one run adds one lock taken, one lock released, and the case it files |
| MentionSpam.EnforceAllBalanced | src/listeners/mentionSpamExceeded.ts:18-39 | any sequence of runs in one guild leaves the lock depth unchanged, takes and releases one lock per run, and files the cases in arrival order |
| StarboardClear.MessageKey | src/listeners/reactions/rawMessageReactionRemoveAll.ts:18 | the starboard cache key `${channel_id}-${message_id}` |
| StarboardClear.MessageKeyInjective | src/listeners/reactions/rawMessageReactionRemoveAll.ts:18 | for channel ids without a dash, two keys are equal if and only if they name the same channel and message |
| StarboardClear.StarboardReconciler.Run | src/listeners/reactions/rawMessageReactionRemoveAll.ts:12-48 | the run leaves the state `Reconcile` gives |
| StarboardClear.ReconcileIgnoresUnknown | src/listeners/reactions/rawMessageReactionRemoveAll.ts:13-16 | an event with no guild id, an uncached guild or an uncached channel changes nothing |
| StarboardClear.ReconcileEvictsFirst | src/listeners/reactions/rawMessageReactionRemoveAll.ts:18-29 | an accepted event evicts its `channel-message` cache entry as its first effect, before the delete query; other cache entries are unchanged |
| StarboardClear.ReconcileDeletesOnlyMatchingRow | src/listeners/reactions/rawMessageReactionRemoveAll.ts:23-29 | once the query succeeds for an accepted event, the rows are the old rows without the event's guild and message; otherwise they are unchanged; every other row is untouched |
| StarboardClear.ReconcileRemoteDelete | src/listeners/reactions/rawMessageReactionRemoveAll.ts:31-44 | the remote delete is issued if and only if a row was deleted, the settings were read, a channel is configured and the row has a star message; it targets that channel and message with the reactions-cleared reason |
| StarboardClear.ReconcileSwallowsFailures | src/listeners/reactions/rawMessageReactionRemoveAll.ts:43-47 | a rejected query or settings read is logged as fatal, a rejected remote delete is emitted as an error, and nothing else is reported |
| StarboardClear.ReconcileUnstarredMessage | src/listeners/reactions/rawMessageReactionRemoveAll.ts:31 | a message with no row: nothing is deleted, nothing is reported, and only the eviction and the query are issued |
| StarboardClear.ReconcileKeepsCaches | src/listeners/reactions/rawMessageReactionRemoveAll.ts:15-35 | a run never changes the cached guilds and channels or the starboard channel settings |
| StarboardClear.ReconcileRowCount | src/listeners/reactions/rawMessageReactionRemoveAll.ts:23-31 | a run deletes exactly one row when the accepted event's row exists and the query succeeds, and none otherwise |
| StarboardClear.ReconcileIdempotent | src/listeners/reactions/rawMessageReactionRemoveAll.ts:23-31 | a second run for the same event, after a run whose query succeeded, deletes no row, leaves the cache unchanged and issues no remote delete, whatever its calls do |
| StarboardClear.ReconcileStarredExample | src/listeners/reactions/rawMessageReactionRemoveAll.ts:18-42 | in a concrete starred message (channel "555", star message "123"), the effects are eviction, row delete and star message delete, in that order |

## Left out

- The random pick in `messageRun` (src/commands/Fun/choice.ts:17) is not modelled. It relies on floating-point randomness.
- The reply sent by `messageRun` is not modelled. It is I/O through a framework that is not part of this model.
- `this.error` is modelled as the `Err` variant of a `Result`. A raised language key is its `ChoiceError`.
- Character classes: `trim` works on UTF-16 code units, while the model works on Unicode scalar values. Every character `trim` strips is in the Basic Multilingual Plane, so the two agree on what is stripped.
- The `readSettings` call before the lock (src/listeners/mentionSpamExceeded.ts:11-15) is not modelled as a call that can fail. The threshold, the counters and the translator are inputs of the run.
- Translations are not modelled. The translator is an opaque function from a language key and its arguments to a string.
- The mention-spam case is recorded as the fields the listener passes. Case ids and the moderation manager's own bookkeeping are not part of this model.
- The lock is modelled as a depth counter with acquire and release records. `moderation.createLock()` (src/listeners/mentionSpamExceeded.ts:18) returns at once and never makes a run wait, so two runs can interleave at their awaits (lines 20, 23 and 29). Interleaving is concurrency and is not modelled.
- EnforceAll: models runs that do not overlap, each finishing before the next starts. The source's lock does not enforce this, and the cases of overlapping runs may be filed in an order other than arrival order.
- Error values are opaque strings, and the Discord and database clients are not modelled. Their calls are effects with a chosen outcome.
- Starboard rows are keyed by guild and message id. The database query could in principle return several rows for one key, and then the listener would delete only the first row's star message. Message ids are globally unique, so the model keeps at most one row per key.
- The eviction from the in-memory starboard cache is modelled as removing one map entry. Any other behaviour of the starboard manager is not part of this model.
- A rejected case creation propagates out of the mention-spam listener: the code has no `catch` around it, and the lock is still released in `finally`.
- The starboard listener reads the channel setting before it checks whether the row has a star message id.
- A second starboard run for the same event issues the delete query again; that query deletes no row.
