# kurenai: blocklist, sticky message and refresh logic in Dafny

kurenai is a Discord moderation bot. This project models the logic underneath its
serenity, tokio, curl and filesystem plumbing, and proves properties of it. There are
three pieces.

- **The phishing blocklist** (`Blocklist`, with string primitives in `Text`).
  - `PhishingProtect` holds the set of bad links.
  - `PhishingProtect.Load` reads the list file line by line. Unreadable lines are
    skipped. Every other line is trimmed, and a line that is not blank is stored
    lowercased.
  - The new set replaces the old one. When the file cannot be opened, the old set
    stays.
  - A message is flagged when one of its whitespace-separated words, lowercased, is
    in the set.
- **The sticky message of the help channel** (`Sticky`).
  - `StickyState` holds the id of the sticky the bot last posted, and the author of
    the last help-channel message that was neither from a bot nor flagged.
  - It changes in three locked blocks: the handler's hand-off on a message from a new
    author, the worker's check for a channel that has been quiet for 120 seconds, and
    the worker's recording of a post that went through.
  - Each block is one method of the `StickyState` class, proved against a pure step
    function.
  - Any interleaving of these blocks is a run of `Event`s. Over every run, each sticky
    the bot takes for deletion is one it posted, and it is taken no more often than it
    was posted.
  - With a single worker, which records a post only after the tick that requested it
    with only hand-offs in between, each posted sticky is taken for deletion or is
    still tracked.
- **The message handler and the daily refresh** (`Handler`, `Refresher`).
  - The handler's decision is a function from the message, the list and the sticky
    state to the effects and the new state. The method applying it to the shared
    objects is proved against that function.
  - A daily attempt reloads the list only when `curl` exited successfully and the
    rename of the `.tmp` file worked. The list is always the one loaded by the last
    successful attempt, or the starting list when none succeeded.
  - `curl` runs with `-L -o` and without `-f`, so an HTTP error response still exits
    successfully. Its body is then loaded as the list, and the model allows this,
    because the file's lines are arbitrary.

Conventions:
- Whitespace is exactly Rust's `char::is_whitespace`.
- Lowercasing covers ASCII letters only.
- Discord ids are natural numbers and timestamps are integer Unix seconds.
- I/O results (the lines of the file, whether a post went through, the newest message
  of the channel, the current time) are parameters.

The code does no link normalisation. Each word is lowercased and looked up as it
stands, so `http://a.com/path` and `a.com,` do not match the entry `a.com`
(`Blocklist.EmbeddedEntryNotMatched`).

## Model

| member | source | states |
|---|---|---|
| Text.LowerChar | src/main.rs:45 | lowercasing one character yields no ASCII capital, keeps whitespace status, and leaves non-capitals unchanged |
| Text.LowerCharCaseless | src/main.rs:45 | two characters lowercase alike exactly when they are equal or are the capital and small form of the same ASCII letter |
| Text.ToLower | src/main.rs:45 | `to_lowercase` keeps the length of the string |
| Text.ToLowerAt | src/main.rs:45 | `to_lowercase` lowercases each character in place |
| Text.ToLowerIdempotent | src/main.rs:45 | lowercasing twice equals lowercasing once |
| Text.ToLowerOfLowercase | src/main.rs:45 | a string without ASCII capitals is its own lowercase form |
| Text.TrimStart | src/main.rs:43 | `trim_start` result is no longer than the input and does not start with whitespace |
| Text.TrimEnd | src/main.rs:43 | `trim_end` result is a prefix of the input that does not end with whitespace |
| Text.TrimStartCuts | src/main.rs:43 | what `trim_start` keeps is a suffix of the input, and every character it drops is whitespace |
| Text.TrimEndCuts | src/main.rs:43 | every character `trim_end` drops is whitespace |
| Text.Trim | src/main.rs:43 | `trim` result neither starts nor ends with whitespace and is no longer than the input |
| Text.TrimCutsWhitespace | src/main.rs:43 | `trim` result is an infix of the input, and everything cut off on both sides is whitespace |
| Text.TrimOfTrimmed | src/main.rs:43 | trimming an already trimmed string changes nothing |
| Text.ToLowerKeepsTrimmed | src/main.rs:43-45 | lowercasing a trimmed string leaves it trimmed |
| Text.NormalizedIsFixed | src/main.rs:43-45 | a trimmed, lowercased line is a fixed point of both trim and lowercase, with the trimmed length |
| Text.WordLen | src/main.rs:150 | the leading word ends at the first whitespace or at the end of the string |
| Text.WordLenUnique | src/main.rs:150 | any index meeting that description is the leading word's length |
| Text.Words | src/main.rs:150 | every word `split_whitespace` yields is non-empty and contains no whitespace |
| Text.SingleWord | src/main.rs:150 | a non-empty string without whitespace splits into exactly itself |
| Text.WordsAroundSeparator | src/main.rs:150 | splitting `a`, one whitespace character, then `b` gives the words of `a` followed by the words of `b` |
| Text.WordLenOfLower | src/main.rs:150-151 | lowercasing keeps the length of the leading word |
| Text.ToLowerConcat | src/main.rs:45 | lowercasing a concatenation lowercases each part |
| Text.ToLowerSplit | src/main.rs:150-151 | lowercasing commutes with cutting a string at any index |
| Text.WordsOfLower | src/main.rs:150-151 | the words of the lowercased text are the lowercased words, same count, same order |
| Blocklist.ParseList | src/main.rs:40-47 | the set the loop builds has at most one entry per line |
| Blocklist.Loaded | src/main.rs:38-52 | an unopenable file keeps the list; an opened file gives a list of at most one entry per line, each non-empty, trimmed and lowercase |
| Blocklist.ParseListSnoc | src/main.rs:42-46 | reading one more line adds exactly that line's entry |
| Blocklist.EntryOfContributes | src/main.rs:42-46 | the entry a line adds is exactly the one it contributes: readable, not blank after trim, trimmed and lowercased |
| Blocklist.ContributedIsParsed | src/main.rs:42-46 | every readable non-blank line's trimmed, lowercased text ends up in the set |
| Blocklist.ParsedHasSource | src/main.rs:42-46 | every entry of the set comes from some readable, non-blank line |
| Blocklist.ParseListMembership | src/main.rs:40-47 | an entry is in the set iff some readable line trims to a non-blank text whose lowercase form is that entry |
| Blocklist.ParsedEntriesNormalized | src/main.rs:42-46 | every stored entry is non-empty and equals its own trimmed, lowercased form |
| Blocklist.ParseListConcat | src/main.rs:40-47 | the set loaded from two runs of lines is the union of their sets |
| Blocklist.ParseListOrderIrrelevant | src/main.rs:40-47 | swapping two blocks of lines does not change the loaded set |
| Blocklist.LoadReplacesWholesale | src/main.rs:38-52 | a successful load does not depend on the previous set, and loading the same file twice equals loading it once |
| Blocklist.CleanLineEntry | src/main.rs:43-46 | a trimmed, non-empty, lowercase line contributes exactly itself |
| Blocklist.TwoCleanLines | src/main.rs:42-46 | two trimmed, non-empty, lowercase lines load as exactly those two entries |
| Blocklist.PhishingProtect.constructor | src/main.rs:258-260 | the list starts empty |
| Blocklist.PhishingProtect.Load | src/main.rs:37-55 | the loop builds the set of the lines read so far, and the new list is that set; an unopenable file leaves the list as it was |
| Blocklist.AnyListed | src/main.rs:150-152 | the scan is true iff some word, lowercased, is a member of the list |
| Blocklist.AnyListedCons | src/main.rs:150-152 | the scan checks the first word, then the rest |
| Blocklist.AnyListedConcat | src/main.rs:150-152 | scanning two runs of words finds a listed word iff one of the runs has one |
| Blocklist.AnyListedThree | src/main.rs:150-152 | worked example of `AnyListedCons`: scanning three words finds a listed word iff one of the three, lowercased, is listed |
| Blocklist.IsPhishing | src/main.rs:148-153 | a message is flagged iff some whitespace-separated word, lowercased, is in the list; an empty list flags nothing |
| Blocklist.SingleWordFlagged | src/main.rs:148-153 | a one-word message is flagged iff its lowercase form is listed |
| Blocklist.FlaggedIffSomePart | src/main.rs:148-153 | two parts joined by whitespace are flagged iff one of the parts is |
| Blocklist.CaseInsensitive | src/main.rs:148-153 | lowercasing the message never changes whether it is flagged |
| Blocklist.EmbeddedEntryNotMatched | src/main.rs:150-152 | a word strictly containing a listed entry (a scheme, a path, trailing punctuation) is not flagged by that entry |
| Blocklist.ThreeWordsSplit | src/main.rs:150 | worked example of `WordsAroundSeparator`: three non-blank words joined by single spaces split back into those three words |
| Blocklist.ThreeWords | src/main.rs:148-153 | worked example of `FlaggedIffSomePart`: a three-word message is flagged iff one of its words, lowercased, is listed |
| Sticky.OnMessage | src/main.rs:190-203 | a previous author who differs gives the tracked sticky up for deletion and clears it, otherwise nothing is deleted and the sticky stays; the author is always recorded |
| Sticky.OnTick | src/main.rs:93-110 | a post is requested iff the newest message is at least 120 s old and is not the tracked sticky; then the old id goes for deletion and is cleared; otherwise nothing changes |
| Sticky.OnPosted | src/main.rs:116-120 | a post that went through makes its id the tracked sticky; a failed post changes nothing |
| Sticky.QuietBoundary | src/main.rs:104 | the 120 s bound is inclusive: exactly 120 s reposts, 119 s does not |
| Sticky.OwnStickyIsLeftAlone | src/main.rs:104-120 | after posting a sticky, a tick whose newest message is that sticky requests nothing and changes nothing |
| Sticky.FailedPostTracksNothing | src/main.rs:104-120 | after a requested post fails, no sticky is tracked |
| Sticky.StepIsCovered | src/main.rs:93-203 | one event takes for deletion or keeps tracking an id only when it was tracked before or is what the event posted |
| Sticky.DeletionsArePostedStickies | src/main.rs:93-203 | over any interleaving, per id, deletions plus still tracked is at most tracked at the start plus times posted |
| Sticky.DeletesOnlyPostedStickies | src/main.rs:93-203 | from start-up, every sticky taken for deletion was posted by the bot, and none is taken more often than posted |
| Sticky.Step | src/main.rs:93-203 | an event takes only the tracked sticky for deletion and then clears it; only a hand-off changes the author, to its own; the tracked id changes only to none or to a posted id |
| Sticky.Run | src/main.rs:93-203 | a run takes at most one sticky for deletion per event, and without hand-offs the author stays |
| Sticky.StepIsExact | src/main.rs:93-203 | an event whose post meets an untracked sticky accounts exactly for the ids it takes for deletion, tracks and posts |
| Sticky.UntrackedAfter | src/main.rs:102-120 | after a tick that requests a post, and any hand-offs after it, no sticky is tracked |
| Sticky.OrderGivesProtocol | src/main.rs:93-203 | in one worker's order (each recording follows its requesting tick, with only hand-offs between), every recording meets an untracked sticky |
| Sticky.ExactUnderProtocol | src/main.rs:93-203 | when every recording meets an untracked sticky, per id, times taken for deletion plus still tracked equal tracked at the start plus times posted |
| Sticky.NoStickyOrphaned | src/main.rs:93-203 | in one worker's order, per id, times taken for deletion plus still tracked equal tracked at the start plus times posted: every posted sticky is taken for deletion or still tracked |
| Sticky.TwoWorkersOrphanSticky | src/main.rs:211-220 | two workers that both tick on a quiet channel and both post leave the first sticky neither taken for deletion nor tracked |
| Sticky.StickyState.constructor | src/main.rs:263-266 | both fields start empty |
| Sticky.StickyState.HandOff | src/main.rs:192-203 | the handler's locked block returns and stores exactly what `OnMessage` decides |
| Sticky.StickyState.CheckQuiet | src/main.rs:97-110 | the worker's first locked block returns and stores exactly what `OnTick` decides |
| Sticky.StickyState.RecordPost | src/main.rs:116-120 | the worker's second locked block stores exactly what `OnPosted` decides |
| Handler.StickyEvent | src/main.rs:138-190 | the event `Decide` is proved to follow (see `DecideFollowsStickyEvent`): a hand-off by the author for a message that is not from a bot, not flagged and in the help channel; its ensures only spell out that definition |
| Handler.Decide | src/main.rs:138-208 | bot messages change nothing; a flagged message is deleted and changes nothing else; deletion of the message happens iff it is flagged; other channels leave the state alone; a deleted sticky is the tracked one and is cleared, and a cleared sticky is deleted; a sticky is deleted iff the message reaches the hand-off and a different previous author and a tracked sticky exist; in the help channel the author is recorded |
| Handler.DecideFollowsStickyEvent | src/main.rs:138-208 | the handler changes the sticky state and deletes stickies exactly as its sticky event does, so the interleaving lemmas cover it |
| Handler.HandleMessage | src/main.rs:138-208 | applying the handler to the shared objects yields exactly the effects and state of `Decide` |
| Refresher.Refreshed | src/main.rs:239-250 | the list changes only when curl succeeded, the rename worked and the file opened, and then it is the file's parsed list |
| Refresher.RefreshAll | src/main.rs:227-251 | after a run of attempts the list is the starting one or the one parsed from some successful attempt |
| Refresher.NoSuccessKeepsList | src/main.rs:227-251 | with no successful attempt, the list is the one held at the start |
| Refresher.ListIsLastSuccess | src/main.rs:227-251 | the list is the one parsed from the last successful attempt |
| Refresher.DailyDownload | src/main.rs:228-250 | one iteration changes the list as `Refreshed` says |
| Refresher.StartDailyDownload | src/main.rs:223-252 | the loop over successive attempts leaves the list that `RefreshAll` gives |

## Left out

- Discord I/O: the serenity gateway and its HTTP calls (`messages`, `delete_message`, `say`, `reply`, `react`) are left out, and so are `ready` and `main`. Their results are parameters: the newest message, whether a post went through and with which id. The deletions the code requests are effects or returned ids.
- The warning reply after a flagged message is deleted is not modelled. It is folded into the `DeleteFlagged` effect, because it uses randomly chosen emojis and only happens after a delete that succeeds.
- `should_show`, `rng_range`, the 0.0001 and 0.001 rates and the emoji lists are left out. These are randomness, floating point and cosmetic output, and they do not affect the blocklist or the sticky state.
- The `curl` subprocess, `fs::rename`, `File::open` and `BufReader::lines` are left out. Each appears only as its outcome: a `CurlStatus`, a rename flag, an unopenable file, or a finite sequence of lines, some of which are unreadable.
- Blocklist.PhishingProtect.Load: a file whose reads fail forever is not modelled. `reader.lines().filter_map(Result::ok)` keeps skipping errors and never ends on such a file, for instance a directory opened under the list's name, where every read fails. `load` then never returns, and at start-up the client is never started. The model treats every opened file as a finite sequence of lines, so `Load` always returns.
- `RwLock`, `Mutex`, `Arc` and the tokio intervals are left out. Each locked block is one atomic method. Concurrency is captured only as arbitrary interleavings of those blocks, written as `Event` sequences.
- The endless `loop`s of the worker and of the daily download are modelled as finite sequences of ticks and attempts. The 10-second and 86400-second timers and `MissedTickBehavior::Delay` are not modelled.
- `Timestamp::now()` is a parameter. The worker's fetch errors and empty fetches change nothing, as in the code.
- Text.LowerChar: lowercases ASCII letters only, because full Unicode `to_lowercase` depends on the Unicode case tables, which are not part of this model. It can also change the length of a string, and that is not modelled either.
- Sticky.NoStickyOrphaned: assumes a single worker. `ready` (src/main.rs:211-220) spawns a new worker each time it runs, with no guard, so a second gateway session starts a second worker. Two workers can both tick on a quiet channel and both post; the second recording overwrites the first, and the first sticky stays in the channel untracked (`TwoWorkersOrphanSticky`). `DeletionsArePostedStickies` still holds then.
- Sticky.NoStickyOrphaned: "taken for deletion" is not "deleted". The result of `delete_message` is discarded (src/main.rs:113 and src/main.rs:206), so a failed delete leaves that sticky in the channel, untracked. The model does not track whether a deletion succeeded.
- Sticky.OnTick: timestamps are unbounded integers, so the `i64` subtraction of Unix timestamps is not modelled as able to overflow.
- Logging (`println!`, `eprintln!`) and `shrink_to_fit` are left out. They do not change any modelled state.
