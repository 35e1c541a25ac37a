# Verified models of Zed's background protocols and text algorithms

This project models, in Dafny, the parts of this Zed tree where several steps, two
processes or two programs have to agree with one another, and proves that they do (or
says exactly when they do not). `dafny verify dfyconfig.toml` checks everything.

| module | models |
|---|---|
| `Guild` | the Guild board's stale sweep (nudge, reset, clear) and webhooks as steps of one issue, and what every history keeps |
| `GuildRules`, `GuildSafety`, `GuildProgress`, `GuildAfter` | what a sweep does, said of the issue's fields alone; when a clear is justified; that a silent assignee is cleared in time; what happens to a cleared issue |
| `GuildBoard` | the script's loops and handlers over the whole board, and many runs over many items |
| `Etw` | the ETW recorder: a parent and an elevated child over a first-in first-out socket, and the kernel recording between them |
| `Ranges` | sorting and merging the hunks and revealed ranges of a pending diff |
| `Slug`, `SlugSteps`, `Frontmatter`, `ShareLink` | skill names, the frontmatter scan and the share-link codec |
| `Magnets`, `MagnetOrder`, `MagnetEntries`, `MagnetText`, `Sorting` | the duplicate-magnet tracking issue: its printer and the order it prints in, its parser on any body, the Python string operations and the stable sort they use |
| `Selection`, `SelectionQuotas` | the search-candidate selector with a quota per retrieval channel; the quotas are guaranteed exactly from a limit of 6 up, and both callers (`script/github-check-new-issue-for-duplicates.py:852-853`) are above it |
| `TriageSync`, `TriageRules`, `TriageWindow` | the weekly-triage project as a view of its issues; the second-line queue's window and its reconciliation |
| `Patches`, `Locators` | composing the edits between two texts with those to a third; locators that always leave room between two others |
| `ThreadUpgrade`, `Terminal` | the 0.1.0 thread upgrade; truncation of terminal output |
| `Utf8`, `Seqs`, `Wrappers` | section 3 of RFC 3629, and helpers |

A loop or an object that changes step by step is a method or a class with the same loops
and fields, proved equal to a function; the properties are then lemmas about the function.
The two protocols are state machines over events, and their main results are about every
run from the initial state. The script or process whose code makes the steps is also there
as a class (`GuildBoard.Board`, `Etw.Recorder`) whose methods are proved to take those steps.

Assumptions of the protocol models:

- Guild: one sweep of one issue is atomic; the runner's clock, read once per sweep, is not
  ahead of the instant at which the sweep touches an issue; event instants strictly
  increase; the cohort is fixed; only the bot posts the check-in marker. Assignees may be listed
  in any order, with two exceptions: that a justified clear is named (one half of
  `GuildSafety.ClearIsSafeIff`) needs each new assignee listed last, and the progress results need
  no guild member listed before the silent one.
- ETW: control-manager calls, socket writes and reads each succeed or fail freely; a write
  reported as failed may still arrive; the dropped reader of the first status may have
  buffered any number of the statuses after it; one recording session.

Where the code does not do what it is said to do:

- `script/github-guild-board.py:618` watches only the first guild assignee but counts any
  check-in on the issue, whoever it addressed. With two guild assignees someone who was
  never nudged, and spoke 8 days ago, can be cleared (`GuildSafety.TwoGuildAssigneesBreakTheGrace`). The
  check the code lacks is whether that check-in names the assignee (`GuildSafety.ClearIsSafeIff`).
- `crates/etw_tracing/etw_tracing.rs:203` drops a buffered reader, and with it any status
  it had already read: a timed-out or failed recording can end unreported (`Etw.TimedOutCanBeLost`,
  `Etw.ErrorCanBeLost`). `Etw.CanBeLostIff` says which statuses, `Etw.ReadCanLoseIff` in which states.
- `crates/etw_tracing/etw_tracing.rs:614` waits without a limit for the child to connect. If COM
  initialisation or the connection fails in the child, the parent waits for ever and the user is
  told nothing; `Etw.ParentIsStuckIff` says that these are the only ways for it to be stuck there.
- `script/github-find-top-duplicated-bugs.py:151-152` states the printer-parser contract
  without a condition. A label that is just `area:` gives an empty area name, which the parser does
  not read back (`Magnets.BareLabelIsNotRecovered`); `Magnets.RoundTripIff` gives the exact condition.
- `script/triage_project_sync.py:415` explains "Awaiting user" as "no non-staff reply
  since". A reply is hidden when a short staff comment ends the thread after it
  (`TriageSync.ReplyHiddenByShortComment`);
  `TriageSync.AwaitingThoughRepliedIff` gives the exact condition.
- `script/triage_project_sync.py:13-15,36-37` calls the project a derived view of the
  issue. A closed issue keeps the "Stale since" it had while open (`TriageSync.ClosedKeepsStaleSince`);
  `TriageSync.StaleSinceIsCurrentIff` gives the exact condition over histories.
- `crates/agent/src/legacy_thread.rs:100` overwrites whatever tool results the message
  before a merged one has; `ThreadUpgrade.ResultsSurviveIff` gives the exact condition.

## Model

| member | source | states |
|---|---|---|
| Guild.LastActivityIsLatest | script/github-guild-board.py:172-186 | silence is measured from the latest of all the assignee's assignments and ordinary comments; there is none exactly when they were never assigned |
| GuildRules.SweepDoes | script/github-guild-board.py:595-660 | on the issue's own fields: a sweep posts one check-in, to the first guild assignee, exactly after 14 days of silence with no check-in since; clears exactly when one has come since and is 7 days old; and otherwise leaves the item as it is |
| GuildRules.SparedIsUntouched | script/github-guild-board.py:596-615 | an issue that is held, has a closing pull request, is archived, is no issue, is not in progress or has no guild assignee is left as it is |
| GuildRules.HeldIsLeftAlone | script/github-guild-board.py:609-615 | over any history, from being held (or having a closing pull request) until that ends no sweep changes the issue |
| GuildRules.EveryEngagementCounts | script/github-guild-board.py:620-634 | every assignment and every comment in the history of an issue counts as an engagement of its author |
| GuildRules.WebhooksMove | script/github-guild-board.py:436-516 | webhooks change the status only, for guild members only, and not for closed issues or the bot: into progress, or out of it into the column of the type |
| Guild.NudgesNeverStack | script/github-guild-board.py:620-650 | over any history, between two check-ins the one addressed by the second engaged, after the first and at least 14 days before the second |
| GuildSafety.ClearIsSafe | script/github-guild-board.py:617-657 | after any history with at most one guild assignee at a time, whoever a sweep takes off had a check-in in their name, 7 days old or more, posted 14 days or more after the last thing they ever did, hence 21 days of silence |
| GuildSafety.NamedClearIsSafe | script/github-guild-board.py:617-657 | in whatever order the assignees are listed, a clear is justified in that sense if the latest check-in names the one it clears |
| GuildSafety.ClearIsSafeIff | script/github-guild-board.py:617-657 | if each new assignee is listed last, a clear is justified in that sense exactly when the latest check-in, the one the sweep went by, names the one it clears |
| GuildSafety.TwoGuildAssigneesBreakTheGrace | script/github-guild-board.py:604-657 | a concrete history with two guild assignees in which a sweep clears someone active less than 9 days ago |
| Guild.ClearTakesOnlyTheWatched | script/github-guild-board.py:605-657 | a clear takes off all guild assignees and nobody else, so only the watched one exactly when they are the only guild assignee |
| Guild.ClearMatchesUnassignment | script/github-guild-board.py:458-490 | for a sole guild assignee a clear comes to the same as an unassignment by hand with its webhook, and the bot's own webhook adds nothing |
| GuildAfter.ClearedIsLeftAlone | script/github-guild-board.py:657-660 | a cleared issue is back in the column of its type unless that is unknown, is otherwise unchanged, and through any later events every sweep skips it until a guild member is assigned |
| GuildProgress.ClearComesInTime | script/github-guild-board.py:591-675 | if the watched assignee is silent from t on, nothing holds the issue, and sweeps are at most d apart and act within lag, the assignment is cleared by t + 21 days + 2 (d + lag) |
| Guild.SweepNeverFails | script/github-guild-board.py:182-186 | on an issue with any history from creation on, the missing-assignment error is never raised |
| GuildBoard.Board.ScanComments | script/github-guild-board.py:625-634 | the one pass finds both the latest check-in and the assignee's last engagement |
| GuildBoard.Board.SweepItem | script/github-guild-board.py:596-675 | one item's sweep takes exactly the protocol step of that item, touches no other item, and changes nothing at all of an issue to be spared |
| GuildBoard.Board.RunStale | script/github-guild-board.py:591-677 | a run steps each item in turn and counts the issues it nudges and clears; the first item with no assignment event fails it, and what comes after is untouched; no issue to be spared is changed |
| GuildBoard.Board.HandleAssignment | script/github-guild-board.py:436-455 | an assignment webhook moves only its own item, and only for an open issue and a cohort member; it reports an issue that should be on the board and is not |
| GuildBoard.Board.HandleUnassignment | script/github-guild-board.py:458-490 | an unassignment webhook moves only its own item, and not for the bot, an outsider, an issue off the board, another column or an unknown type |
| GuildBoard.Board.SetLinkedIssuesInProgress | script/github-guild-board.py:494-516 | a cohort member's pull request moves exactly its open linked issues that are on the board to In Progress |
| GuildBoard.EveryItemGoesItsWay | script/github-guild-board.py:591-677 | on a board whose items all have a history, any mix of events and runs takes each item through its own events and sweeps as if it were alone |
| GuildBoard.NoRunFails | script/github-guild-board.py:182-186 | on such a board every run gets through all items |
| GuildBoard.HeldItemIsLeftAlone | script/github-guild-board.py:609-611 | whatever else happens on the board, no run touches an issue between its being put on hold and its release |
| GuildBoard.CountsAreReal | script/github-guild-board.py:649-677 | the counts a run reports are the numbers of issues with a new comment and of issues that lost assignees |
| GuildBoard.SilentItemIsCleared | script/github-guild-board.py:591-675 | on such a board every silent assignee is cleared by t + 21 days + 2 (d + lag), by a run over the whole board |
| GuildBoard.RunCompletesIff | script/github-guild-board.py:182-186 | on any board a run gets through all items exactly when every item it would sweep has an assignment event for its watched assignee |
| GuildBoard.UnbackedStarves | script/github-guild-board.py:182-186 | one watched item with no assignment event keeps itself and every item after it from ever being swept, through any runs and any events on other items |
| Etw.NothingLeaks | crates/etw_tracing/etw_tracing.rs:470-536 | in every run, once Start has succeeded an exited child's last control call is a successful Save or a Cancel; the kernel is left recording exactly when that Cancel failed |
| Etw.EveryChildEndsSo | crates/etw_tracing/etw_tracing.rs:441-536 | an exited child's whole log is one of a handful: never connected; failed before the recording; recording undone by a Cancel and an Error; or the call that answers what it read, and the report of its success |
| Etw.CommandIsObeyed | crates/etw_tracing/etw_tracing.rs:500-532 | in every run a Save command or a missing one leads to a Save call and a Cancel command to a Cancel and no Save; its success is the last call and is reported as Stopped, TimedOut or Cancelled |
| Etw.NoFailureNoError | crates/etw_tracing/etw_tracing.rs:441-536 | where no call fails the child exits in success and its report gets out; an Error comes only where some call failed |
| Etw.AskedAre | crates/etw_tracing/etw_tracing.rs:138-160 | what the user got onto the socket is the commands of the successful requests, in order |
| Etw.FirstRequestIsMet | crates/etw_tracing/etw_tracing.rs:500-532 | the first request, once read, is what the child does and reports, unless that call fails |
| Etw.StatusComesAfterSettling | crates/etw_tracing/etw_tracing.rs:502-536 | a terminal status, wherever it is now, was the child's last act: the recording was settled before it, and it says what the last control call and the command read were |
| Etw.ParentSeesOneStory | crates/etw_tracing/etw_tracing.rs:498-536 | the parent sees nothing, one Error, or Started and then at most one terminal status |
| Etw.FirstCommandRules | crates/etw_tracing/etw_tracing.rs:500-502 | the child obeys no command but the first the user got onto the socket |
| Etw.SavedIsReported | crates/etw_tracing/etw_tracing.rs:514-565 | a saved trace is reported as Stopped, or as TimedOut exactly when the command was missing or unreadable; never as Cancelled or Error |
| Etw.UserIsToldTheTruth | crates/etw_tracing/etw_tracing.rs:83-119 | the outcome the user is shown names the last control call, which succeeded, and the first request the user made |
| Etw.CanBeLostIff | crates/etw_tracing/etw_tracing.rs:203 | the statuses that some run loses with the first buffered reader are exactly TimedOut and Error, which answer no request of the user |
| Etw.TimedOutCanBeLost | crates/etw_tracing/etw_tracing.rs:203 | a run in which the report of a saved, timed-out recording is lost |
| Etw.ErrorCanBeLost | crates/etw_tracing/etw_tracing.rs:203 | a run in which the receive timeout cannot be set and the error report is lost |
| Etw.ReadCanLoseIff | crates/etw_tracing/etw_tracing.rs:203 | in any reachable state, reading Started can lose something exactly when the child has exited and its terminal status has got out |
| Etw.ParentIsStuckIff | crates/etw_tracing/etw_tracing.rs:614 | in any reachable state a parent waiting for the connection can do nothing, ever, exactly when COM initialisation or the connection has failed in the child |
| Etw.EveryRunFollowsTheCode | crates/etw_tracing/etw_tracing.rs:441-536 | an exited child has done, under any interleaving, what its code does under some outcomes of its calls |
| Etw.CodeSettles | crates/etw_tracing/etw_tracing.rs:470-536 | whatever its calls return, the code ends, with the recording settled and its statuses in order |
| Etw.Recorder.RecordEtwTrace | crates/etw_tracing/etw_tracing.rs:441-468 | the child's code makes exactly the calls of the state machine, its return value is the machine's exit, and it ends in one of the ways above |
| Etw.Recorder.RecordInner | crates/etw_tracing/etw_tracing.rs:470-536 | likewise from the first fallible call on; failure leaves just the error report to do |
| Etw.Recorder.WhileGuarded | crates/etw_tracing/etw_tracing.rs:490-534 | likewise while the cancel guard exists; what it adds is Started, the call that answers what was read, and the report of that call's success, which is exactly when the guard is aborted |
| Ranges.SortIsUnique | crates/acp_thread/src/diff.rs:358 | the sort is unstable but has only one possible outcome |
| Ranges.MergeIsLeast | crates/acp_thread/src/diff.rs:340-376 | the merge is sorted with strict gaps, contains every input, and is the finest such list |
| Ranges.MergeCoversTheSame | crates/acp_thread/src/diff.rs:360-375 | the merge covers exactly the half-open points the inputs cover |
| Ranges.MergeDependsOnTheSet | crates/acp_thread/src/diff.rs:340-376 | neither order nor repetition of the inputs matters |
| Ranges.MergeDependsOnThePoints | crates/acp_thread/src/diff.rs:340-376 | without empty inputs the covered points alone decide the merge |
| Ranges.EmptyRangeShows | crates/acp_thread/src/diff.rs:362-367 | with an empty input they do not: an empty range on its own is shown and covers nothing |
| Ranges.LoneIff | crates/acp_thread/src/diff.rs:360-375 | the empty members of a merge are exactly the empty inputs that no non-empty input touches |
| Ranges.SameMergeIff | crates/acp_thread/src/diff.rs:340-376 | whatever the inputs, two merges are the same exactly when they cover the same points and have the same lone empty inputs |
| Ranges.MergeIsIdempotent | crates/acp_thread/src/diff.rs:353-375 | merging merged ranges changes nothing |
| Ranges.MergeIsMonotone | crates/acp_thread/src/diff.rs:256-259 | with more inputs every old merged range lies inside a new one |
| Ranges.MergeAdjacent | crates/acp_thread/src/diff.rs:360-375 | the two nested loops compute the merge of a sorted list |
| Ranges.PendingDiff.ExcerptRanges | crates/acp_thread/src/diff.rs:340-376 | what is shown is the merge of the hunks and the revealed ranges |
| Ranges.PendingDiff.RevealRange | crates/acp_thread/src/diff.rs:256-259 | after a reveal the range and everything visible before are inside what is visible |
| Slug.SlugifySkillName | crates/agent_skills/agent_skills.rs:450-490 | the loop computes the slug said without a loop: words between separators, "&" a word "and", other characters dropped, lower case, joined with hyphens, cut to 64 |
| SlugSteps.SlugFollowsTheSteps | crates/agent_skills/agent_skills.rs:429-490 | the slug is what the seven documented steps give, one after the other |
| Slug.Condense | crates/agent_skills/agent_skills.rs:455-479 | the character loop builds that text up to a trailing hyphen, and its flag says whether a separator is waiting |
| Slug.ReplacingKeepsPieces | crates/agent_skills/agent_skills.rs:454 | replacing "&" by "-and-" first is the same as making it a word of its own |
| Slug.SlugAbsentIff | crates/agent_skills/agent_skills.rs:489 | there is no slug exactly when the input has no ASCII letter or digit and no "&" |
| Slug.SlugIsProper | crates/agent_skills/agent_skills.rs:480-527 | every slug passes the validator and has no doubled hyphen, truncated or not |
| Slug.FixedPointsAreTheSlugs | crates/agent_skills/agent_skills.rs:450-527 | a name is a fixed point of the slugifier exactly when it is valid without doubled hyphens, which is exactly when some input has it as its slug |
| Frontmatter.ScanCandidates | crates/agent_skills/agent_skills.rs:358-386 | the byte scan finds the ends of the closing lines, defined line by line |
| Frontmatter.ClosingEndsAreExact | crates/agent_skills/agent_skills.rs:350-386 | those are, in order, exactly the ends of whole lines after the first that are "---" before LF, CRLF or the end of input |
| Frontmatter.ClosesAtBytes | crates/agent_skills/agent_skills.rs:364-384 | said of the bytes: three hyphens after an LF, and then LF, CR LF or the end of input |
| Frontmatter.LastErrorIsLast | crates/agent_skills/agent_skills.rs:397-412 | the error kept is that of the last malformed attempt |
| Frontmatter.CandidatesCutCharacters | crates/agent_skills/agent_skills.rs:398-405 | every candidate cuts the left-trimmed text into two texts that make it up, so it is on a character boundary |
| Frontmatter.ExtractFrontmatter | crates/agent_skills/agent_skills.rs:343-413 | the result is the first candidate whose prefix YAML accepts, with the body after it; each error occurs exactly when it should, and the error kept is the last one |
| ShareLink.Decode64Encode64 | crates/agent_skills/agent_skills.rs:822-844 | base64url without padding (section 5 of RFC 4648) decodes back, for every byte string |
| ShareLink.Encode64Decode64 | crates/agent_skills/agent_skills.rs:842-844 | only the canonical encoding (section 3.5 of RFC 4648) of a byte string decodes |
| ShareLink.PayloadIsUnescaped | crates/agent_skills/agent_skills.rs:822-827 | the payload only has characters that a query pair leaves as they are |
| ShareLink.DigitsOfTheTable | crates/agent_skills/agent_skills.rs:822-827 | the digits are those of table 2 in section 5 of RFC 4648 |
| ShareLink.SextetsAreTheBits | crates/agent_skills/agent_skills.rs:822-827 | four sextets are the 24 bits of three bytes, most significant first |
| ShareLink.UnescapeEscape | crates/agent_skills/agent_skills.rs:825-841 | form decoding undoes form encoding, for every byte string |
| ShareLink.FirstPairWins | crates/agent_skills/agent_skills.rs:838-841 | the first pair with the key counts, whatever follows |
| ShareLink.OtherPairsArePassedOver | crates/agent_skills/agent_skills.rs:838-841 | pairs with other keys are passed over |
| ShareLink.ShareLinkRoundTrip | crates/agent_skills/agent_skills.rs:820-852 | a link gives its content back exactly when that is at most 100 KiB, and is refused as too large otherwise |
| ShareLink.DecodesExactly | crates/agent_skills/agent_skills.rs:832-852 | any link gives a content exactly if it is a zed://skill link that carries the bytes of that content, 100 KiB at most; each error occurs exactly when its check is the first to fail |
| ShareLink.LinksAreInjective | crates/agent_skills/agent_skills.rs:820-829 | different contents have different links |
| ShareLink.DecodedLinkIsCanonical | crates/agent_skills/agent_skills.rs:832-852 | any link that decodes carries the one payload of the content it decodes to |
| Utf8.DecodeEncode | crates/agent_skills/agent_skills.rs:850 | decoding undoes encoding, for every text |
| Utf8.EncodeDecode | crates/agent_skills/agent_skills.rs:850 | only the encoding of a text decodes to it |
| Utf8.BoundaryIff | crates/acp_thread/src/terminal.rs:567 | a position is a character boundary exactly when the bytes before and after it encode a prefix and the rest of the text |
| Utf8.BoundaryIsNear | crates/acp_thread/src/terminal.rs:567-569 | at most three steps lead back to a boundary |
| Magnets.RoundTrip | script/github-find-top-duplicated-bugs.py:148-178 | parsing the printed body gives back each magnet's number and count and the bag of its areas, "(unlabeled)" becoming none |
| Magnets.RoundTripIff | script/github-find-top-duplicated-bugs.py:148-178 | and does so exactly when every area name is trimmed, free of newlines and not empty |
| Magnets.BareLabelIsNotRecovered | script/github-find-top-duplicated-bugs.py:92-98 | a magnet whose labels include the bare "area:" does not survive printing and parsing, whatever else is printed |
| Magnets.OneBareLabel | script/github-find-top-duplicated-bugs.py:92-98 | the smallest such board: one issue, whose one label is "area:" |
| Magnets.PrintedPairsArePermuted | script/github-find-top-duplicated-bugs.py:154-177 | grouping and sorting lose and add nothing: one printed entry per label of each magnet |
| Magnets.EntryLineReadsBack | script/github-check-new-issue-for-duplicates.py:502-506 | the parser reads the count and the number back from a printed line |
| Magnets.ParseDescends | script/github-check-new-issue-for-duplicates.py:522 | the parser lists the most duplicated first, whatever the body |
| MagnetEntries.ParsedEntriesAreExact | script/github-check-new-issue-for-duplicates.py:490-520 | of any body the parser has one entry for each number on an entry line under a heading, with the count of the first such line and the headings of all of them, in order, but for "(unlabeled)" |
| MagnetOrder.PrintedInOrder | script/github-find-top-duplicated-bugs.py:154-177 | one heading for each area some magnet has, by the sum of its magnets' duplicates and then by first use; under each exactly its magnets, the most duplicated first |
| MagnetOrder.EntriesLineUp | script/github-find-top-duplicated-bugs.py:173-176 | below a hundred duplicates the URLs start in one column |
| Magnets.BuildMarkdownBody | script/github-find-top-duplicated-bugs.py:148-178 | the printing loops produce the body the theorems are about |
| Magnets.ParseDuplicateMagnets | script/github-check-new-issue-for-duplicates.py:475-524 | the parsing loop produces the entries the theorems are about; a missing body has none |
| Magnets.ExtractDuplicateInfo | script/github-find-top-duplicated-bugs.py:79-100 | an issue is a magnet exactly from two distinct closed duplicates on, counted without repetition, and always has an area |
| MagnetEntries.AreasAreNames | script/github-find-top-duplicated-bugs.py:91-98 | the areas are the names after "area:", in the order of the labels |
| Sorting.SortDescSorts | script/github-find-top-duplicated-bugs.py:167 | the sort is descending and a permutation |
| Sorting.SortDescIsStable | script/github-find-top-duplicated-bugs.py:166-167 | elements with equal keys keep their order |
| MagnetText.SplitJoin | script/github-check-new-issue-for-duplicates.py:492 | splitting at newlines undoes joining with them |
| MagnetText.ParseIntDec | script/github-check-new-issue-for-duplicates.py:503-504 | reading a printed number gives the number |
| Selection.QuotasFitIff | script/github-check-new-issue-for-duplicates.py:617-623 | the five floor-divided quotas fit in the limit exactly from 6 up |
| Selection.QuotasAreMet | script/github-check-new-issue-for-duplicates.py:630-633 | from limit 6 up every channel's first quota candidates are selected, whatever the input |
| Selection.GuaranteeIff | script/github-check-new-issue-for-duplicates.py:613-638 | for all inputs, exactly from limit 6 up |
| SelectionQuotas.QuotaIsExact | script/github-check-new-issue-for-duplicates.py:617-633 | from limit 6 up, the first n candidates of a channel are kept for every input exactly for n up to max(2, limit/3), max(1, limit/10), max(1, limit/6), max(1, limit/5) or max(1, limit/6), channel by channel |
| SelectionQuotas.ReservedComeFirst | script/github-check-new-issue-for-duplicates.py:617-636 | the selection begins with the reserved candidates in the order of the channels, each once, and goes on with the others in input order |
| Selection.SelectionIsFull | script/github-check-new-issue-for-duplicates.py:625-638 | keys never repeat, and the size is the smaller of the limit and the number of distinct keys |
| Selection.LeftoversKeepInputOrder | script/github-check-new-issue-for-duplicates.py:635-636 | from limit 6 up, places left after the quotas go in input order to candidates not yet taken |
| Selection.SelectSearchCandidates | script/github-check-new-issue-for-duplicates.py:613-638 | the loops compute the selection the theorems are about |
| TriageSync.StatusNamesTheStrongest | script/triage_project_sync.py:345-437 | an open issue's status speaks of its strongest recognised label, and is unknown exactly when it has none |
| TriageSync.WeakerLabelsDoNotMatter | script/triage_project_sync.py:376-432 | weaker labels added or left on never change the status |
| TriageRules.ReproducibleSplits | script/triage_project_sync.py:355-374 | an open, unclaimed, reproducible issue is Reproducible exactly if assigned, Handoff exactly if unassigned with a substantive staff comment, and Handoff (incomplete) exactly if unassigned without one |
| TriageRules.NeedsInfoSplits | script/triage_project_sync.py:381-416 | one that needs info needs an ask exactly without a substantive staff comment, and is replied to exactly if the thread ends with an outsider's comment later than the last of those |
| TriageRules.NeedsReproSplits | script/triage_project_sync.py:418-428 | one that needs a reproduction is responded to exactly if staff wrote something substantive after its creation and after all the reporter wrote |
| TriageRules.SubstantiveIff | script/triage_project_sync.py:300-326 | what counts as a substantive staff comment, said with "occurs in" |
| TriageRules.AnchorsAre | script/triage_project_sync.py:440-474 | each status is anchored at the creation, the reporter's last word, the ask or the reply, or not at all |
| TriageRules.AgedExactly | script/triage_project_sync.py:477-493 | aged is always while the loop is open, and otherwise after more than 7, 7, 14 or 3 days |
| TriageRules.IterationIsFirst | script/triage_project_sync.py:566-578 | the intake week is the first iteration whose days cover the creation, and none exactly if none does |
| TriageRules.IntakeFollowsCreation | script/triage_project_sync.py:775-781 | after any history of an issue its item shows that week, or what it showed before if there is none |
| TriageRules.OnlyTriageItems | script/triage_project_sync.py:711-728 | pull requests, Meta and Tracking issues are left alone, and every other issue gets an item |
| TriageSync.AnchorAbsentIff | script/triage_project_sync.py:440-474 | an issue's own status has no anchor exactly when it is resting or unknown |
| TriageSync.ReplyIsTheAnchor | script/triage_project_sync.py:462-468 | "User replied" is anchored at the reply that ends the thread, later than every ask; the fallback at 468 is never taken |
| TriageSync.AskIsTheAnchor | script/triage_project_sync.py:454-461 | "Awaiting user" is anchored at a substantive staff comment; the fallback at 461 is never taken |
| TriageSync.ReproAnchorSeparates | script/triage_project_sync.py:418-428 | the reporter's last activity separates the two repro statuses: no substantive staff comment after it, or one |
| TriageSync.RepliedOnlyIfLast | script/triage_project_sync.py:398-416 | once asked, the status is "User replied" exactly when the thread ends with a comment from outside staff, else "Awaiting user" |
| TriageSync.AwaitingThoughRepliedIff | script/triage_project_sync.py:412-416 | of any thread with an ask, the status is "Awaiting user" though somebody replied since exactly when a reply stands between the last ask and a staff comment that ends the thread |
| TriageSync.ReplyHiddenByShortComment | script/triage_project_sync.py:398-416 | a reply followed by a staff comment too short to count is reported as "Awaiting user" |
| TriageSync.AgedTurnsOnceInTime | script/triage_project_sync.py:477-493 | in a project that shows Aged?, for an unchanged issue it reads No after every sync up to anchor plus threshold, and Yes for good from a sync at most the sync gap later |
| TriageSync.AgedNeverReverts | script/triage_project_sync.py:477-493 | an unchanged issue once aged stays aged |
| TriageSync.FieldsFollowHistory | script/triage_project_sync.py:701-781 | after any sequence of syncs, in any project, each field is the last value derived that the project had an option for; Stale since is the last anchor there was |
| TriageSync.ViewIsCurrent | script/triage_project_sync.py:747-763 | in a project with every option, Status and Aged? are those of the last synced state |
| TriageSync.ResyncIsNoOp | script/triage_project_sync.py:701-781 | syncing the same state again changes nothing, whatever options the project lacks |
| TriageSync.StaleSinceIsCurrentIff | script/triage_project_sync.py:766-772 | after any history Stale since is that of the last synced state exactly when that state has an anchor, or none ever had and the field began empty |
| TriageSync.ClosedKeepsStaleSince | script/triage_project_sync.py:766-772 | an issue synced with an anchor, then closed and synced again, has no anchor but keeps the old day |
| TriageSync.NewIssueClosed | script/triage_project_sync.py:766-772 | a concrete history of that kind, from an empty item |
| TriageSync.ComputeStatus | script/triage_project_sync.py:345-437 | the cascade with its scan loops computes the status the theorems are about |
| TriageSync.FindLatestReporterActivity | script/triage_project_sync.py:329-336 | the scan computes the reporter's latest activity |
| TriageSync.ProjectItem.SyncIssue | script/triage_project_sync.py:701-781 | one sync updates the item's fields as the theorems say; a dry run, a pull request or an administrative type changes nothing |
| TriageWindow.EndIsTwoBusinessDaysBack | script/github-triage-queue-board.py:87-100 | for every date the window ends on the second business day before it, walking day by day, a weekend counting as its Friday |
| TriageWindow.StartIsPriorThursday | script/github-triage-queue-board.py:94-96 | and starts on the last Thursday before the week's Monday, no later than its end |
| TriageWindow.WindowNeverMovesBack | script/github-triage-queue-board.py:87-100 | neither edge ever moves backwards |
| TriageWindow.EligibleStretch | script/github-triage-queue-board.py:87-100 | every creation day is eligible on one unbroken stretch of days, which begins with a business day |
| TriageWindow.SyncedIssues | script/github-triage-queue-board.py:187-201 | after a sync the issues on the board are exactly the eligible ones |
| TriageWindow.OthersStay | script/github-triage-queue-board.py:173-201 | drafts and pull requests stay, in order, and so do the very items of the issues still eligible; those of all other issues go |
| TriageWindow.SyncIsIdempotent | script/github-triage-queue-board.py:187-201 | a second pass changes nothing |
| TriageWindow.OnBoardIff | script/github-triage-queue-board.py:182-201 | after a day's sync, whatever the board held before, an issue is on it exactly if it is open and the day lies in the stretch of its creation day |
| TriageWindow.ProjectBoard.SyncProject | script/github-triage-queue-board.py:182-201 | the two loops produce that board, keeping the order and identity of what stays; a dry run changes nothing |
| Patches.Compose | crates/text/src/patch.rs:88-207 | the loop composes any two patches: the result has no empty edit, unchanged text parts its edits, and it takes every position where the two patches in turn take it, or nowhere if either replaces it |
| Patches.ImageDecides | crates/text/src/patch.rs:21-34 | patches without empty or touching edits that take every position to the same place are the same patch |
| Patches.ComposingAssociates | crates/text/src/patch.rs:88-207 | composing three patches comes to the same patch in either order |
| Patches.PushMeans | crates/text/src/patch.rs:52-70 | a push, merged into the last edit or not, removes its own text and shifts what follows |
| Locators.BetweenIff | crates/text/src/locator.rs:52-65 | what is found between two locators lies strictly between them exactly when the upper one is not the lower one followed only by zeros |
| Locators.AlwaysRoom | crates/text/src/locator.rs:52-65 | however locators are inserted between neighbours, starting from the least and the greatest, the next one is always strictly between |
| Locators.FindBetween | crates/text/src/locator.rs:52-65 | the loop over the padded digits finds that locator |
| Locators.TypingStaysShort | crates/text/src/locator.rs:57-58 | of locators made one after the other at the end the first is 0xFFFF, and 2 to the 47 of them have a single digit |
| ThreadUpgrade.ResultsSurviveIff | crates/agent/src/legacy_thread.rs:93-105 | all tool results survive, in order, exactly when no message directly before a merged one has results |
| ThreadUpgrade.OthersSurvive | crates/agent/src/legacy_thread.rs:93-105 | apart from tool results the output is the input without the merged messages, in order |
| ThreadUpgrade.FixedIff | crates/agent/src/legacy_thread.rs:93-105 | the upgrade changes nothing exactly when no later user message bears results |
| ThreadUpgrade.UpgradeSettlesIff | crates/agent/src/legacy_thread.rs:93-105 | it leaves no such message exactly when every run of them comes after the first message or one that is not a user's |
| ThreadUpgrade.UpgradeIsIdempotentIff | crates/agent/src/legacy_thread.rs:93-105 | and on exactly those threads it is idempotent |
| ThreadUpgrade.UpgradeConserves | crates/agent/src/legacy_thread.rs:93-105 | all of this holds where results directly follow an assistant message without any |
| ThreadUpgrade.TwoInARowLose | crates/agent/src/legacy_thread.rs:100 | of two result messages in a row the first one's results are lost |
| ThreadUpgrade.UpgradeThread | crates/agent/src/legacy_thread.rs:88-112 | the loop computes the fold and changes nothing else but the version |
| Terminal.TruncationIsUnique | crates/acp_thread/src/terminal.rs:557-576 | "the last line end below the last character boundary within the limit" leaves one truncation only |
| Terminal.TruncationIsText | crates/acp_thread/src/terminal.rs:557-576 | a truncation is valid text, a prefix within the limit, and shorter exactly when the limit was exceeded |
| Terminal.Terminal.TruncatedOutput | crates/acp_thread/src/terminal.rs:557-576 | the code produces that truncation and the original length, after at most 3 back-steps |
| Terminal.Terminal.CommandExited | crates/acp_thread/src/terminal.rs:476-497 | the output stored at the exit is the truncation of what was shown then, and the sandbox is released |
| Terminal.Terminal.CurrentOutput | crates/acp_thread/src/terminal.rs:537-555 | while running and after the exit the truncation is reported, flagged exactly when the original exceeded the limit |

## Left out

- Slack and console messages, retries, paging and failed API calls in the middle of a sweep or sync: plumbing. Page caps (20 labels, assignees or closing pull requests, 1000 search results) are not modelled either.
- `handle_comment`, `run_weekly` and `warn_about_extra_open_prs` (`script/github-guild-board.py`): they change no state the sweep reads.
- GuildSafety.ClearIsSafe: stated for issues with at most one guild assignee at a time, because it is false without; `GuildSafety.ClearIsSafeIff` covers the rest.
- More than one ETW session: the slot is checked before the save dialog is awaited (`crates/etw_tracing/etw_tracing.rs:166`), so at most one session in the parent is not claimed.
- Profile building in the ETW child is one fallible step, and COM initialisation, WPR calls and socket options are only their success or failure.
- Anchors, buffers and the multibuffer behind the diff: `Ranges` starts from resolved ranges with start at most end.
- The sort before the merge is a function of the list, not an in-place sort: `Ranges.SortIsUnique` shows any sort gives that list.
- The YAML parser is an oracle, the issue search of the triage queue is a filter on open issues, URLs are records of scheme, host and query pairs, and JSON is not modelled.
- Loading skills from directories, precedence between skill sources, and description validation: easy members.
- Non-ASCII digits, which Python's `int` also accepts; the printer never writes them.
- `rank_search_candidates`, `areas_match` and `filter_magnets_by_areas`: one expression each.
- Time zones and daylight saving at the edges of a day in `TriageWindow`; days are whole.
- Unparsable timestamps and manual edits of project fields in `TriageSync`.
- Thread versions other than 0.1.0, and the debug assertion at `crates/agent/src/legacy_thread.rs:98`, which stops debug builds on threads the release build upgrades.
- Patches are lists of edits over unbounded positions; the text they edit and the lookups in them (`old_to_new`, `edit_for_old_position`) are not modelled.
- Locators are digit lists without their small-vector storage.
- Exit status, line counts and the sandbox itself in `Terminal`; only whether the sandbox is held.
