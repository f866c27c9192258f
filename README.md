# Discord chat archiver — a Dafny model of its decision logic

`archive.py` is an interactive console that archives Discord conversations
to PDF. The operator either browses one server's channel list or searches
for a user and picks a chat shared with them. The chosen chats are exported
to HTML by DiscordChatExporter and converted to PDF by WeasyPrint. The PDFs
can then be uploaded to an archive channel or sent by direct message, and
after a user search the user can be removed from the chat.

This project models the deterministic rules under that plumbing and proves
what they promise:

| module | file | what it models |
|---|---|---|
| `Wrappers` | `wrappers.dfy` | `Option` |
| `Seqs` | `seqs.dfy` | order-preserving filter (list comprehensions) |
| `Text` | `text.dfy` | the Python string operations used: `isspace`, `strip`, ASCII `lower`, `in`, `split(',')`, `isdigit`, `str(n)`, `int(s)` |
| `Entities` | `entities.dfy` | categories, chats (text channel, thread, direct message), members, servers; read permission |
| `Sanitize` | `sanitize.dfy` | `sanitize_filename` |
| `Archival` | `archival.dfy` | artifact naming and the control flow of `archive_one_channel`; the batch loop of the browse path |
| `Ordering` | `ordering.dfy` | the sort key (category position, position, with +infinity) and the stable sort |
| `Listing` | `listing.dfy` | the browse list, its name filter, the grouped and numbered display, the number lookup; the mutual-chat list of the user-search path |
| `Prompting` | `prompting.dfy` | the re-prompting loop shape; a prompt that offers the choices "1".."N" |
| `MemberSearch` | `search.dfy` | member matching, de-duplication by id, the user pick |
| `MemberPick` | `memberpick.dfy` | the comma-separated choice of DM recipients |
| `Dispatch` | `dispatch.dfy` | the five post-selection actions and the ordered effects they cause |
| `Upload` | `upload.dfy` | the choice of upload server and channel, the permission gate, the upload loop |

External tools, the file system and the Discord client do not appear as
programs. Their outcomes are inputs:
- `ToolRun` gives the exporter's and converter's exit status and which files exist afterwards;
- `BotPermissions` and the `canSend`/`canAttach`/`readers` fields give the permissions;
- `removeOk` and `sent` say whether a Discord call raised.

The operator's answers are a finite sequence; one "round" function per prompt
says what a single answer does (`Reply.Again` to ask again, `Reply.Done` to decide).
Loops that build lists or maps in the source are methods with loop
invariants. Each is proved equal to a specification function, and the
properties are proved about those functions as lemmas.

## Model

| member | source | states |
|---|---|---|
| `Text.StripIsTrimmedSlice` | archive.py:45 | `strip()` returns a contiguous slice of its input with only whitespace removed before and after it |
| `Text.ParseIntDecimal` | archive.py:359 | `int(str(n)) == n` for every natural `n` |
| `Text.DecimalRoundTrip` | archive.py:198-200 | the decimal text of `n` is a digit string whose value is `n` |
| `Text.SplitJoin` | archive.py:210 | splitting at `,` and joining with `,` gives back the original answer |
| `Sanitize.ReplaceReserved` | archive.py:43 | each character is kept, or turned into `_` exactly when it is one of `\ / : * ? " < > \|`; so the length is kept and no reserved character remains |
| `Sanitize.CollapseClean` | archive.py:47 | after collapsing, no whitespace and no `__` remain, and no reserved character is introduced |
| `Sanitize.CollapseKeepsWords` | archive.py:47 | collapsing keeps every character that is neither whitespace nor `_`, in order |
| `Sanitize.CollapseSplit` | archive.py:47 | a run of whitespace and underscores between two words becomes exactly one `_`, and each side collapses on its own |
| `Sanitize.CollapseLast` | archive.py:47 | the collapsed text of a non-empty input ends with `_` when the input ends with whitespace or `_`, and otherwise with the input's last character |
| `Sanitize.CollapseHead` | archive.py:47 | the collapsed text of a non-empty input starts with `_` exactly when the input starts with whitespace or `_`, and otherwise with the input's first character |
| `Sanitize.Truncate` | archive.py:49 | the result is the input's prefix of length at most 200, and the whole input when it is short enough |
| `Sanitize.SanitizeIsClean` | archive.py:38-49 | a sanitized name has no reserved character, no whitespace, no two consecutive underscores, and at most 200 characters |
| `Sanitize.SanitizeFixedPoint` | archive.py:43-49 | a name that is already clean comes back unchanged |
| `Sanitize.SanitizeIdempotent` | archive.py:38-49 | sanitizing twice gives the same as sanitizing once |
| `Sanitize.SanitizeSplit` | archive.py:38-49 | a name of at most 200 characters without reserved characters, made of two words around a separator run, sanitizes to the two words sanitized on their own, joined by one `_` |
| `Sanitize.SanitizeJoinsWords` | archive.py:38-49 | two clean words around a separator run come out as the words joined by a single `_` ("My Chat" gives "My_Chat") |
| `Sanitize.LeadingDotKept` | archive.py:44-45 | a name that starts with a dot gives a sanitized name that starts with a dot: `strip()` removes only whitespace |
| `Sanitize.TrailingDotKept` | archive.py:44-49 | a name of at most 200 characters that ends with a dot gives a sanitized name that ends with a dot |
| `Sanitize.SanitizeKeepsWords` | archive.py:38-49 | the characters of the name that are neither reserved, whitespace nor `_` survive in order, up to the 200-character cut, and all of them when the name has at most 200 characters |
| `Sanitize.ReplacedWords` | archive.py:43 | after replacement, the characters that are neither whitespace nor `_` are exactly the unreserved ones of the name |
| `Archival.ExportBaseShape` | archive.py:88-93 | the export base `discord_export_<sanitized label>_<id>` contains no `/` and starts with `d` |
| `Archival.MediaDirIsSibling` | archive.py:93-133 | the media directory computed from the HTML path is `<dir>/<base>_attachments`, the same base as the HTML and PDF files |
| `Archival.ArchiveOneChannel` | archive.py:84-139 | the returned path and the ordered steps are those of the specification functions `ArchiveResult` and `ArchiveSteps` |
| `Archival.RunTools` | archive.py:102-137 | a PDF comes out exactly when the export left an HTML file and the conversion succeeded and wrote the PDF; the steps taken are `StepsFor` the given paths |
| `Archival.ExportFailureStops` | archive.py:100-105 | an exporter failure or a missing HTML file returns nothing, and the only step is the export: the converter never runs |
| `Archival.CleanupWhateverConversion` | archive.py:119-137 | after a successful export the conversion is the second step, and the stylesheet, HTML file and media directory are removed whatever the conversion did |
| `Archival.ResultIsPdfBesideHtml` | archive.py:93-124 | a path is returned exactly when export, HTML, conversion and PDF all succeeded; it is the HTML file's name up to its extension (as `os.path.splitext` of its basename gives it) with `.pdf`, in the same directory, and a different file from the HTML |
| `Archival.ExportTargets` | archive.py:518-522 | a selected text channel is archived first, followed by exactly its own threads that the bot can read; any other selection alone |
| `Archival.ExportTargetsOrder` | archive.py:518-522 | the threads follow the selection in the order the server lists them, and none appears twice when the server lists none twice |
| `Archival.ArchiveBatch` | archive.py:524-531 | the loop's kept paths and steps are the specification functions `Kept(Results(...))` and `BatchSteps` |
| `Archival.ArchiveNext` | archive.py:528-531 | one pass of the batch loop turns the kept paths and steps of the first `i` chats into those of the first `i + 1` |
| `Archival.BatchKeepsSuccesses` | archive.py:528-531 | the kept paths are exactly the successful chats' PDF paths, no more than one per chat |
| `Archival.BatchSkipsFailure` | archive.py:528-531 | a failed chat leaves the batch's result as if it had not been in the batch |
| `Archival.KeptConcat` | archive.py:524-531 | the paths kept from two runs one after the other are the first run's, then the second's |
| `Ordering.KeyOf` | archive.py:464-466 | the category component is finite exactly when the chat has a category, the position component exactly for a text channel |
| `Ordering.SortChatsSorted` | archive.py:461-467 | the sorted list is in key order |
| `Ordering.SortChatsPermutes` | archive.py:461-467 | the sort is a permutation |
| `Ordering.SortChatsStable` | archive.py:461-467 | the sort is stable: chats with equal keys keep their relative order |
| `Ordering.SortedUnchanged` | archive.py:461-467 | a list already in key order is left as it is |
| `Ordering.SortChatsIdempotent` | archive.py:461-467 | sorting twice is sorting once |
| `Listing.SelectableContents` | archive.py:461-467 | the browse list is sorted and holds exactly the server's text channels and threads that the bot can read |
| `Listing.BrowseList` | archive.py:461-471 | nothing is listed, and the flow returns to the menu, exactly when the server has no chat the bot can read; otherwise a non-empty sorted list of exactly the readable channels and threads |
| `Listing.FilterRound` | archive.py:492-506 | `q` in any case cancels; an empty answer keeps everything; a filter with no match asks again; otherwise a non-empty sublist of entries whose lowercased name contains it |
| `Listing.FilterKeepsAllMatches` | archive.py:499-500 | every entry whose name matches the filter is kept, and the kept list is the order-preserving filter |
| `Listing.DisplayEntry` | archive.py:477-488 | line `i` is numbered `first + i`, shows item `i`, and has a category header exactly when it opens a group |
| `Listing.ListGroup` | archive.py:475-488 | the rendering loop with its sentinel produces the specification `Display` |
| `Listing.BuildChannelTree` | archive.py:473-489 | entry `i` is numbered `i + 1`, and it gets a header exactly when it is first or its category id differs from the previous entry's |
| `Listing.OneHeaderPerCategory` | archive.py:478-484 | in a sorted list whose categories have distinct positions, no category header appears twice |
| `Listing.InterleavedCategoriesRepeatHeader` | archive.py:461-484 | two categories at the same position interleave after sorting, and a header is printed twice |
| `Listing.BrowseExample` | archive.py:461-516 | a worked server: list order, the headers shown, and which chat number 2 picks |
| `Listing.PromptChoices` | archive.py:510 | the prompt offers "1".."N" when there are at most ten entries, and no choice list otherwise |
| `Listing.AcceptedChoicesInRange` | archive.py:510-516 | with at most ten entries, every accepted answer reads as a number in 1..N |
| `Listing.LookupAsWritten` | archive.py:516 | Python indexing: numbers in 1..N give that entry, numbers in -N+1..0 count from the end, others raise |
| `Listing.ZeroPicksLastEntry` | archive.py:510-516 | with more than ten entries, the answer "0" is accepted and picks the last entry |
| `Listing.Lookup` | archive.py:516 | corrected lookup: an entry exactly for 1..N, and then entry `n - 1` |
| `Listing.LookupsAgreeOnShownNumbers` | archive.py:516 | both lookups agree on the numbers shown; only the as-written one answers 0 and negatives |
| `Listing.NumberRound` | archive.py:508-516 | up to ten entries it asks again exactly when the answer is not one of "1".."N"; beyond ten it never asks again: an empty answer goes back to the menu, a non-number or a number outside -N+1..N ends the session, and a picked chat is an entry of the list |
| `Listing.ShownNumberSelects` | archive.py:508-516 | for a list of any length, typing the number shown beside entry `k` picks entry `k` |
| `Listing.LongListExits` | archive.py:510-516 | beyond ten entries: every answer ends the round; "" goes back to the menu; a non-number and N+1 end the session; "0" picks the last entry |
| `Listing.BuildMutualList` | archive.py:309-347 | the flat list and its display are the DM (when one opens) followed by each server's sorted chats and grouped display |
| `Listing.AddServer` | archive.py:317-346 | one server's pass appends its mutual chats and their grouped display, numbered on from the list so far, turning the list of the first `i` servers into that of the first `i + 1` |
| `Listing.MutualNumbering` | archive.py:338-347 | numbering runs on across servers with no gap: the entry numbered `k` is flat element `k - 1`, and the DM is number 1 |
| `Listing.MutualChatsReadable` | archive.py:318-328 | a chat listed for a server belongs to that server, the user is its member, and both the user and the bot can read the chat |
| `Listing.GroupsReadable` | archive.py:318-347 | every server chat of the mutual list is readable by the user and the bot, and belongs to a server the user is in |
| `Listing.MutualPick` | archive.py:350-359 | an empty mutual list goes back to the menu without a prompt; otherwise an answer decides exactly when it is one of "1".."N", then picks a chat of the list, and the prompt never ends the session |
| `Listing.MutualPickShown` | archive.py:338-359 | typing the number shown beside an entry picks exactly that entry's chat |
| `Prompting.AskUntilDone` | archive.py:492-506 | the loop decides on the first answer whose round decides; it gives nothing only when every round asks again |
| `Prompting.ChoiceNumber` | archive.py:298-300 | an accepted pick is a number in 1..N whose decimal text is exactly the answer |
| `Prompting.ChoiceNumberAccepts` | archive.py:298-300 | every offered choice is accepted and names its own number |
| `MemberSearch.FindCandidates` | archive.py:283-289 | the loop over all members, with its map of seen ids, builds the candidate list `FirstMatches` |
| `MemberSearch.FirstMatchStep` | archive.py:286-287 | an entry is added exactly when it matches and its id was not among the earlier matches |
| `MemberSearch.CandidatesMatch` | archive.py:284-287 | every candidate is a member entry that matches the query |
| `MemberSearch.CandidateIds` | archive.py:283-289 | the candidates' ids are exactly the ids of all matching entries: no matching user is lost |
| `MemberSearch.CandidatesDistinct` | archive.py:286-289 | the candidates have pairwise distinct ids |
| `MemberSearch.DistinctMembersAllKept` | archive.py:283-289 | without repeated ids, the candidates are the matching members in order |
| `MemberSearch.SearchRound` | archive.py:272-302 | `q` goes back; an empty query or no match asks again; one candidate is taken; otherwise the offered number picks the candidate; a target always matches the query |
| `MemberSearch.ExampleMatches` | archive.py:285 | matching on the name, on the global name, and a non-match |
| `MemberSearch.SearchExample` | archive.py:283-301 | a user seen in two servers is listed once, and the answer "2" picks the second candidate |
| `MemberPick.NonBots` | archive.py:190-192 | the offered members are exactly the channel's non-bot members |
| `MemberPick.IndexMapKeys` | archive.py:196-200 | the keys of the number map are exactly "1".."N" |
| `MemberPick.IndexMapValue` | archive.py:197-200 | key "k" maps to the id of the k-th offered member |
| `MemberPick.BuildIndexMap` | archive.py:196-200 | the numbering loop builds the specification map |
| `MemberPick.LeadingZeroIsNoKey` | archive.py:200-219 | "01" is not a key, so it names nobody |
| `MemberPick.TokensAreDigitPieces` | archive.py:210 | every token is a digit string and is a comma piece with its whitespace stripped; and every comma piece that strips to digits becomes a token |
| `MemberPick.IdsForMembers` | archive.py:216-219 | an id is selected exactly when some token is a key that maps to it |
| `MemberPick.SelectIds` | archive.py:216-219 | the loop over the tokens builds the specification list of ids |
| `MemberPick.NamedExactly` | archive.py:216-225 | with distinct ids, member `k` is selected exactly when the number `k + 1` was typed |
| `MemberPick.SelectionIsNamed` | archive.py:225 | the selection is exactly the members whose numbers were typed, in channel order |
| `MemberPick.NamedDistinct` | archive.py:225 | no member is chosen twice |
| `MemberPick.PickRound` | archive.py:204-225 | the prompt skips exactly on an empty answer |
| `MemberPick.PickRoundMeaning` | archive.py:204-225 | a non-empty answer asks again exactly when it names no offered number; a decision is non-empty, drawn from the offered members, and with distinct ids is exactly the named members, each once |
| `MemberPick.ChooseRecipients` | archive.py:190-225 | the recipients come from the first answer whose round decides; earlier answers all asked again; with no answer deciding, nobody receives anything |
| `MemberPick.PickLoop` | archive.py:205-225 | over a non-empty candidate list, the loop stops at the first answer that decides and returns its recipients; every earlier answer asked again |
| `MemberPick.AnswerRound` | archive.py:205-225 | one pass of the loop, using the number map built once before it, answers as the round `PickRound` does |
| `MemberPick.ExampleTokens` | archive.py:210 | the answer "1, x, 3" gives the tokens "1" and "3" |
| `MemberPick.PickExample` | archive.py:196-225 | over three members with distinct ids, an answer whose tokens are "1" and "3" (such as "1, x, 3") selects the first and the third |
| `Dispatch.ParseAction` | archive.py:371-379 | on the line as typed: an empty line takes the default "3"; any other line is accepted exactly when, stripped, it is one of "1".."5", and then it names the action with that key; a line of spaces only is asked again |
| `Dispatch.Dispatch` | archive.py:386-433 | the effects are `DispatchTrace` of the action, the chat, the permissions, the archival's own result and the removal outcome |
| `Dispatch.Carry` | archive.py:394-433 | the step-by-step effects after archiving are `DispatchTrace` |
| `Dispatch.TraceIgnoresArchive` | archive.py:389-433 | actions "1" and "5" never depend on an archive result |
| `Dispatch.TraceIsOrdered` | archive.py:386-433 | effects always come in the order archive, PDF to user, removal, notice, upload, each at most once |
| `Dispatch.NothingAfterFailure` | archive.py:381-396 | choice "5" does nothing, and an archive failure leaves the failed archive as the only effect |
| `Dispatch.WhoGetsThePdf` | archive.py:389-433 | the PDF goes to the user exactly for "2" and "3" with a PDF; the upload flow runs exactly for "4" with a PDF; "1" and "5" archive nothing |
| `Dispatch.WhenRemovalHappens` | archive.py:408-429 | a thread removal exactly when the action reached this step and the bot manages threads; an overwrite removal exactly for a text channel with manage permissions; the notice exactly after a successful removal for "3" and "4" |
| `Dispatch.RemoveOnlyOnThread` | archive.py:408-418 | "remove user only" on a manageable thread removes the user and does nothing else |
| `Upload.FindFirst` | archive.py:154-168 | the shared lookup behind `get_guild`, `get_channel` and `discord.utils.get`: what it finds is in the list and passes the test, it is the first such element, and nothing is found exactly when no element passes |
| `Upload.ServerSettingSelects` | archive.py:151-155 | a configured id of a server the bot is in selects that server |
| `Upload.ServerSettingFallsBack` | archive.py:149-158 | an empty, non-numeric or unknown server id leaves the current server |
| `Upload.ChannelSettingSelects` | archive.py:160-164 | a configured channel id selects that channel, of any kind, and nothing if the server has none with that id |
| `Upload.BadChannelSettingSelectsNothing` | archive.py:161-166 | a non-numeric channel id selects nothing, with no fallback to `channel-archive` |
| `Upload.EmptyChannelSettingFindsArchive` | archive.py:167-168 | without a channel setting, the first text channel named `channel-archive`, if any |
| `Upload.NoServerNoUpload` | archive.py:149-170 | with no current server (a direct message) and no server setting, nothing is uploaded |
| `Upload.Destination` | archive.py:147-170 | there is a destination exactly when there are PDFs and a resolved channel where the bot may both send and attach files |
| `Upload.UploadAll` | archive.py:175-181 | one attempt per PDF, in order; the delivered list is `Delivered` of the outcomes |
| `Upload.DeliveredFacts` | archive.py:175-181 | only offered PDFs are delivered; all of them when every upload succeeds, none when every upload fails |

## Left out

- The Discord client is not modelled as an API: login, intents, member chunking, `create_dm`, `get_member`, sending, deleting, `remove_user` and `set_permissions`. Their results are inputs.
- The exporter and converter subprocesses, `run_command` (archive.py:59-82), temporary files and the real file system. `ToolRun` records their outcomes.
- `rich` rendering, meaning trees, panels, progress bars and colours. Only the numbers, headers and order of the lists are modelled.
- Environment loading, the token prompt and `LoginFailure` handling (archive.py:575-600). The session loop in `on_ready` (archive.py:556-572) and the mode menu (archive.py:537-554) only repeat or route.
- `Listing.NumberRound` keeps the lookup as written, since it models the prompt as the code runs it. `Listing.Lookup` is the corrected lookup, and `Listing.ShownNumberSelects` shows that the two agree on every number the display shows.
- The server menu of the browse path (archive.py:447-453) offers "1".."N" like the mutual-list prompt (`Listing.MutualPick`). It is not modelled separately.
- The unused constants `MAX_RETRIES` and `INITIAL_DELAY` (archive.py:34-35).
- Yes/no confirmations: upload, send DMs, delete, another export. A confirmation is represented by whether the step runs.
- The DM sending loop and its message text (archive.py:227-250).
- The channel deletion step (archive.py:254-263), which is a single client call behind a confirmation.
- Python's `lower()` and `isdigit()` are modelled for ASCII; Unicode case mapping and non-ASCII digits are not.
  - `Text.ParseInt` accepts surrounding whitespace, a sign and ASCII digits. Unlike `int()`, it does not accept underscores between digits or non-ASCII digits.
  - For the "1".."N" keys and ids the result is the same.
- `MemberSearch.SearchRound` models the prompt that refuses an answer outside its choices and asks again as one new round of the whole search.
- Rich's `Prompt.ask` strips the typed text before it checks the choices and before it returns it. `Dispatch.ParseAction` models this on the line as typed. The other prompt rounds do not do this stripping: in `Listing.FilterRound`, `Listing.NumberRound`, `Listing.MutualPick`, `Prompting.ChoiceNumber`, `MemberSearch.SearchRound` and `MemberPick.PickRound`, the answer stands for the text after Rich has stripped it. So " q" cancels and " 3" is accepted. Where these prompts have a default it is the empty answer (archive.py:205 and 274), so an answer of only spaces counts there as empty.
- `MemberPick.PickRound` is stated over the offered non-bot members. Which members a thread or channel exposes comes from the client.
- `Dispatch.Dispatch` records a PDF sent to the user and a posted notice as attempts; a failed DM or notice send only prints an error. `target_member` being absent from the server is not modelled.
- `Upload.Destination` stands for the permission gate before the confirmation. The upload itself is `Upload.UploadAll` over the confirmed list.
- The direct-message label uses the recipient's handle (`recipient.name`), as the code does, not a display name.

## Findings

| source | as written | input that shows it | evidently intended | confidence | as-written member | corrected member |
|---|---|---|---|---|---|---|
| archive.py:510-516 | With more than ten entries the prompt has no choice list, and the answer indexes `filtered_channels[int(choice_str) - 1]` unchecked | eleven or more entries and the answer "0": Python's index -1 picks the last entry instead of refusing | only the numbers 1..N shown beside the entries select a chat | not executed | `Listing.LookupAsWritten`, `Listing.ZeroPicksLastEntry`, `Listing.NumberRound`, `Listing.LongListExits` | `Listing.Lookup`, `Listing.LookupsAgreeOnShownNumbers` |
