# nodeseek-rss-bot in Dafny

nodeseek-rss-bot is a Telegram bot that watches one RSS feed. It fans each new post out
to the subscribers whose keywords match. A periodic check (`check_rss_and_send_to_users`)
reads the feed oldest entry first. It skips every link already recorded in the sent-posts
ledger and asks each subscriber's record whether the post should go out. It then sends the
post as MarkdownV2, retrying once as plain text when Telegram cannot parse the markup. Each
failure is meant to be classified: a migrated chat has its id rewritten; a user who blocked
the bot has notifications switched off; any other failure is ignored. The link is ledgered
after all subscribers were offered the post, and the subscriber store is written back only
if a record was corrected. That is the intended behaviour, and `RssBot.CheckRssAndSendToUsers`
models it. As written, the clause for blocked users makes every failure other than
BadRequest and ChatMigrated abort the whole check; `DispatchAsWritten` models that, and
Findings describes it. Private-chat commands maintain each user's record: a sorted list of
keywords matched case-insensitively, a notifications switch and a keyword-filter switch.

The model, one module per file:

| file | module | what it holds |
|---|---|---|
| `wrappers.dfy` | `Wrappers` | `Option` |
| `text.dfy` | `Text` | ASCII `lower()`, substring test, `strip()`, `" ".join`, the command-argument string |
| `numbers.dfy` | `Numbers` | `str(n)`, `str.isdigit()`, `int(s)` for ASCII digits |
| `ordering.dfy` | `Ordering` | Python's string order and `list.sort()` as insertion sort, with uniqueness of the sorted arrangement |
| `keywords.dfy` | `Keywords` | adding, deleting (by position or by name) and editing a keyword list |
| `subscribers.dfy` | `Subscribers` | the subscriber record, the store, `get_user_config_and_subscriptions` |
| `matching.dfy` | `Matching` | the match evaluator that decides whether a post goes to a subscriber |
| `dispatch.dfy` | `Dispatch` | the corrected check as functions over a `Cycle` state, and its invariants |
| `dispatch_as_written.dfy` | `DispatchAsWritten` | the check with the exception clause of line 192 as written (see Findings) |
| `commands.dfy` | `Commands` | every command handler as a function from the store to its effect |
| `bot.dfy` | `Bot` | class `RssBot` (ledger, ledger file, store, save counter) with the check and the commands as imperative methods |

The transport is a parameter `send: SendRequest -> SendOutcome`. It says, for each message
(chat, post, format), whether Telegram accepted it or which error it raised. The feed is a
parameter too: a parsed list of entries, newest first, or a parse failure. The order in
which the store's records are visited is a parameter of the check. The store is written
through `RssBot.Save`, which counts the writes. The ledger file is kept as the sequence of
its lines, and each ledgered link is appended as one line. That matches the program only for
links without a line break inside: the program writes the link and a line break, and reads
the file back split at every line break, so a link containing one reloads as several entries.

## Model

| member | source | states |
|---|---|---|
| Text.Lower | bot.py:163 | ASCII lower-casing; `LowerIdempotent` shows that folding twice is folding once |
| Text.Contains | bot.py:163 | Python's `in` on strings; `ContainsIffOccurs` characterises it as an occurrence at some position |
| Text.JoinSpaced | bot.py:219 | `" ".join(parts)`: the parts in order with a single space between neighbours; `JoinSpacedAllSpace` shows the result is blank exactly when every part is |
| Text.CommandArgs | bot.py:217-219 | words as `str.split()` yields them (non-empty, no whitespace at their ends) come back joined by single spaces (`JoinSpaced`); for any arguments the result is empty exactly when every argument is all whitespace, and a non-empty result has no whitespace at either end; a single already-trimmed argument comes back unchanged |
| Text.Strip | bot.py:97 | `strip()` returns the slice that starts after the leading whitespace; it is empty exactly when the text is all whitespace, and otherwise starts and ends on non-whitespace |
| Text.ContainsIffOccurs | bot.py:163 | the substring test holds exactly when the needle occurs at some position of the haystack |
| Numbers.IntToString | bot.py:224 | `str(n)`; `IntToStringRoundTrip` shows that `int()` reads it back |
| Numbers.IntToStringRoundTrip | bot.py:224 | `int(str(n)) == n` for every integer, negative ones included |
| Numbers.UserKeyInjective | bot.py:224 | distinct user ids give distinct store keys |
| Numbers.IsDigitString | bot.py:331 | `str.isdigit()`: non-empty and made of the ASCII digits `0`-`9` only; `DeleteKeyword` uses it to choose between position and name |
| Numbers.ParseInt | bot.py:396 | `int(s)` succeeds exactly on a digit string, or a `-` or `+` followed by one; the value is the digits' decimal value, negated after `-`; every other string is the ValueError (`None`) |
| Ordering.StrLe | bot.py:278 | Python's string order (code points, a prefix first); `StrLeTotal`, `StrLeReflexive`, `StrLeTransitive` and `StrLeAntisymmetric` show it is a total order |
| Ordering.Sort | bot.py:278 | `list.sort()` returns a sorted permutation of its input, of the same length |
| Ordering.SortedPermutationUnique | bot.py:407 | two sorted lists with the same elements are equal, so the sorted list is determined by its contents |
| Keywords.AddKeyword | bot.py:276-278 | a phrase already present up to case leaves the list unchanged; otherwise the list grows by exactly that phrase and is sorted |
| Keywords.AddKeywordPresent | bot.py:276-278 | after adding, the phrase is in the list up to case |
| Keywords.AddKeywordKeepsDistinct | bot.py:276-278 | adding keeps the list free of entries equal up to case |
| Keywords.RemoveAt | bot.py:335 | `pop(i)` drops exactly entry `i` and keeps the others in order |
| Keywords.RemoveAtKeepsOrder | bot.py:335 | `pop(i)` keeps a sorted list sorted, and a list distinct up to case distinct up to case |
| Keywords.WithoutFolded | bot.py:345-357 | the list the rebuild loop leaves; `WithoutFoldedCount`, `WithoutFoldedLength` and `WithoutFoldedKeepsOrder` state what it keeps |
| Keywords.LastFolded | bot.py:350-357 | the entry `found_kw_original_case` ends with; `LastFoldedFound` shows it is present exactly when some entry matches, and is such an entry |
| Keywords.RemoveFolded | bot.py:350-357 | the rebuild loop returns the entries that do not match up to case, in order, and the last entry that does |
| Keywords.WithoutFoldedCount | bot.py:350-357 | the rebuilt list keeps every non-matching string as often as before and has no matching one |
| Keywords.WithoutFoldedLength | bot.py:350-360 | the rebuilt list is shorter exactly when some entry matched, and equal to the input when none did |
| Keywords.WithoutFoldedKeepsOrder | bot.py:350-360 | the rebuilt list stays sorted and distinct up to case |
| Keywords.DeleteByPosition | bot.py:331-341 | a 1-based position in range deletes that entry; any other position is an invalid index and never falls through to a name match |
| Keywords.DeleteByName | bot.py:345-368 | a non-empty name deletes exactly when some entry equals it up to case; every such entry goes and the reported one is among them |
| Keywords.DeleteKeyword | bot.py:331-368 | a digit argument is a 1-based position and never reports an unknown name: it deletes exactly when the position is in range, and then drops that entry; any other non-empty argument is a name and never reports a bad position: it deletes exactly when some entry equals it up to case, and then every such entry goes, the reported one among them |
| Keywords.RemoveKeyword | bot.py:331-368 | the imperative delete, position first and then the rebuild loop, gives the outcome `DeleteKeyword` specifies |
| Keywords.DeleteKeywordShrinks | bot.py:331-372 | a successful delete removes an existing entry, shortens the list, adds nothing, and keeps it sorted and distinct up to case |
| Keywords.AddThenDeleteRestores | bot.py:276-360 | on a sorted list, adding a new non-numeric phrase and then deleting it by name gives back the original list and reports the phrase as removed |
| Keywords.EditKeyword | bot.py:396-407 | the edit fails exactly on an unparsable position, an empty phrase or an out-of-range position; on success the entry at the position is replaced and the list re-sorted, with the same length and the multiset changed by exactly that swap |
| Keywords.ReplaceKeyword | bot.py:396-407 | the imperative edit gives the outcome `EditKeyword` specifies |
| Keywords.EditMayBreakDistinct | bot.py:404-407 | editing does not check for duplicates: `["alpha", "beta"]` edited at 2 to `"Alpha"` gives two entries equal up to case |
| Subscribers.UserConfig | bot.py:58-86 | the lookup creates a default record for a new user, or refreshes the chat id and back-fills missing flags; it keeps the keywords and every other record, and reports a change exactly when the record was missing or out of date |
| Subscribers.GetUserConfigAndSubscriptions | bot.py:58-86 | the step-by-step lookup gives the record, store and change flag that `UserConfig` specifies |
| Subscribers.UserConfigIdempotent | bot.py:58-86 | a second lookup right after the first changes nothing and reports no change |
| Matching.ShouldSend | bot.py:144-166 | the decision for one record and one post; `IneligibleNeverSent`, `FilterOffSendsEverything`, `NoKeywordsSendNothing` and `FilterOnMatchesSubstring` specify it case by case |
| Matching.FindMatchingKeyword | bot.py:162-166 | the keyword loop finds a keyword exactly when some keyword occurs in the title ignoring case, and returns the first one that does |
| Matching.IneligibleNeverSent | bot.py:144-150 | a disabled record, or one without a usable chat id, is never sent anything |
| Matching.FilterOffSendsEverything | bot.py:153-157 | with the filter off, every post goes to every eligible record |
| Matching.NoKeywordsSendNothing | bot.py:159-160 | with the filter on and no keywords, nothing is sent |
| Matching.FilterOnMatchesSubstring | bot.py:161-166 | with the filter on, a post is sent exactly when some lower-cased keyword occurs at some position of the lower-cased title |
| Matching.ShouldSendIgnoresCase | bot.py:163 | lower-casing the title or the keywords does not change the decision |
| Matching.RouterExample | bot.py:162-166 | the keyword "Router" matches "new router available" and "ROUTER SALE" but not "Unrelated" |
| Dispatch.Deliver | bot.py:172-197 | the send with its fallback and failure classification; `DeliverContract` specifies it |
| Dispatch.UserStep | bot.py:143-197 | one subscriber's turn; `UserStepShape`, `BlockDisablesOnlyThatSubscriber` and `MigrationMovesOnlyTheChat` specify it |
| Dispatch.UsersPass | bot.py:143-197 | the subscriber loop for one post; `ItemReachesSubscriber` says what each subscriber receives |
| Dispatch.ItemStep | bot.py:137-200 | one entry: skipped when ledgered, else offered to every subscriber and ledgered; `LedgeredFeedIsNoop` and `CycleLedger` specify it |
| Dispatch.FeedPass | bot.py:136-203 | the entry loop; `ProcessesOldestFirst`, `FeedPassPreserves` and `CycleLedger` specify it |
| Dispatch.DeliverContract | bot.py:172-197 | the MarkdownV2 send comes first; only a BadRequest saying "can't parse entities" earns exactly one plain-text retry; the post counts as delivered when one of the two was accepted; a migration and a block are reported, and they are exactly the outcomes that correct a record |
| Dispatch.UserStepShape | bot.py:143-197 | a subscriber's turn appends its messages, all about the post at hand, leaves both ledgers and every other record alone, and keeps the store's keys |
| Dispatch.ProcessesOldestFirst | bot.py:136 | the check handles the entries in reverse feed order, oldest first |
| Dispatch.FeedPassPreserves | bot.py:136-203 | a check only appends to the ledger file and the message log, keeps the store's keys, sends only posts of the feed that were not ledgered, and ends with the store marked dirty exactly when it already was or a formatted send hit a migration or a block; a record changes only after such a send to it |
| Dispatch.CycleLedger | bot.py:136-200 | after a check the ledger is the old one plus exactly the feed's links; each new link is appended to the file once, even when the feed repeats it; only new feed posts are sent |
| Dispatch.LedgeredFeedIsNoop | bot.py:140-141 | a feed whose links are all ledgered leaves the state unchanged |
| Dispatch.RerunSendsNothing | bot.py:140-141 | running the check again on the same feed, with any store order and any transport, sends nothing and changes nothing |
| Dispatch.CycleOnlyHeals | bot.py:143-197 | a check never changes keywords or filter mode; `enabled` only turns false; a record that starts the check disabled or without a chat is sent nothing and keeps its value |
| Dispatch.CycleSavesOnlyAfterHealing | bot.py:202-203 | the store needs saving exactly when some formatted send hit a migration or a block; otherwise it comes out of the check unchanged |
| Dispatch.ItemReachesSubscriber | bot.py:143-178 | for a new post, each subscriber visited once is sent exactly what the delivery adapter sends for its record; when the evaluator says yes that starts with one MarkdownV2 message to its chat |
| Dispatch.BlockDisablesOnlyThatSubscriber | bot.py:192-195 | a block turns off exactly that record's `enabled`, so later posts of the same check skip it, and marks the store dirty |
| Dispatch.MigrationMovesOnlyTheChat | bot.py:188-191 | a migration rewrites exactly that record's chat id, sends nothing more and marks the store dirty |
| Dispatch.BlockedSubscriberDisabledOnce | bot.py:192-195 | two subscribers, the second blocked: the post is ledgered, reaches the first once, the second is switched off and the store saved; rerunning the check sends nothing |
| Dispatch.KeywordScenario | bot.py:136-200 | a feed listed newest first with one "Router" subscriber: both links are ledgered oldest first and only the matching post is sent, once |
| DispatchAsWritten.UserStepAsWritten | bot.py:143-197 | a subscriber's turn as written: a failure reaching line 192 aborts after the formatted send; `AsWrittenAgreesOffTheBrokenClause` relates it to `UserStep` |
| DispatchAsWritten.UsersPassAsWritten | bot.py:143-197 | the subscriber loop as written, stopping at the first abort; `UsersPassAgrees` relates it to `UsersPass` |
| DispatchAsWritten.ItemStepAsWritten | bot.py:137-200 | one entry as written: an aborted subscriber loop leaves the link unledgered |
| DispatchAsWritten.FeedPassAsWritten | bot.py:136-214 | the entry loop as written, ending at the outer handler on an abort; `AsWrittenAgreesOffTheBrokenClause` and `BlockedSubscriberResentForever` specify it |
| DispatchAsWritten.StoreAfter | bot.py:202-214 | the store file after the check as written: saved only by a finished, dirty run |
| DispatchAsWritten.UsersPassAgrees | bot.py:143-197 | when no send reaches the broken clause, the subscriber loop as written finishes and equals the corrected one |
| DispatchAsWritten.AsWrittenAgreesOffTheBrokenClause | bot.py:136-200 | as long as no send fails with a block or an unclassified error, the check as written and the corrected check give the same result |
| DispatchAsWritten.BlockedSubscriberResentForever | bot.py:192 | as written, one blocked subscriber aborts the check: the link is not ledgered and the block not recorded, and the next check sends the same messages again |
| Commands.StartEffect | bot.py:221-259 | `/start`; `EveryCommandConfined` bounds what it changes |
| Commands.AddKeywordEffect | bot.py:262-287 | `/addkeyword`; `AddKeywordEffectAdds` and `FailedAddIsLookup` specify it |
| Commands.ListKeywordsEffect | bot.py:289-306 | `/listkeywords`: a lookup that replies with the caller's list |
| Commands.DelKeywordEffect | bot.py:308-373 | `/delkeyword`; `DelKeywordEffectShrinks` and `FailedDeleteIsLookup` specify it |
| Commands.EditKeywordEffect | bot.py:376-423 | `/editkeyword`; `EditKeywordEffectReplaces` and `FailedEditIsLookup` specify it |
| Commands.NotificationsEffect | bot.py:425-447 | `/enablenotifications` and `/disablenotifications`; `LastNotificationSettingWins` specifies them |
| Commands.ToggleFilterEffect | bot.py:449-481 | `/togglefilter`; `ToggleFilterFlips` and `ToggleFilterTwice` specify it |
| Commands.StatusEffect | bot.py:483-524 | `/myrssstatus`; `StatusWarningMeansSilence` specifies its warning |
| Commands.EveryCommandConfined | bot.py:221-524 | every command changes at most the caller's record and adds no other key; a command that does not write leaves the store as it was |
| Commands.AddKeywordEffectAdds | bot.py:262-287 | after `/addkeyword`, the phrase is in the caller's list up to case; it is reported as added exactly when it was not there before; the list grows by at most one and stays distinct up to case |
| Commands.FailedAddIsLookup | bot.py:262-287 | an `/addkeyword` that adds nothing either leaves the store alone or leaves what the lookup alone writes |
| Commands.DelKeywordEffectShrinks | bot.py:308-373 | a reported removal took an existing entry out of the caller's list, which gets shorter, gains nothing and stays sorted and distinct |
| Commands.FailedDeleteIsLookup | bot.py:308-373 | a `/delkeyword` that removes nothing (empty list, unknown name, position out of range) leaves the store as it was or as the lookup alone leaves it |
| Commands.EditKeywordEffectReplaces | bot.py:376-423 | a reported replacement names an in-range position and the entry that was there; the stored list is sorted and is the old one with exactly that entry swapped for the new non-empty phrase |
| Commands.FailedEditIsLookup | bot.py:376-423 | an `/editkeyword` that replaces nothing (bad number, empty phrase, position out of range, empty list) leaves the store as it was or as the lookup alone leaves it |
| Commands.AddThenDeleteIsLookup | bot.py:262-373 | `/addkeyword` of a new phrase followed by `/delkeyword` of the same words leaves the store as a bare lookup would |
| Commands.ToggleFilterFlips | bot.py:459-460 | `/togglefilter` stores the opposite of the caller's filter mode (a new user starts with it on) and reports the new mode |
| Commands.ToggleFilterTwice | bot.py:449-463 | toggling twice leaves the store as a bare lookup would |
| Commands.LastNotificationSettingWins | bot.py:425-447 | of two notification commands only the last counts, and the caller is eligible for posts afterwards exactly when it enabled them |
| Commands.StatusWarningMeansSilence | bot.py:518 | `/myrssstatus` warns exactly when the filter is on and the list is empty, and then no post can reach the caller |
| Bot.LoadLedger | bot.py:89-100 | the ledger read from its file; `LedgerReloads` says what appending does to it |
| Bot.CycleKeepsLedgerLoaded | bot.py:136-200 | a check keeps the in-memory ledger equal to what its file loads as, provided each of the feed's links is one record of the file (`LedgerLink`: no line break inside, no whitespace at its ends) |
| Bot.RestartSendsNothing | bot.py:112 | a bot restarted from the ledger file a check left behind, with any store, order and transport, sends nothing for the same feed and changes nothing, for feeds whose links satisfy `LedgerLink` |
| Bot.LineBreakSplitsLink | bot.py:97-108 | a link with a line break inside, though free of whitespace at its ends, is not one record of the ledger file |
| Bot.LedgerReloads | bot.py:89-109 | reloading the ledger file after links were appended gives the old ledger plus exactly those links, provided each satisfies `LedgerLink` |
| Bot.OfferToSubscriber | bot.py:143-197 | the imperative subscriber turn ends in the state `UserStep` specifies and keeps the store's keys |
| Bot.OfferItem | bot.py:143-197 | the loop over the store's records ends in the state `UsersPass` specifies |
| Bot.RssBot.constructor | bot.py:112 | start-up: the ledger is what its file loads as, the store as given, nothing written yet |
| Bot.RssBot.Save | bot.py:47-56 | a write replaces the stored subscriptions, counts one write and leaves the ledger alone |
| Bot.RssBot.CheckRssAndSendToUsers | bot.py:115-206 | a parse failure changes nothing; otherwise the ledger, ledger file, message log, counter and store end as `FeedPass` gives them, the store is written once exactly when a record was corrected, and a ledger that matched its file still does when every link of the feed satisfies `LedgerLink` |
| Bot.RssBot.StartCommand | bot.py:221-259 | the store, the reply and the number of writes are those `StartEffect` gives; the ledger is untouched |
| Bot.RssBot.AddKeywordCommand | bot.py:262-287 | the store, the reply and the number of writes are those `AddKeywordEffect` gives; the ledger is untouched |
| Bot.RssBot.ListKeywordsCommand | bot.py:289-306 | a lookup only: the store, reply and writes of `ListKeywordsEffect` |
| Bot.RssBot.DelKeywordCommand | bot.py:308-373 | the position-or-name delete, with its rebuild loop, gives the store, reply and writes of `DelKeywordEffect` |
| Bot.RssBot.EditKeywordCommand | bot.py:376-423 | the store, the reply and the writes are those of `EditKeywordEffect` |
| Bot.RssBot.ToggleNotificationsCommand | bot.py:425-447 | the store, reply and writes of `NotificationsEffect`: in the private chat `enabled` is set as asked and the store written once |
| Bot.RssBot.ToggleFilterCommand | bot.py:449-481 | the store, reply and writes of `ToggleFilterEffect`: in the private chat the filter mode flipped and the store written once |
| Bot.RssBot.StatusCommand | bot.py:483-524 | the store, reply and writes of `StatusEffect`: a lookup only, written if it changed the record, the reply carrying the flags, the list and the warning |

## Left out

- The Telegram transport is left out: the MarkdownV2 escaping (`escape_markdown`), reply wording and both message formats' text. A message is identified by chat, post and format.
- `feedparser` and its `bozo` flag are left out: the feed is a parameter, and a parse failure ends the check at once with nothing changed. The admin notification is left out too.
- File I/O is left out. This covers creating the data directory and the fallback to an empty store on a JSON decode error. It also covers swallowed IOErrors, which make a write failure look like success. The store is a value, and a write is counted by `RssBot.Save`.
- No concurrency: the model runs the check and the commands one after the other. In the program the job queue runs the check on its own thread while commands run on the dispatcher's. The check copies the store at bot.py:117 and, when a record was corrected, writes the whole copy back at bot.py:203, so a command saved in between is lost. The window includes a one-second sleep after each delivered message (bot.py:178). The other way round, a command that loaded the store before that write overwrites the check's correction.
- `time.sleep(1)`, the job interval, logging, `error_handler` and `main` are left out. Apart from widening the window just described, they change no modelled state.
- The outer `except Exception` of the check is modelled only for the failure described under Findings. Ill-formed entries, such as a missing title or link, are not modelled.
- The iteration order of `user_subscriptions.items()` is a parameter of the check, and each key is visited once.
- Bot.LedgerReloads, Bot.CycleKeepsLedgerLoaded, Bot.RestartSendsNothing and the ledger ensures of Bot.RssBot.CheckRssAndSendToUsers hold only for links that satisfy `LedgerLink`. A link with whitespace at its ends reloads stripped. A link with a '\n' or '\r' inside reloads as several entries (bot.py:97, 108). In the program either kind is sent again after a restart. The model keeps the file as a sequence of records rather than as text, so it does not capture this.
- Text: `lower()` folds only ASCII letters. Python folds all of Unicode.
- Numbers: `str.isdigit()` and `int()` are modelled for ASCII digits only. Python also accepts other Unicode digits, and `int()` also accepts underscores and surrounding whitespace.
- A stored record without a `keywords` field would make the commands raise KeyError. A record always has keywords here.
- The generic `except Exception` of `/editkeyword` is left out. The only exception the modelled edit can raise is the ValueError of `int()`, which is modelled.
- The `/start` help text and the display form of the keyword list are left out; replies are the datatype `Commands.Reply`.

## Findings

| source | as written | input that shows it | evidently intended | confidence | as-written member | corrected member |
|---|---|---|---|---|---|---|
| bot.py:192 | The clause names both `telegram.error.Forbidden` and `telegram.error.Unauthorized`. The python-telegram-bot 13 series that bot.py:551 names defines only `Unauthorized`, so evaluating the tuple raises AttributeError. That happens for every send failure that is neither BadRequest nor ChatMigrated. The outer handler then ends the whole check: the post is never ledgered and the store never saved. | Two enabled subscribers with the filter off, the second having blocked the bot, and one new post: every check resends the post to the first subscriber and never disables the second | A block switches that subscriber's notifications off, an unknown failure is ignored, and the post is ledgered | high (the library is not part of this model); not executed | DispatchAsWritten.BlockedSubscriberResentForever | Dispatch.BlockedSubscriberDisabledOnce |
