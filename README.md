# voicely-ping, modelled in Dafny

`voicely-ping.py` is a Discord bot. It sends a member a direct message when a voice channel they registered for reaches a chosen number of people. It edits that message to the past tense once the channel empties. This project models the bot's deterministic core, with Discord's inputs as parameters and its effects as values:

- **The subscription registry `pings`**: guild id → channel id → threshold text → list of user ids.
  - The count modal validates the threshold and adds the user to every selected channel, creating missing levels on the way.
  - The removal select removes the user from each selected path and deletes levels that become empty.
  - `remove` flattens the user's subscriptions into records and sorts them by guild name, channel name and zero-padded threshold.
- **Removal pagination**:
  - the page count;
  - the layout of up to four select menus of 25 records per page (five when one page holds everything);
  - the navigation buttons;
  - the footer;
  - the option label, value and placeholder texts.
- **Confirmation-link chunking**: the selected channels' link lines are packed greedily into texts of at most 2048 characters.
- **The voice-state handler and its `notified_channels` tracker** (user id → channel id → count → message or `None`):
  - *Reset*: when the channel just left has no member at all, every stored message is edited to the past tense and every user's entry for that channel is dropped.
  - *Arrival*: the joined channel's members are filtered for bots, exactly as the source's loop does it. Every user registered at the resulting count is then handled in list order:
    - an existing slot suppresses everything;
    - otherwise the slot is set to `None`;
    - a user who is not in the channel is sent the roster message;
    - the message is stored only when the send is delivered.

The model is organised as follows:

| file | contents |
|---|---|
| `wrappers.dfy` | `Option` |
| `decimal.dfy` | Python's `str(n)` and `int(text)` on decimal text |
| `strings.dfy` | `<`, `split` and `replace` on `str` |
| `lists.dfy` | `list.remove` and duplicate-freedom |
| `tree.dfy` | the generic three-level dictionary, with add and cascading remove |
| `registry.dfy` | the registry as a class holding `pings`, with the modal and select handlers |
| `listing.dfy` | flattening, the sort key and the sort |
| `pagination.dfy` | page count, layout, navigation, footer, option texts, the `remove` command |
| `chunking.dfy` | the link-chunking loop and the channel select's reply |
| `presence.dfy` | the bot filter, the roster text, past tense, the tracker, and the `Bot` class with the voice-state handler |

Ids (guild, channel, user, message) are natural numbers. Registry keys are their decimal text, as the source writes `str(x.id)`. The attempt to send a direct message is a parameter `send: string -> SendOutcome`. It gives, per user id text, either `Delivered(messageId)` or `Forbidden`. Each event sends at most once to a user. Channel and guild names are parameters `string -> string`, standing for the bot's caches.

## Model

| member | source | states |
|---|---|---|
| Decimal.NatToString | voicely-ping.py:177 | `str(n)` is a non-empty digit string whose first digit is 0 only for n = 0 |
| Decimal.ParseInt | voicely-ping.py:167-170 | `int(text)` succeeds exactly on digits with an optional sign; its value is the digits' value, negated after '-' (so never positive then), and below 10^len in magnitude |
| Decimal.ValueOfNatToString | voicely-ping.py:177 | the digits `str(n)` writes have value n |
| Decimal.ParseNatToString | voicely-ping.py:168-177 | `int(str(n)) == n` |
| Decimal.NatToStringIsCanonical | voicely-ping.py:177 | `str(n)` has no leading zero |
| Decimal.CanonicalIsNatToString | voicely-ping.py:177 | every digit string without a leading zero is `str()` of its value |
| Decimal.NatToStringInjective | voicely-ping.py:179-180 | distinct ids have distinct key texts |
| Decimal.NatToStringLength | voicely-ping.py:155 | a number below 10^k is written with at most k digits |
| Decimal.ZerosValue | voicely-ping.py:470-471 | prepended zeros keep a digit string's value |
| Decimal.ParsePadded | voicely-ping.py:167-168 | `int()` reads "0…0" + `str(n)` and "+" + `str(n)` as n |
| Strings.LexLessIrreflexive | voicely-ping.py:475 | no string sorts before itself |
| Strings.LexLessTotal | voicely-ping.py:475 | any two different strings are ordered one way |
| Strings.LexLessAsymmetric | voicely-ping.py:475 | string order is never both ways |
| Strings.LexLessTransitive | voicely-ping.py:475 | string order is transitive |
| Strings.LexLessCommonPrefix | voicely-ping.py:473 | a shared prefix of two sort keys does not affect their order |
| Strings.LexLessDigits | voicely-ping.py:470-473 | for digit strings of equal length, string order is numeric order |
| Strings.Split | voicely-ping.py:312 | `split(sep)` gives pieces without the separator that join back to the text |
| Strings.SplitJoin | voicely-ping.py:312-315 | splitting the joined pieces gives the pieces back |
| Strings.Replace | voicely-ping.py:497 | `replace` keeps the length when the replacement is as long as the pattern, and never lengthens the text when it is shorter; what it rewrites is stated by ReplaceSingle, ReplaceNone and NoMatchReplace |
| Strings.NoMatchReplace | voicely-ping.py:497 | text in which the pattern never occurs is returned unchanged |
| Strings.ReplaceSingle | voicely-ping.py:497 | when the pattern's last character occurs only at its one occurrence, `replace` rewrites exactly that occurrence: `a + pat + b` becomes `a + rep + b` |
| Strings.ReplaceNone | voicely-ping.py:497 | a word ending like the pattern but differing from it is not rewritten |
| Lists.RemoveFirst | voicely-ping.py:317 | `list.remove` of a listed element shortens the list by one |
| Lists.RemoveFirstMultiset | voicely-ping.py:317 | `list.remove` takes exactly one copy of the element out |
| Lists.RemoveFirstAppended | voicely-ping.py:195 | removing an element just appended to a list that lacked it restores the list |
| Lists.NoDupRemoveFirst | voicely-ping.py:317 | on a duplicate-free list, `remove` leaves the element absent and the list duplicate-free |
| Lists.RemoveFirstAt | voicely-ping.py:506 | `remove` of the element at position i, with no earlier copy, deletes exactly position i |
| Tree.AppendAbsent | voicely-ping.py:194-195 | the guarded append lists the user, keeps everyone, adds no one else, and keeps the list duplicate-free |
| Tree.AddSubscriber | voicely-ping.py:187-195 | after one channel's add, the path exists and holds the old list with the user appended if absent |
| Tree.AddSubscriberFrame | voicely-ping.py:187-195 | one channel's add leaves every other path's list alone |
| Tree.AddSubscriberShape | voicely-ping.py:182-192 | the add creates only the keys on its own path and keeps every other subtree |
| Tree.AddToChannels | voicely-ping.py:182-183 | the guild level exists after the add, even when no channel is selected |
| Tree.AddIdempotent | voicely-ping.py:194-195 | adding the same user to the same path twice equals adding once |
| Tree.AddRepeatedlyIsAddOnce | voicely-ping.py:182-195 | any number (at least one) of repeated adds equals a single add |
| Tree.AddListsOnce | voicely-ping.py:194-195 | after the add the user occurs exactly once on the path, if at most once before |
| Tree.AddKeepsNoEmptyNode | voicely-ping.py:182-195 | an add leaves no empty guild, channel or threshold node |
| Tree.AddKeepsUnique | voicely-ping.py:194-195 | an add keeps every user list duplicate-free |
| Tree.AddToChannelsSubscribes | voicely-ping.py:187-195 | every selected channel's list is its old list with the user appended unless already listed, even when the channel is selected twice |
| Tree.AddToChannelsFrame | voicely-ping.py:187-195 | paths of other guilds, thresholds or unselected channels keep their lists |
| Tree.AddToChannelsKeepsInvariants | voicely-ping.py:182-195 | a non-empty add keeps both structural invariants |
| Tree.AddAfterEmptyGuild | voicely-ping.py:182-183 | creating the guild level first gives the same result as one add |
| Tree.AddStepwise | voicely-ping.py:189-195 | the handler's in-place level creation and append is one add |
| Tree.RemoveSubscriber | voicely-ping.py:317-324 | the removed path holds the list with the user's first occurrence removed |
| Tree.RemoveSubscriberFrame | voicely-ping.py:317-324 | removal leaves every other path's list unchanged |
| Tree.RemoveSubscriberShape | voicely-ping.py:317-324 | removal creates no key, keeps other subtrees, and leaves no empty node on its path |
| Tree.RemoveKeepsNoEmptyNode | voicely-ping.py:319-324 | the cascade keeps the no-empty-node invariant |
| Tree.RemoveKeepsUnique | voicely-ping.py:317 | removal keeps lists duplicate-free and leaves the user off the removed path |
| Tree.AddThenRemove | voicely-ping.py:317-324 | adding a user absent from a path and then removing that selection restores the registry exactly |
| Tree.RemoveStepwise | voicely-ping.py:317-324 | the callback's four mutations in sequence are the cascading removal |
| Registry.ChannelKeysInjective | voicely-ping.py:188 | two selected channels share a key exactly when they are the same channel, and every key is canonical |
| Registry.AddKeepsDecimalKeys | voicely-ping.py:177-195 | an add with canonical keys and user keeps every key and listed user canonical and no threshold "0" |
| Registry.AddToChannelsKeepsValid | voicely-ping.py:182-195 | a non-empty add keeps all registry invariants |
| Registry.AddToChannelsKeepsDecimalKeys | voicely-ping.py:187-192 | an add over canonical channel keys keeps every key canonical |
| Registry.SubmitEffect | voicely-ping.py:187-195 | with ids as keys, a path of the guild and threshold whose channel was selected becomes its old list with the user appended unless listed; every other path is unchanged |
| Registry.SelectionValue | voicely-ping.py:289 | the option value is the three fields with a '/' after the first and after the second |
| Registry.DecodeSelectionValue | voicely-ping.py:312-315 | splitting `guild/channel/count` at '/' gives back the three parts when none holds '/' |
| Registry.RemoveSelections | voicely-ping.py:311-324 | the whole removal deletes guilds at most, never creates one |
| Registry.RemoveKeepsDecimalKeys | voicely-ping.py:317-324 | one removal keeps every key and listed user canonical |
| Registry.RemoveSelectionKeepsValid | voicely-ping.py:312-324 | one selected removal keeps all registry invariants |
| Registry.RemoveSelectionsKeepsValid | voicely-ping.py:311-324 | the callback's whole removal keeps all registry invariants |
| Registry.DistinctSelectionsRemovable | voicely-ping.py:311-317 | distinct selected paths that list the user can all be removed one after another |
| Registry.OtherSelectionStays | voicely-ping.py:317-324 | removing one selected path leaves the user listed on every other selected path |
| Registry.CountKey | voicely-ping.py:168-177 | an accepted threshold is keyed by canonical text, never "0", that `int()` reads as the same number |
| Registry.CountKeysAgree | voicely-ping.py:168-177 | two accepted texts share a key exactly when `int()` gives them the same value |
| Registry.PaddedCountKey | voicely-ping.py:168-177 | "0…0" + `str(n)` and "+" + `str(n)` are accepted for n > 0 and keyed `str(n)` |
| Registry.NegativeRejected | voicely-ping.py:168-172 | a text with a leading '-' is always refused |
| Registry.CountKeyExamples | voicely-ping.py:168-177 | "03", "003", "+3" and "3" share the key "3"; "0" and "-3" are refused |
| Registry.InvalidCountMessage | voicely-ping.py:165 | the refusal quotes the entered text between backticks at its start |
| Registry.Confirmation | voicely-ping.py:225-240 | the reply is a confirmation whose title is "Ping set!" exactly for at most one channel |
| Registry.RemovedMessage | voicely-ping.py:328-333 | the reply states the number of removals, with "pings" exactly above one |
| Registry.AcceptedCountBound | voicely-ping.py:155 | with the three-character input limit, an accepted threshold is 1..999 and its key has at most three digits |
| Registry.Registry.constructor | voicely-ping.py:63 | the registry starts as the loaded snapshot |
| Registry.Registry.SubmitCount | voicely-ping.py:165-240 | rejected iff `int()` fails or gives a value ≤ 0, with the error message and the registry unchanged; otherwise the registry is the add of `str(int(text))` to every selected channel and the reply is the confirmation; a valid registry stays valid |
| Registry.Registry.RemoveSelected | voicely-ping.py:306-333 | no selection gives the refusal and no change; otherwise each selection is removed in order with the cascade, the reply counts the removals, and a valid registry stays valid |
| Listing.ListCounts | voicely-ping.py:447-459 | one record per threshold of the channel whose list holds the user, no duplicates |
| Listing.ListChannels | voicely-ping.py:446-459 | one record per (channel, threshold) of the guild whose list holds the user, no duplicates |
| Listing.Flatten | voicely-ping.py:444-459 | the records are exactly the registry paths whose list holds the user, each once |
| Listing.ListedSomewhere | voicely-ping.py:448 | a path lists the user iff its record is among the flattened records |
| Listing.Padded | voicely-ping.py:470-471 | the padded threshold has length 3, or its own length when longer |
| Listing.PadCount | voicely-ping.py:470-471 | the padding loop prepends '0' until the text has three characters |
| Listing.SortKey | voicely-ping.py:464-473 | the key starts with the guild name and a space, and holds both names and a threshold of at least three characters |
| Listing.PaddedValue | voicely-ping.py:470-471 | padding keeps the threshold's value |
| Listing.PaddedOrder | voicely-ping.py:470-473 | for thresholds of at most three digits, padded text order is numeric order |
| Listing.SortKeyNumeric | voicely-ping.py:464-475 | with equal guild and channel names, sort keys order canonical thresholds numerically ("9" before "10") |
| Listing.SortKeyNumericValues | voicely-ping.py:464-475 | for thresholds `str(x)`, `str(y)` with x, y ≤ 999, key order is x < y |
| Listing.Insert | voicely-ping.py:475 | inserting into a sorted list keeps it sorted and adds exactly that record |
| Listing.SortOptions | voicely-ping.py:475 | the sort gives a permutation of the records, ordered by key |
| Listing.SortedAllPairs | voicely-ping.py:475 | in the sorted list, no later record's key is below an earlier one's |
| Pagination.SelectCount | voicely-ping.py:340 | `ceil(n / 25)` is 0 exactly for n = 0 and is the smallest count of 25-record menus holding n |
| Pagination.SelectCountUnique | voicely-ping.py:340 | that count is the only one whose last menu is non-empty |
| Pagination.Pages | voicely-ping.py:339-346 | one page exactly for 1..125 records |
| Pagination.PagesFit | voicely-ping.py:339-346 | no records give no page; all records fit (up to 125 on a single page); the last page is never empty |
| Pagination.PagesExamples | voicely-ping.py:339-346 | 130 records give 2 pages, 125 give 1, 126 give 2, 401 give 5 |
| Pagination.PageSelects | voicely-ping.py:392-396 | each menu the page gets starts inside the record list |
| Pagination.Chunk | voicely-ping.py:385 | a menu slice holds between 1 and 25 records |
| Pagination.Chunks | voicely-ping.py:392-393 | k consecutive menus are k slices |
| Pagination.LayoutPage | voicely-ping.py:380-396 | the loop and the single-page fifth menu produce exactly the page's consecutive 25-record slices |
| Pagination.LayoutCount | voicely-ping.py:392-396 | the loop stops at the menu count the layout rule names |
| Pagination.PageChunksBounded | voicely-ping.py:385-396 | every menu has 1..25 records, a page has at most 4 menus, 5 only on a single page |
| Pagination.ChunksConcat | voicely-ping.py:385-393 | consecutive menus concatenate to the slice they cover |
| Pagination.PageContents | voicely-ping.py:380-396 | a page's menus together are the records from 100·page to the page end |
| Pagination.PagesPrefixIsPrefix | voicely-ping.py:380-396 | the first k pages together are a prefix of the records |
| Pagination.PagesCoverAll | voicely-ping.py:380-396 | all pages together are the records, each exactly once, in order |
| Pagination.AddNavigation | voicely-ping.py:400-405 | "Next Page" iff pages > 1 and page < pages − 1; "Previous Page" iff pages > 1 and page ≠ 0 |
| Pagination.NavigationStaysInRange | voicely-ping.py:353-361 | the buttons lead only to existing pages, and on a menu of several pages one of them is shown |
| Pagination.Footer | voicely-ping.py:262-265 | there is a footer iff there is more than one page |
| Pagination.FooterDecodes | voicely-ping.py:265 | the footer splits into "Page", the page number, "of" and the page count |
| Pagination.FooterInjective | voicely-ping.py:265 | different pages of one menu carry different footers |
| Pagination.GetErrorForms | voicely-ping.py:412-415 | a non-empty error gives a message that differs from the generic one and ends with the error text; an empty one gives the generic message |
| Pagination.MemberPlural | voicely-ping.py:276-288 | "(s)" exactly when `int()` fails; otherwise nothing exactly for a value of at most 1 |
| Pagination.MemberPluralOfKey | voicely-ping.py:277-288 | for a stored threshold the label says "member" exactly for "1", "members" otherwise, never "(s)" |
| Pagination.OptionFor | voicely-ping.py:289 | the option's value splits back into guild, channel and threshold when none holds '/', and the description is the guild name |
| Pagination.SetupSelect | voicely-ping.py:272-290 | one option per record, in order, with the label, `guild/channel/count` value and guild-name description |
| Pagination.ListedOptionRemovable | voicely-ping.py:289 | every option offered decodes to its record's path and can be removed by the callback |
| Pagination.Placeholder | voicely-ping.py:292-299 | "Pings in G" iff the menu's first and last guild names agree, else "Servers A to B" |
| Pagination.RemoveCommand | voicely-ping.py:437-479 | the refusal iff the user is listed nowhere; otherwise the sorted, duplicate-free records of exactly the user's paths, with page 0's footer, menus and navigation |
| Chunking.Pack | voicely-ping.py:100-112 | the greedy packing always gives at least one text |
| Chunking.PackStartsWith | voicely-ping.py:105-109 | the first text starts with the text that was open |
| Chunking.PackClosesOnOverflow | voicely-ping.py:105-107 | a text is closed only when it, a newline and the line the next text starts with exceed 2048 characters |
| Chunking.PackJoin | voicely-ping.py:100-112 | the packed texts joined by newlines are the header and lines joined by newlines |
| Chunking.PackWithin | voicely-ping.py:100-112 | every packed text fits 2048 when the header and every line do |
| Chunking.PackFits | voicely-ping.py:100-112 | when everything fits within 2048, the packing is the one joined text |
| Chunking.ChunkLinks | voicely-ping.py:100-112 | the loop's texts are the greedy packing, the open text is the last one, the texts join back to the header and lines, each fits when every line does, one text when everything fits |
| Chunking.LinkLines | voicely-ping.py:102-103 | one link line per selected channel |
| Chunking.LinkLineShort | voicely-ping.py:103 | with 64-bit ids a link line has at most 72 characters |
| Chunking.LinkLinesShort | voicely-ping.py:102-103 | with 64-bit ids every link line fits the 2048 limit |
| Chunking.SelectionFits | voicely-ping.py:83-112 | with at most 25 channels and 64-bit ids, the header and links fit one 2048-character text |
| Chunking.SelectChannels | voicely-ping.py:83-128 | the refusal iff nothing is selected; otherwise the greedy packing of header and links, the last text for the modal, and the count prompt; with the select's 25-channel maximum and 64-bit ids, the single joined text |
| Presence.KeptFrom | voicely-ping.py:504-506 | the loop's result is never longer than the member list |
| Presence.WithoutBots | voicely-ping.py:503-506 | the intended filter keeps exactly the non-bot members |
| Presence.IgnoreBots | voicely-ping.py:504-506 | the remove-while-iterating loop leaves exactly `KeptFrom` of the members |
| Presence.KeptFromIsWithoutBots | voicely-ping.py:504-506 | with no two bots adjacent, the loop filters exactly the bots |
| Presence.KeptFromKeepsHumans | voicely-ping.py:504-508 | the loop keeps every human and adds no one, so its count is at least the human count |
| Presence.AdjacentBotsCounted | voicely-ping.py:504-508 | two adjacent bots before one human give a count of 2 where there is 1 human |
| Presence.RosterPrefixIsRoster | voicely-ping.py:531-541 | for 1..5 members the loop's pieces make the roster text |
| Presence.RosterText | voicely-ping.py:531-543 | the roster is empty exactly when there is no member |
| Presence.MembersMessage | voicely-ping.py:531-543 | "<@a>", "<@a> and <@b>", "<@a>, <@b>, and <@c>" up to five, "**n** members" beyond |
| Presence.NotifyText | voicely-ping.py:545-551 | the direct message ends with the channel link |
| Presence.PastTense | voicely-ping.py:497 | the edited text ends with "." |
| Presence.PastTenseSentence | voicely-ping.py:497 | the edit turns "is/are currently in" into "was/were in" and appends "." when no other 'y' occurs |
| Presence.PastTenseOfNotify | voicely-ping.py:497 | the edit of a notification keeps roster and link and puts the verb in the past |
| Presence.PresentByText | voicely-ping.py:526-528 | for canonical entries the `int()` lookup matches exactly the member whose `str(id)` is the entry; a padded entry still matches |
| Presence.ArriveOne | voicely-ping.py:515-556 | afterwards the user holds the slot and at most one message was sent; an existing slot leaves everything as it was |
| Presence.ArriveAll | voicely-ping.py:513-556 | at most one message per registered user |
| Presence.ArriveOneSlot | voicely-ping.py:515-556 | one registered user changes only their own slot, and only when it was missing |
| Presence.ArriveAllSlot | voicely-ping.py:513-556 | after arrival a slot is new exactly for a listed user who had none, and holds the stored message or `None`; every other slot (other thresholds included) is unchanged |
| Presence.ArriveAllSends | voicely-ping.py:513-556 | the text is sent once to each listed user without a slot who is not in the channel, and to no one else |
| Presence.ArriveAllSettled | voicely-ping.py:515-517 | when every listed user already holds the slot, nothing is sent or changed |
| Presence.ArriveAllTwice | voicely-ping.py:513-524 | repeating the same arrival sends nothing and changes nothing |
| Presence.DropChannel | voicely-ping.py:492-498 | every user keeps an entry, the reset channel's slots are gone, and other channels' slots are kept |
| Presence.EditMessages | voicely-ping.py:494-497 | one past-tense edit per stored message of the user's entry for the channel, each once |
| Presence.ArriveUser | voicely-ping.py:514-556 | the loop body's in-place updates and send give the single-user arrival |
| Presence.ArriveStepwise | voicely-ping.py:519-556 | creating levels, setting `None`, then storing a delivered message is the single-user arrival |
| Presence.DeliveredThenEdited | voicely-ping.py:491-556 | an edit of a slot arrival created is for a listed user outside the channel whose send was delivered, and carries the past-tense roster and link |
| Presence.Bot.constructor | voicely-ping.py:27 | the tracker starts empty |
| Presence.Bot.ResetChannel | voicely-ping.py:491-498 | the tracker becomes `DropChannel`, and the edits are exactly one past-tense edit per stored message of the channel |
| Presence.Bot.Arrive | voicely-ping.py:513-556 | tracker and sends are those of the arrival of every registered user in list order |
| Presence.Bot.OnVoiceStateUpdate | voicely-ping.py:485-556 | reset iff the channel left has no member (bots included); arrival at the filtered count iff that count's path exists; otherwise nothing is sent |

## Left out

- Discord's objects are not modelled: embeds, views, modals, buttons, interactions and message sending. The model keeps the texts and decisions they carry.
  - The removal menu's embed title and description are constants, so they are not modelled.
  - The channel select's embed titles are not modelled.
- The embed fields where the confirmation shows the links (voicely-ping.py:242) are not modelled.
- Persistence is not modelled: `load_pings` and `save_pings`, the token file and `json`. The registry constructor takes the loaded snapshot as a parameter.
- The `sync` command is left out (network calls and logging), and so are `on_ready`, `setup_hook` and `is_in_guild`.
- Decimal.ParseInt: handles only an optional sign followed by ASCII digits. Python's `int()` also accepts surrounding whitespace, underscores and non-ASCII digits. With the 3-character limit the accepted thresholds are the same, up to those forms.
- Pagination.SelectCount: uses integer ceiling division where the source uses `math.ceil` of a float division. These agree for every realistic number of records.
- Python dict iteration order is not modelled. The flattened records and the reset edits are specified as sets without duplicates, so their order is unspecified.
- Listing.SortOptions: does not state the sort's stability, i.e. the relative order of records with equal keys.
- Registry.Registry.RemoveSelected: removing a selection that is no longer registered is a precondition. The source raises `KeyError` or `ValueError` in that case, and no error path is modelled.
- Presence.Bot.OnVoiceStateUpdate: requires the members of the joined channel to be distinct. Discord lists each member once.
- Presence.Bot.OnVoiceStateUpdate: exceptions other than `Forbidden` are not modelled: a `None` from `get_user`, or a failed `edit`. Users are looked up by id only.
- The event handlers run as single sequential steps; `await` scheduling and concurrency are not modelled.
- Pagination.AddNavigation: records which buttons a page shows, not their order; the source adds "Next Page" before "Previous Page".
- Presence.Bot.OnVoiceStateUpdate: a registered entry that `int()` cannot read is treated as a user outside the channel and is sent the message. The source sets that slot to `None`, raises `ValueError` at `int(pinged_id_str)` and abandons the remaining users. The registry's own invariant (`Valid`, kept by `SubmitCount` and `RemoveSelected`) holds only `str()` of ids, but the handler does not require it.
- Pagination.GetErrorForms: the error argument is text. The source formats any object and tests its truthiness; the model only covers text, and treats an empty one as absent.

Behaviour of the code a reader might not expect:

- The reset test counts every member, bots included. The arrival count filters bots, with the loop's skipping behaviour.
- A user who already holds the slot is skipped. The code does not re-edit the message in place.
- A slot for another threshold or an older message is never deleted.
- The occupied-room roster refresh does not exist in the code.
- The past-tense edit appends only ".", not a timestamp.
- Removal of an absent selection raises in the code. It is not a no-op there.
