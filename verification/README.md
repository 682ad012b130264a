# Pink dice party — a Dafny model

This project models the logic of a browser dice game played at a "party". The party's
players and its roll log are kept in a key/value store, one namespace per party code.
Devices in the same party exchange their state over a peer-to-peer room.

The model covers:

* **The store** (module `Storage`). Namespaced keys `bd_players:<code>` and
  `bd_rolls:<code>`, with the `local` default. Reads and writes of the two lists. Every
  write leaves an explicit `Effect` trace: the key written, listeners notified, messages
  sent.
* **The merge engine.**
  * `PlayerMerge`: the player merge. It is last-write-wins by id over an
    insertion-ordered map, with whole-record overwrite.
  * `RollMerge`: the roll merge. It is append-only and de-duplicated by id, then stably
    sorted newest first.
  * `Sync`: the message handler of the room. A `REQUEST` is answered with a snapshot. A
    `RESPONSE`, `PLAYERS` or `ROLLS` message is merged.
* **The local write operations** (module `Mutations`): adding a player, saving a roll,
  recording a best score, and the five removal/clearing operations.
* **The game** (module `Game`), derived from the roll log. The log is replayed oldest
  first into per-player totals. From it follow the next player, the current round, the
  end of the game and the winner. `Game` also clamps the round limit.
* **The player panel** (module `Roster`): the emoji sanitiser, the leader and its crown,
  adding a player, and the "Clear Your Name" button.
* **The dice panel** (module `DicePanel`): the confetti rule, the roll a throw writes and
  the best-score update it triggers, and the flags that decide whether this device may
  throw.

Inputs the program obtains itself are parameters: fresh identifiers, the clock, the dice
values, the party code, the device id, and whether a room is joined.

Several behaviours of the code are stated as lemmas rather than hidden:

* **No ownership check in `removePlayerByName`.** It removes a matching player whoever
  owns it (`RemoveByNameIgnoresOwner`).
* **`saveRoll` does not re-sort.** Once a peer's roll with a later clock has been merged,
  the log is no longer newest first (`SaveRollInvariants`, `SaveRollAfterSkewedPeer`).
* **The player merge reports a change per step.** A remote list that overwrites a record
  and then restores it still counts as changed. A merge whose every remote record is
  already held is a no-op (`MergePlayersResult`, `MergePlayersIdempotent`).
* **Deletions are never replicated.** Rolls cleared on one device come back with the next
  snapshot from a peer (`ClearedRollsReturn`).
* **The round limit can be fractional.** The numeric input lets through a value such as
  2.5, and then the current round shown can exceed the limit (`FractionalLimitOvershoots`).
* **Rolls with no player are tallied under `"null"`.** That key can be declared the winner
  (`UnattributedRollCanWin`).

## Model

| member | source | states |
|---|---|---|
| Common.FilterKeepsOrder | src/firebase/firebaseConfig.js:414 | any relation that holds between each element and every later one still holds after filtering: `filter` keeps the order of what it keeps |
| Common.ConsKeepsOrder | src/firebase/firebaseConfig.js:414 | a head that precedes every element of an ordered tail gives an ordered list |
| Records.FilterKeepsUniquePlayers | src/firebase/firebaseConfig.js:399 | filtering a duplicate-free roster leaves it duplicate-free |
| Records.FilterKeepsRollOrder | src/firebase/firebaseConfig.js:476 | filtering a roll log keeps it newest first and keeps its ids unique |
| Storage.ActiveCode | src/firebase/firebaseConfig.js:306 | the active namespace is the party code, or `local` when that is empty; never empty |
| Storage.KeyDefaults | src/firebase/firebaseConfig.js:66-74 | keys are `bd_players:`/`bd_rolls:` plus the code; with no code the party code is used, or `local` |
| Storage.KeysSeparateNamespaces | src/firebase/firebaseConfig.js:66-74 | two keys coincide exactly when their codes do, and a players key is never a rolls key |
| Storage.ActivePlayersKey | src/firebase/firebaseConfig.js:306-307 | the public operations use the key of the active code |
| Storage.ActiveRollsKey | src/firebase/firebaseConfig.js:333-334 | the rolls counterpart of the active key |
| Storage.WritePlayers | src/firebase/firebaseConfig.js:85-91 | a write is read back, leaves every other key alone, and records the key written |
| Storage.WriteRolls | src/firebase/firebaseConfig.js:85-91 | the same for the roll lists |
| Storage.OnceReadsNamespace | src/firebase/firebaseConfig.js:374-382 | a one-shot read uses the override code when given, else the active namespace |
| Storage.PlayersKey | src/firebase/firebaseConfig.js:66-69 | `nsPlayersKey`: `bd_players:` plus the explicit code, else the active one; no contract of its own, its properties are `KeyDefaults` and `KeysSeparateNamespaces` |
| Storage.RollsKey | src/firebase/firebaseConfig.js:71-74 | `nsRollsKey`: the rolls counterpart; no contract of its own, see the same two lemmas |
| Storage.ReadPlayers | src/firebase/firebaseConfig.js:76-83 | `readLS(key, [])`: the stored list, or the empty list for a missing key; no contract of its own, its read-back property is `WritePlayers` |
| Text.LeadingBlanks | src/firebase/firebaseConfig.js:422-423 | the count of leading whitespace: all before it is whitespace, the character at it is not |
| Text.ContentEnd | src/firebase/firebaseConfig.js:422-423 | where trailing whitespace starts: all from it on is whitespace, the character before it is not |
| Text.Trim | src/firebase/firebaseConfig.js:422-423 | the result is the slice after the leading whitespace with only whitespace around it, and no whitespace left at either end |
| Text.TrimUnique | src/firebase/firebaseConfig.js:422-423 | any slice with only whitespace around it and none at its ends is the trim |
| Text.TrimIdempotent | src/firebase/firebaseConfig.js:427-428 | trimming twice is trimming once |
| Text.PaddedSlice | src/firebase/firebaseConfig.js:413-414 | wrapping a string in any whitespace prefix and suffix keeps each whitespace-surrounded slice so, shifted by the prefix length |
| Text.NormalizeNameIgnoresPadding | src/firebase/firebaseConfig.js:413-414 | any whitespace prefix and suffix leave both the trim and the normalised name of a string unchanged |
| Text.ToLower | src/firebase/firebaseConfig.js:413 | lower-casing keeps the length and maps each character through the ASCII case map |
| Text.NormalizeName | src/firebase/firebaseConfig.js:413-414 | the comparison form of a name: as long as the trimmed name, no upper-case ASCII letter left, empty exactly when the name is blank |
| PlayerMerge.Lookup | src/firebase/firebaseConfig.js:170-174 | the map read finds a record with the id, and finds none exactly when the id is absent |
| PlayerMerge.LastWithId | src/firebase/firebaseConfig.js:173-180 | a record with the id taken from the list, absent exactly when the id is; that it is the last such record is `LastWithIdIsLast` |
| PlayerMerge.LastWithIdIsLast | src/firebase/firebaseConfig.js:173-180 | a record with the id that no later record shares it with is the one returned: the last duplicate wins |
| PlayerMerge.MapSet | src/firebase/firebaseConfig.js:178 | `Map.set`: the map grows by at most one entry; its keys are `MapSetIds`, what each key reads is `MapSetLookup` |
| PlayerMerge.SetAll | src/firebase/firebaseConfig.js:170 | `new Map(entries)`: every record set in order; no contract of its own, its properties are `SetAllIds`, `SetAllLookup` and `SetAllFresh` |
| PlayerMerge.SetChanged | src/firebase/firebaseConfig.js:172-181 | the change-tracking walk; no contract of its own, its properties are `SetChangedList` and `SetChangedFlag` |
| PlayerMerge.MapSetIds | src/firebase/firebaseConfig.js:178 | after `Map.set` the key set is the old keys plus the id set |
| PlayerMerge.MapSetLookup | src/firebase/firebaseConfig.js:178 | `Map.set` makes the id read the new record, leaves other ids alone, and keeps ids unique |
| PlayerMerge.SetAllLookup | src/firebase/firebaseConfig.js:173-181 | after all remote records are set, a remote id reads its last remote record and any other id its old record |
| PlayerMerge.SetAllIds | src/firebase/firebaseConfig.js:173-184 | the merged ids are the union of local and remote ids, without duplicates |
| PlayerMerge.MapSetFresh | src/firebase/firebaseConfig.js:178 | setting a new id appends it at the end |
| PlayerMerge.SetAllFresh | src/firebase/firebaseConfig.js:173-184 | distinct new ids are appended in remote order |
| PlayerMerge.MapSetIdentical | src/firebase/firebaseConfig.js:175-178 | setting an identical record leaves the map as it was |
| PlayerMerge.SetChangedList | src/firebase/firebaseConfig.js:172-181 | the change-tracking loop builds the same map as setting every remote record |
| PlayerMerge.SetChangedFlag | src/firebase/firebaseConfig.js:172-181 | nothing is reported changed exactly when every remote record is already held identically, and then the map is unchanged |
| PlayerMerge.MergePlayerLists | src/firebase/firebaseConfig.js:167-187 | no change means the local list itself, and an empty remote list changes nothing; the full result is `MergePlayersResult` |
| PlayerMerge.MapFromUniqueList | src/firebase/firebaseConfig.js:170 | building the map from a duplicate-free list keeps that list |
| PlayerMerge.LookupUnique | src/firebase/firebaseConfig.js:174 | in a duplicate-free list a member is found under its id |
| PlayerMerge.LastWithIdUnique | src/firebase/firebaseConfig.js:173-180 | in a duplicate-free remote list a member is the record left for its id |
| PlayerMerge.MergePlayersResult | src/firebase/firebaseConfig.js:167-187 | ids become the union; remote ids read their last remote record, other ids keep their local one; unchanged exactly when all remote records are held identically, and then nothing changes |
| PlayerMerge.MapSetHidden | src/firebase/firebaseConfig.js:178 | setting a record leaves the records of all other ids, in order |
| PlayerMerge.SetAllHidden | src/firebase/firebaseConfig.js:173-181 | setting remote records leaves the records of ids outside the remote list, in order |
| PlayerMerge.MergePlayersKeepsOthers | src/firebase/firebaseConfig.js:170-185 | local players whose ids are not remote survive unchanged and in their original order |
| PlayerMerge.MergePlayersIdempotent | src/firebase/firebaseConfig.js:172-187 | when every remote record is already held, nothing is reported changed and the list stays |
| PlayerMerge.MergePlayersTwice | src/firebase/firebaseConfig.js:167-187 | merging the same remote list again changes nothing |
| PlayerMerge.MergePlayersConverge | src/firebase/firebaseConfig.js:167-187 | two devices whose shared ids hold equal records read the same record for every id after merging each other's lists |
| PlayerMerge.MergePlayersSwapOnConflict | src/firebase/firebaseConfig.js:173-180 | on a conflict the receiver always takes the sender's record, so two devices swap versions |
| RollMerge.FirstRollWithId | src/firebase/firebaseConfig.js:198-203 | a roll with the id taken from the list, absent exactly when the id is; that it is the first such roll is `FirstRollWithIdIsFirst` |
| RollMerge.FirstRollWithIdIsFirst | src/firebase/firebaseConfig.js:198-203 | a roll with the id that no earlier roll shares it with is the one returned: the first duplicate wins |
| RollMerge.FreshRolls | src/firebase/firebaseConfig.js:193-204 | the walk never adds more rolls than the remote list holds |
| RollMerge.FreshRollsSpec | src/firebase/firebaseConfig.js:193-204 | the rolls added are the first remote roll of each id not already held, once each, and their ids are exactly the unheld remote ids |
| RollMerge.FreshRollsFirst | src/firebase/firebaseConfig.js:198-203 | each added roll had an unheld id and is the first remote roll with that id |
| RollMerge.FreshRollsIds | src/firebase/firebaseConfig.js:193-204 | the ids added are the remote ids minus the held ones |
| RollMerge.FreshRollsUnique | src/firebase/firebaseConfig.js:193-204 | no id is added twice, because an added id joins the held set |
| RollMerge.InsertNewestFirst | src/firebase/firebaseConfig.js:208 | insertion adds exactly the one roll |
| RollMerge.InsertKeepsOrder | src/firebase/firebaseConfig.js:208 | inserting into a newest-first list keeps it newest first |
| RollMerge.InsertKeepsUnique | src/firebase/firebaseConfig.js:208 | inserting a roll with a new id keeps ids unique |
| RollMerge.SortNewestFirst | src/firebase/firebaseConfig.js:208 | the sort is a permutation ordered by non-increasing `createdAt` |
| RollMerge.SortKeepsUnique | src/firebase/firebaseConfig.js:208 | sorting keeps ids unique |
| RollMerge.SortSortedIsIdentity | src/firebase/firebaseConfig.js:208 | sorting an already newest-first list returns it unchanged |
| RollMerge.MergeRollsChangeFlag | src/firebase/firebaseConfig.js:195-211 | a change is reported exactly when a remote id was unknown; the result is then newest first, otherwise the local list itself |
| RollMerge.MergeRollLists | src/firebase/firebaseConfig.js:190-211 | no change means the local list itself; a change leaves a longer, newest-first list; an empty remote list changes nothing; the contents are `MergeRollsContents` |
| RollMerge.MergeRollsContents | src/firebase/firebaseConfig.js:196-204 | the result holds exactly the local rolls plus the fresh remote rolls |
| RollMerge.MergeRollsAppendOnly | src/firebase/firebaseConfig.js:190-211 | every local roll survives, the length never drops, and the ids become the union |
| RollMerge.RollIdsOfPermutation | src/firebase/firebaseConfig.js:208 | reordering keeps the set of ids |
| RollMerge.MergeRollsKeepsUnique | src/firebase/firebaseConfig.js:193-208 | a duplicate-free log stays duplicate-free |
| RollMerge.MergeRollsSubsetNoop | src/firebase/firebaseConfig.js:198-206 | merging rolls whose ids are all held is a no-op |
| RollMerge.MergeRollsTwice | src/firebase/firebaseConfig.js:190-211 | merging the same remote list again is a no-op |
| RollMerge.AddedFromRemote | src/firebase/firebaseConfig.js:198-203 | an added roll comes from the remote list and had an unknown id |
| RollMerge.RemoteRollAdded | src/firebase/firebaseConfig.js:198-203 | with consistent ids, a remote roll not held locally is added |
| RollMerge.MergeRollsUnion | src/firebase/firebaseConfig.js:190-211 | with consistent ids the merged log holds exactly the rolls of both sides |
| RollMerge.MergeRollsConverge | src/firebase/firebaseConfig.js:190-211 | two devices merging each other's logs hold the same rolls |
| RollMerge.MergeSingletons | src/firebase/firebaseConfig.js:190-211 | merging one roll into a list holding one other roll sorts the pair |
| RollMerge.SortPair | src/firebase/firebaseConfig.js:208 | sorting two rolls puts the strictly newer first and keeps the order on a tie |
| RollMerge.MergeRollsTwoDevices | src/firebase/firebaseConfig.js:208 | a concrete case of `MergeRollsSameOrder`: two devices holding one roll each, at different times, both end with the newer roll first |
| RollMerge.StrictFromDistinct | src/firebase/firebaseConfig.js:208 | a newest-first, duplicate-free list whose rolls carry distinct timestamps is strictly ordered |
| RollMerge.StrictOrderDetermined | src/firebase/firebaseConfig.js:208 | two strictly ordered lists holding the same rolls are equal: the sort leaves no choice |
| RollMerge.StrictHeadsEqual | src/firebase/firebaseConfig.js:208 | two such lists start with the same, newest, roll |
| RollMerge.StrictTail | src/firebase/firebaseConfig.js:208 | the tail of a strictly ordered list is strictly ordered and holds all rolls but the head |
| RollMerge.MergeRollsKeepsInvariant | src/firebase/firebaseConfig.js:190-211 | merging into a newest-first, duplicate-free log leaves it newest first and duplicate-free |
| RollMerge.MergeRollsSameOrder | src/firebase/firebaseConfig.js:190-211 | two devices with newest-first, duplicate-free, consistent logs whose rolls all have distinct timestamps end with the very same list, order included, after merging each other's snapshot |
| Sync.MergePlayers | src/firebase/firebaseConfig.js:167-188 | the room's list becomes the merge; written and listeners notified exactly when changed, otherwise nothing happens |
| Sync.MergeRolls | src/firebase/firebaseConfig.js:190-212 | the same for the room's roll log |
| Sync.MergeSomePlayers | src/firebase/firebaseConfig.js:163 | a present player list is merged into the room; an absent one changes nothing; rolls are untouched and nothing is sent |
| Sync.MergeSomeRolls | src/firebase/firebaseConfig.js:164 | a present roll list is merged into the room; an absent one changes nothing; players are untouched and nothing is sent |
| Sync.MergeData | src/firebase/firebaseConfig.js:162-165 | a snapshot merges the players and the rolls it carries and nothing else, and sends nothing |
| Sync.HandleMessage | src/firebase/firebaseConfig.js:123-143 | a request is answered to its sender with the room's lists and changes nothing; a response runs both merges; a players or rolls delta runs that merge; only the room's keys change; only requests send |
| Sync.WrongChannelIgnored | src/firebase/firebaseConfig.js:123-143 | a message of another channel's kind, or of no known kind, is ignored |
| Sync.ResponseBringsPeerState | src/firebase/firebaseConfig.js:125-132 | after the request/response exchange the requester reads the responder's record for each of its ids, keeps its own for the rest, and holds the union of roll ids |
| Sync.OwnStateIsNoop | src/firebase/firebaseConfig.js:125-132 | merging a snapshot of one's own state changes nothing and notifies nobody |
| Sync.AddedPlayerReachesPeer | src/firebase/firebaseConfig.js:324-327 | an added player's announcement makes a peer read that record under its id |
| Sync.SavedRollReachesPeer | src/firebase/firebaseConfig.js:347-350 | a saved roll's announcement puts that roll in a peer's log |
| Sync.ClearedRollsReturn | src/firebase/firebaseConfig.js:384-393 | after clearing, a peer's snapshot brings back exactly the peer's roll ids |
| Mutations.AddPlayer | src/firebase/firebaseConfig.js:305-330 | the new record has the given name and emoji, score 0, no dice, this device as owner, and the active code; it is appended; announced only in a room |
| Mutations.AddPlayerKeepsUnique | src/firebase/firebaseConfig.js:310-322 | with a fresh id the list stays duplicate-free and the id reads the new record |
| Mutations.StampRoll | src/firebase/firebaseConfig.js:337-342 | the stored roll is the entry plus id, time and code, and the entry can be recovered from it |
| Mutations.SaveRoll | src/firebase/firebaseConfig.js:332-351 | the stamped roll goes in front of the old log, which is otherwise unchanged; announced only in a room |
| Mutations.SaveRollInvariants | src/firebase/firebaseConfig.js:344 | the log stays newest first exactly when the clock is not behind its head; a fresh id keeps ids unique |
| Mutations.SaveRollAfterSkewedPeer | src/firebase/firebaseConfig.js:344 | a concrete log that saving leaves out of order |
| Mutations.UpdateMatching | src/firebase/firebaseConfig.js:359-365 | every record with the id gets the new score and dice; all others are kept; the length is kept |
| Mutations.UpdatePlayerHighest | src/firebase/firebaseConfig.js:353-372 | the list is rewritten with the new score, and the updated record is announced only if one matched |
| Mutations.UpdateMatchingIds | src/firebase/firebaseConfig.js:359-365 | ids, their order and their uniqueness are kept |
| Mutations.UpdateMatchingFrame | src/firebase/firebaseConfig.js:361 | only the two score fields of matching records change |
| Mutations.UpdateMatchingLookup | src/firebase/firebaseConfig.js:359-365 | the id reads its old record with the new score; other ids read what they read before |
| Mutations.UpdateMatchingIdempotent | src/firebase/firebaseConfig.js:359-365 | the same update twice is the update once |
| Mutations.RemovePlayer | src/firebase/firebaseConfig.js:395-402 | the new list is the in-order filter of the old one without the id, so survivors keep their order and count; the id is gone, every other id stays; unique ids stay unique; not announced |
| Mutations.OtherIdIds | src/firebase/firebaseConfig.js:399 | dropping the records of one id removes exactly that id from the id set |
| Mutations.RemoveUndoesAdd | src/firebase/firebaseConfig.js:395-402 | removing a freshly added player restores the list |
| Mutations.RemovePlayerByName | src/firebase/firebaseConfig.js:409-416 | the new list is the in-order filter keeping exactly the records whose normalised name differs; unique ids stay unique |
| Mutations.RemoveByNameIgnoresOwner | src/firebase/firebaseConfig.js:409-416 | another device's record is removed by its name given with any whitespace around it |
| Mutations.RemovePlayerByNameEmoji | src/firebase/firebaseConfig.js:418-440 | the new list is the in-order filter keeping exactly the records not matching name, emoji (if given) and this device; the count is the drop in length; unique ids stay unique |
| Mutations.OwnedMatch | src/firebase/firebaseConfig.js:426-434 | the selector of both name/emoji operations: normalised name, trimmed emoji when one is given, and this device as owner; no contract of its own, its properties are `RemoveByNameEmojiCount` and `RemoveByNameEmojiOwnership` |
| Mutations.Broadcasts | src/firebase/firebaseConfig.js:325 | `sendAction && code !== 'local'`; no contract of its own, `AddPlayer` and `SaveRoll` state when it announces |
| Mutations.RemoveByNameEmojiCount | src/firebase/firebaseConfig.js:425-439 | the count is positive exactly when some record of this device matched |
| Mutations.RemoveByNameEmojiOwnership | src/firebase/firebaseConfig.js:426-436 | other devices' records always survive; with no match the count is 0 and the list unchanged |
| Mutations.IdsOf | src/firebase/firebaseConfig.js:456 | the ids of a list, position by position |
| Mutations.SelectedIds | src/firebase/firebaseConfig.js:450-458 | the selected ids are those of selected players, and empty exactly when none is selected |
| Mutations.ClearClaimedRolls | src/firebase/firebaseConfig.js:458-464 | with no selected player nothing happens; otherwise the log is the in-order filter dropping exactly the selected players' rolls, counted; a newest-first, duplicate-free log stays so; other keys are untouched |
| Mutations.ClearClaimedRollsCount | src/firebase/firebaseConfig.js:462-464 | the count is 0 exactly when the log is unchanged |
| Mutations.ClearMyRollsByNameEmoji | src/firebase/firebaseConfig.js:442-465 | exactly the rolls of this device's players matching name and emoji are removed, in order; no match means no write, no effect and count 0, else one write; a newest-first, duplicate-free log stays so; other keys are untouched |
| Mutations.ClearDeviceRolls | src/firebase/firebaseConfig.js:467-480 | exactly the rolls of this device's players are removed, in order; no such player means no write, no effect and count 0, else one write; a newest-first, duplicate-free log stays so; other keys are untouched |
| Mutations.ClearDeviceRollsKeepsOthers | src/firebase/firebaseConfig.js:471-477 | a roll with no player, or of another device's player, survives |
| Mutations.ClearRolls | src/firebase/firebaseConfig.js:384-393 | the active log becomes empty and nothing else changes; not announced |
| Mutations.ClearPlayers | src/firebase/firebaseConfig.js:404-407 | the active roster becomes empty and nothing else changes |
| Game.ClampRounds | src/App.jsx:94-97 | the limit lies in 1..20; NaN, 0 and minus infinity give 1; a value inside is kept; one above gives 20 |
| Game.ClampRoundsIdempotent | src/App.jsx:94-97 | clamping a clamped limit changes nothing |
| Game.Replay | src/App.jsx:44 | the replay is the log reversed |
| Game.ReplayStep | src/App.jsx:44 | the newest roll is the last replay step |
| Game.KeyIndex | src/App.jsx:49 | a key's position in the totals object, or -1 when absent |
| Game.KeyIndexAt | src/App.jsx:49 | a first occurrence is the key's position |
| Game.AddTo | src/App.jsx:49 | adding keeps existing keys in place and appends a new key at the end |
| Game.AddToKeys | src/App.jsx:49 | adding adds the key and keeps keys unique |
| Game.AddToSums | src/App.jsx:49 | adding raises that key's sum by the amount and no other |
| Game.Totals | src/App.jsx:44-51 | the totals object has each key once |
| Game.TotalsAreSums | src/App.jsx:44-51 | each key's total is the sum of its rolls' totals, and the keys are exactly the players seen in the log |
| Game.KeysInCons | src/App.jsx:48-51 | a log's keys are its newest roll's key plus the rest |
| Game.FirstPosSpec | src/App.jsx:48-51 | the first position holds the key, and no earlier one does |
| Game.FirstPosSnoc | src/App.jsx:48-51 | one more replay step keeps the first positions of keys already seen |
| Game.TotalsKeys | src/App.jsx:48-51 | the totals keys are the keys of the replay |
| Game.TotalsFirstAppearance | src/App.jsx:48-51 | the totals list keys in order of their first roll in the replay |
| Game.BestIndex | src/App.jsx:74-77 | the reduction picks a maximal total with only smaller totals before it |
| Game.BestIndexIsFirstMaximum | src/App.jsx:74-77 | that is the only entry the reduction can pick |
| Game.WinnerOf | src/App.jsx:78 | the winner is the picked key unless it is empty, and is one of the keys |
| Game.FindPlayer | src/App.jsx:60 | the first player with the roll's id, or -1 |
| Game.NextTurn | src/App.jsx:60-66 | the next index is valid: after the last roller, wrapping, or 0 if not found |
| Game.Derive | src/App.jsx:34-85 | no players or no rolls reset the game; otherwise the turn follows the newest roller and the round, end of game and winner follow from the finished rounds |
| Game.TurnAfter | src/App.jsx:60-66 | in a duplicate-free roster the seat after the one holding an id comes next, wrapping; an unknown id gives seat 0 |
| Game.DeriveNextTurn | src/App.jsx:60-66 | in a duplicate-free roster, the player after the newest roller moves next; nobody found gives the first player |
| Game.DeriveRoundInRange | src/App.jsx:68-83 | with a whole-number limit the current round lies in 1..limit |
| Game.FractionalLimitOvershoots | src/App.jsx:68-83 | with a limit of 2.5 the current round shown is 3 |
| Game.DeriveWinner | src/App.jsx:71-79 | the winner is the picked key; its total is the sum of its rolls and nobody has more |
| Game.BestIndexEarliest | src/App.jsx:74-77 | among equal totals the pick comes first in first-appearance order |
| Game.DeriveWinnerEarliestOfTies | src/App.jsx:73-78 | among tied players the winner is the one whose first roll came earliest |
| Game.UnattributedRollCanWin | src/App.jsx:49 | rolls with no player are tallied under `"null"`, which can win |
| Roster.SanitizeEmoji | src/components/Players.jsx:37-41 | empty stays empty, anything with the crown becomes the ribbon, anything else is kept; no crown comes out |
| Roster.SanitizeEmojiIdempotent | src/components/Players.jsx:37-41 | sanitising twice is sanitising once |
| Roster.LeaderIndex | src/components/Players.jsx:32-35 | the reduction keeps a maximal best score with only lower scores before it |
| Roster.Leader | src/components/Players.jsx:32-35 | no leader exactly for an empty roster, otherwise a member |
| Roster.LeaderIsFirstMaximum | src/components/Players.jsx:32-35 | the leader is the earliest record with the highest best score |
| Roster.Glyph | src/components/Players.jsx:135 | the leader shows the crown; anyone else shows their own emoji, or the smiley when it is empty, so a crown only if their emoji holds one |
| Roster.ShowsCrown | src/components/Players.jsx:127 | `isLeader`: the record has the leader's id and the leader has scored; no contract of its own, its properties are `CrownIsUniqueAndDeserved` |
| Roster.CrownIsUniqueAndDeserved | src/components/Players.jsx:127 | in a duplicate-free roster at most one player wears the crown, it is a top scorer with a positive score, and nobody wears it before anyone scores |
| Roster.SameIdSameRecord | src/components/Players.jsx:127 | in a duplicate-free roster an id names one record |
| Roster.OnAdd | src/components/Players.jsx:43-51 | a blank name adds nothing; otherwise the trimmed name and trimmed, sanitised emoji are added |
| Roster.AddedPlayerCannotFakeCrown | src/components/Players.jsx:43-47 | a player added through the panel shows a crown exactly when it is the leader |
| Roster.OnAddStoresTrimmedName | src/components/Players.jsx:43-47 | the stored name is the trimmed name, appended to the roster |
| Roster.ClearYourName | src/components/Players.jsx:167-190 | a blank name only asks for one; otherwise the matching records of this device are removed and the notice says whether any were |
| Roster.ClearYourNameReportsTruthfully | src/components/Players.jsx:169-185 | exactly this device's matching records go, and "Removed" is said exactly when one existed |
| Roster.NormalizeNameIdempotentTrim | src/components/Players.jsx:170 | trimming before normalising changes nothing |
| DicePanel.ConfettiMeansAverageAboveFive | src/components/Dice.jsx:64-69 | for real dice, confetti fires exactly when one to three dice average more than five, never otherwise |
| DicePanel.ShouldConfetti | src/components/Dice.jsx:64-69 | confetti fires only for one to three dice whose sum exceeds five per die |
| DicePanel.CurrentPlayer | src/App.jsx:87 | the player at the turn index, or none outside the roster |
| DicePanel.EntryFor | src/components/Dice.jsx:86-94 | the entry's total is the sum of the dice and its count their number; the id is the player's unless empty or absent; the name defaults to `Guest` |
| DicePanel.RollDice | src/components/Dice.jsx:78-98 | the roll goes in front of the log carrying the entry built from the current player (or "Guest"), the dice, their sum, the session and the round, with the rest of the log unchanged; the best score is rewritten exactly when a current player had less |
| DicePanel.RollKeepsBestScore | src/components/Dice.jsx:96-98 | afterwards the player's best is the larger of old best and sum, and other players are untouched |
| DicePanel.RollAddsToTotal | src/components/Dice.jsx:83-95 | a throw raises its player's running total in the game by its sum and no other total |
| DicePanel.ThrowAllowedExactly | src/components/Dice.jsx:103-109 | this device may throw exactly when nothing is rolling, the game has players and no winner, and the player to move belongs to this device |
| DicePanel.Disabled | src/components/Dice.jsx:103 | a throw is running, there is no current player, or a winner exists; no contract of its own, see `ThrowAllowedExactly` |
| DicePanel.Authorized | src/components/Dice.jsx:104-108 | the current player was created on this device; no contract of its own, see `ThrowAllowedExactly` |
| DicePanel.RollDisabled | src/components/Dice.jsx:109 | disabled, or not authorized; no contract of its own, see `ThrowAllowedExactly` |
| DicePanel.RaisesBest | src/components/Dice.jsx:96 | a current player whose best score is below the sum; no contract of its own, `RollDice` and `RollKeepsBestScore` state its effect |

## Left out

- The peer-to-peer transport is left out, as are room joining and leaving, the peer-join
  request, the one-second re-request timer, and the `sendAction` lifecycle. They are I/O.
  Whether a room is joined is the `online` field of `Session`, and sends are recorded as
  effects.
- Store events are left out: the `storage`/custom events and the listener sets behind
  `subscribePlayers`/`subscribeRolls`. A write and a notification are effects. Global
  listener state and its fan-out are not modelled.
- `getDeviceId`, `safeUUID`, `crypto.randomUUID`, `Date.now`, `Math.random` and party-code
  generation are nondeterministic. Their values are parameters.
- `setPartyCode` and `getPartyCode` persistence are not modelled. The active code is
  `Session.partyCode`.
- JSON parsing and serialisation are left out, along with the try/catch fallbacks. A
  missing key reads as the empty list. A corrupt stored value is not modelled.
- The player merge compares records with `JSON.stringify`; the model compares them
  structurally. Serialisation order of properties is not modelled.
- Sync.HandleMessage: a `PLAYERS`/`ROLLS` message without a payload throws in the JavaScript.
  The model's messages always carry one.
- Records are taken with their `|| ''`/`|| 0` defaults already applied. A record from a
  peer with missing or non-numeric fields (`createdAt`, `highestTotal`) is not modelled,
  so NaN comparisons in the sort are out of scope.
- Text.ToLower: lower-casing covers ASCII letters only. Full Unicode case mapping is not
  modelled.
- Game.Totals: the object-key order is insertion order. JavaScript lists integer-like keys
  first, and that rule is not modelled.
- Game.ClampRounds: the conversion `Number(value)` from an input string is not modelled.
  The model starts from the resulting number.
- RollMerge.MergeRollsSameOrder: the identical order is proved for logs that are newest
  first, duplicate-free and free of shared timestamps. Rolls with equal `createdAt` keep
  each side's own order under the stable sort, so two devices can list them differently,
  and a log that `saveRoll` left out of order stays so when a merge adds nothing.
- RollMerge.SortNewestFirst: stability (equal times keep their order) is built into the
  definition but is not stated as a lemma of its own.
- Derived values the panels only display are not modelled: `winnerName`, the
  `Highest:` line, `Round x/y`.
- Rendering, audio, confetti animation, the history tab, formatting, and the About, Navbar,
  Footer and theme components are presentation.
- The Join/Generate party-code buttons of the player panel are not modelled. They only
  change the code and reset the game.
