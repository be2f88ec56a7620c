# Blconf: the property store, its files, and the client cache

Blconf keeps configuration in channels. A daemon holds one tree of properties per channel, with a user value, a system
default and a lock at each node, and saves the user layer as XML. Clients cache a channel's properties and talk to the
daemon with asynchronous calls and signals. This project models these parts and proves what they promise.

The pieces, from the bottom up:

- `Sequences`, `Paths`, `Names`, `Values`: loop steps over sequences; names as strings and as paths; the validators; the
  values a property can hold.
- `PropertyMap`: the store as a map from paths to records (user value, default, lock), and what set, reset, recursive
  reset and flattening do to that map.
- `PropertyTree`: the linked tree. Nodes have parent and child pointers and are linked and unlinked in place; every method
  is proved against the map.
- `Numerals`, `NumeralForms`: printing scalars and reading them back with base 0 (section 7.22.1.4 of C11, 64-bit `long`);
  exactly which texts are numerals, and what they denote.
- `SettingsFile`, `Acceptance`: settings files as start and end events; the event-driven parser with its single path
  buffer against the meaning of nested documents; exactly which elements are refused.
- `LoadOrder`, `LoadRule`, `LockRule`, `Writer`: the declarative rule for a list of prioritised files; whom their lock
  directives lock out; writing and reading back.
- `ChannelFiles`: the parser and the writer on the linked tree, field by field and loop by loop.
- `AnyFile`: what reading a file can do to a channel, well-formed or not.
- `Durability`: runs of the backend over all its channels: loading, setting, resetting, the save timer, flushing.
- `LockRuns`: locks over those runs, exactly which locks stand, and exactly when durability needs them to.
- `Backend`: the backend object, with its table of channels that each own a tree, refining the steps of `Durability`.
- `CacheTables`, `Cache`, `Rollback`: the client's three tables, the object that mutates them, and what a client reads
  between a set and its reply.
- `Protocol`, `Convergence`: one client, the bus and the daemon as a step system, with other writers; convergence.
- `PendingCalls`: the bookkeeping of calls in flight and cancelled calls over whole runs.
- `Staleness`: the exact condition under which an edit, by another writer or by the client, leaves the cache wrong.
- `Daemon`: the daemon's requests and its queue of idle notifications over the backend, tied to the steps of `Protocol`.
- `Alignment`, `StructPack`: the aligned struct packer of the channel API.

## Main results

- `Convergence.ConvergesFor`, `ConvergesForLong`, `Converges`: however sets, lookups, resets, replies and signals
  interleave with the daemon and other writers, once nothing is in flight what is cached of a property is the daemon's
  effective value. For a property without one-character components this holds in every run; for any other, in every run
  that does not drop it under its rebuilt, too short name. `Staleness.KeyRightAgainIff` and `Staleness.OwnResetRightIff`
  say exactly when one such drop leaves the cache wrong for good.
- `PendingCalls.RecordsAreCallsInFlight` and `PendingCalls.DeliveredReplyFindsItsRecord`: records and uncancelled calls
  in flight correspond one to one, in every run.
- `Rollback.ReadYourWrites` and `Rollback.FailureRestores`: optimistic sets are visible at once, and a failing reply
  restores what was there before the first set of the chain.
- `SettingsFile.ParserReadsDoc`, `LoadRule.SystemRule`, `LoadRule.UserRule`, `LockRule.WhoIsLockedOut`,
  `Writer.WriteThenRead`: the parser's buffer is a stack, files combine by a rule that does not mention the order of
  merging, lock directives lock out whom they name, and writing is undone by reading.
- `NumeralForms.NumeralMeaning`, `NumeralForms.OnlyNumeralsCount`: the numbers in settings files are the C integer constants.
- `Durability.Durable`, `LockRuns.DurableIff`, `LockRuns.DurableWhenLocked`, `LockRuns.LockStandsIff`: what is in memory
  is on its way to disk or already there, and locked properties keep their defaults, over every run of the backend and
  whatever the files hold, with exact conditions.
- `PropertyTree`, `ChannelFiles`, `Backend` and `Daemon` carry these results down to the objects that are updated in
  place: pointers, buffers, tables and queues.
- `StructPack.StructRoundTrip`: structs survive being sent as arrays.

## Where the code and its documentation disagree

The model follows the code.

- A system file without any lock attribute is merged into a channel that an earlier file locked, although the policy
  comment says that files that do not maintain the lock are not used (`blconfd/blconf-backend-perchannel-xml.c:1086-1120`).
  Only a file with a directive that would unlock contributes nothing.
- The specification calls channel and property names case-insensitive (`docs/spec/general.txt:17-24`). The store compares
  them exactly; a channel asked for with upper-case letters is filed under another name (`Durability.ReadBack`,
  `Durability.ForgottenUnderItsName`).
- The specification and the error message list fewer characters than the validators accept, `|` among them.
- `blconf_backend_reset` promises to reset the channel for the name "" (`blconfd/blconf-backend.c:367-372`), but its first
  guard rejects the empty name; only "/" does it.
- A whole-channel reset without a user file does all its work and then reports failure, because there is nothing to unlink
  (`Backend.XmlBackend.ResetChannel`).
- Properties whose names come from files are not validated. If such a name is outside the grammar, its notification goes
  out as a removal, because the value is read through the validator (`Daemon.SignalIsRead`).
- A recursive reset of "/" evicts nothing from the cache (`CacheTables.RootEvictsNothing`). The signals then correct the
  cache, except for properties with a one-character component, which stay wrong (`Staleness.OwnResetRightIff`).
- An unsigned 8- or 32-bit numeral with a minus sign is accepted when it wraps modulo 2^64 into range
  (`Numerals.DecimalMeaning`).
- A struct's boolean member other than 0 or 1 comes back as 1 (`StructPack.LoadStore`).

## Standing assumptions

- Locks: durability and convergence ask that every lock is guarded: at or below it there is a system default, as in a
  locked channel whose branches of type "empty" lead to defaults, or a locked property whose name no request can spell
  (`PropertyMap.Guards`). It is asked per channel (`Durability.AllGuarded`; `Protocol.Sound`). Durability cannot do
  without it: any other lock can be lost, because pruning does not look at locks (`LockRuns.LockStandsIff`), and with it
  durability (`LockRuns.DurableIff`). Lock safety itself asks it only of the lock in question.
- Files may hold anything, as long as their properties have no empty component in their names.
- Channel names in runs are valid and in lower case, and property names in requests are valid, as all others are refused
  before they reach the store.
- Which user lists name the current user is a parameter (`Reader.inList`); so is what the files hold.

## Model

| member | source | states |
|---|---|---|
| Paths.SplitParts | blconfd/blconf-backend-perchannel-xml.c:792-794 | splitting any absolute name after its leading slash yields exactly the components of the path the tree descends |
| Paths.CutJoin | blconfd/blconf-backend-perchannel-xml.c:433-439 | truncating a full name at its last slash gives exactly the parent's full name, whatever was appended before |
| Paths.BuiltNameIsJoin | blconfd/blconf-backend-perchannel-xml.c:936-961 | the name rebuilt by the upward walk is the property's full name if and only if no component on the way is a single character |
| Paths.BuiltNameIsRest | blconfd/blconf-backend-perchannel-xml.c:936-961 | wherever the upward walk stops, the rebuilt name is the rest of the full name below that point |
| Paths.BuiltNameFinds | blconfd/blconf-backend-perchannel-xml.c:783-818 | descending by the name the upward walk rebuilt leads back to the same node if and only if no component is a single character |
| Names.PropertyIsValid | blconfd/blconf-backend.c:94-153 | the one-pass validator accepts a string if and only if it is a sequence of non-empty components over the alphabet, each preceded by a slash |
| Names.ChannelIsValid | blconfd/blconf-backend.c:155-187 | accepts exactly the non-empty strings over the channel alphabet |
| Names.Alphabets | blconfd/blconf-backend.c:118-150 | the characters of property and channel names are exactly these code points; a channel name has no angle brackets |
| Names.PassIsGrammar | blconfd/blconf-backend.c:118-150 | the local character tests of one pass agree with the grammar of names on every string |
| Names.AcceptedName | blconfd/blconf-backend-perchannel-xml.c:67 | every accepted name passes the tree's own validity macro, names exactly one path, and is restored by splitting and rejoining |
| PropertyMap.SetEffect | blconfd/blconf-backend-perchannel-xml.c:316-347 | a set changes the user value of its own path and nothing else: no default, no lock, no other user value; unlocked, it is what a read then finds |
| PropertyMap.PruneStop | blconfd/blconf-backend-perchannel-xml.c:895-908 | where the upward walk stops, exactly the chain of valueless childless nodes has been unlinked, never the root |
| PropertyMap.ResetEffect | blconfd/blconf-backend-perchannel-xml.c:871-916 | a reset removes the named user value only; pruning its empty ancestors changes no other value and no default; a lock stays wherever there is a default at or below it, and, as requests can spell what they prune, wherever there is a locked name outside the grammar |
| PropertyMap.ResetKeepsLocks | blconfd/blconf-backend-perchannel-xml.c:895-908 | a reset keeps every lock if and only if the node itself stays, or each locked node at or above it is propped up by a value or another branch, since pruning does not look at locks |
| PropertyMap.LockLost | blconfd/blconf-backend-perchannel-xml.c:895-908 | a concrete tree in which resetting the last property below a locked branch without any default drops the lock |
| PropertyMap.RecursiveResetEffect | blconfd/blconf-backend-perchannel-xml.c:645-667 | a recursive reset leaves no user value at or below the base, and no value, default or lock elsewhere is touched |
| PropertyMap.RecursiveResetSurvivors | blconfd/blconf-backend-perchannel-xml.c:556-572 | a node below the base survives if and only if it or a descendant has a default or a lock; all nodes elsewhere survive |
| PropertyMap.FlattenedIsRead | blconfd/blconf-backend-perchannel-xml.c:398-441 | the flattened table maps a name to a value exactly when the name is the base or continues it after a slash and a read of that name finds the value |
| PropertyTree.PropTree.FindChild | blconfd/blconf-backend-perchannel-xml.c:798-808 | the sibling loop finds the child of that name, if and only if there is one |
| PropertyTree.PropTree.LookupNode | blconfd/blconf-backend-perchannel-xml.c:783-818 | finds the node of a valid name exactly when the map has its path, and finds that node |
| PropertyTree.PropTree.AddProperty | blconfd/blconf-backend-perchannel-xml.c:835-869 | the map gains the property and precisely its missing ancestors, without values; every node already there stays where it was |
| PropertyTree.PropTree.ParentFor | blconfd/blconf-backend-perchannel-xml.c:849-857 | the parent node of a new property, created through the recursion on the truncated name when missing |
| PropertyTree.PropTree.SetProperty | blconfd/blconf-backend-perchannel-xml.c:316-347 | on the linked tree: refuses locked properties, writes nothing when the value is a scalar equal to the effective one, writes in every other case, arrays included, as the map does |
| PropertyTree.PropTree.GetProperty | blconfd/blconf-backend-perchannel-xml.c:370-396 | reads the user value, else the default, of the node with that name |
| PropertyTree.PropTree.PropertyLocked | blconfd/blconf-backend-perchannel-xml.c:735-737 | the node's own lock, false for a property that is not in the tree |
| PropertyTree.PropTree.Reset | blconfd/blconf-backend-perchannel-xml.c:871-916 | succeeds exactly when the named node has a user value; the linked tree then is what deletion and pruning make of the map, else it is unchanged |
| PropertyTree.PropTree.UnlinkChain | blconfd/blconf-backend-perchannel-xml.c:887-909 | the parent loop ends, at the root at the latest, having unlinked exactly the chain that is pruned from the map |
| PropertyTree.PropTree.BuildPropName | blconfd/blconf-backend-perchannel-xml.c:936-961 | walking up and prepending yields the rebuilt name, cut short at a one-character component |
| PropertyTree.PropTree.ClearUsers | blconfd/blconf-backend-perchannel-xml.c:530-554 | the post-order traversal clears every user value at or below the node and reports each cleared property once, under its rebuilt name |
| PropertyTree.PropTree.CleanUp | blconfd/blconf-backend-perchannel-xml.c:556-572 | the post-order traversal unlinks exactly the nodes from which no value and no lock can be reached, while it is walking over them |
| PropertyTree.PropTree.ResetBelow | blconfd/blconf-backend-perchannel-xml.c:645-667 | both traversals together do to the linked tree what a recursive reset does to the map, with one notification for each user value dropped |
| PropertyTree.PropTree.ClearAll | blconfd/blconf-backend-perchannel-xml.c:574-584 | resetting a channel drops every user value in it, with one notification each |
| PropertyTree.PropTree.NodeToHashTable | blconfd/blconf-backend-perchannel-xml.c:398-441 | adds every value at or below the node under its full name, and gives the shared path buffer back as it was received |
| PropertyTree.PropTree.GetAll | blconfd/blconf-backend-perchannel-xml.c:443-486 | at and under the base the table is what reads by name find, elsewhere it is empty; fails exactly for a base that is not in the tree |
| CacheTables.HandlersKeepPaired | blconf/blconf-cache.c:524-539 | in every handler the records by property and the records by call stay the same records, each under its property and under its call |
| CacheTables.EvictsBelow | blconf/blconf-cache.c:917-935 | a successful recursive reset evicts the base and all below it, unless the base is the root |
| CacheTables.ResetLeaves | blconf/blconf-cache.c:899-937 | a failed reset changes nothing; a successful one takes the base and, only if it is recursive, exactly the names that continue the base after a slash, ASCII case ignored; everything else stays cached |
| CacheTables.RootEvictsNothing | blconf/blconf-cache.c:921-931 | a recursive reset of "/" evicts no property at all, because it looks for the prefix "//" |
| CacheTables.RemovalDrops | blconf/blconf-cache.c:494-510 | a removal drops the cached value whether or not a set is pending, and no other value and no record |
| CacheTables.ReplyEffect | blconf/blconf-cache.c:549-575 | a reply changes a cached value only if it is a failure for that property and the value is still there; then the remembered one is back |
| PendingCalls.RecordsAreCallsInFlight | blconf/blconf-cache.c:795-824 | in every reachable state there is a record exactly for each call whose request or reply is on the bus and that was not cancelled, under the property it was begun for |
| PendingCalls.OneSetInFlight | blconf/blconf-cache.c:795-812 | in every reachable state two sets in flight that were not cancelled are for different properties |
| PendingCalls.DeliveredReplyFindsItsRecord | blconf/blconf-cache.c:532-547 | in every run a reply that reaches its handler finds its record in both tables, so the branch for a missing record is never taken; then the record is gone and no second reply can come |
| Cache.BlconfCache.ReplyFindsItsRecord | blconf/blconf-cache.c:532-547 | on the tables themselves: a call of this cache that was neither cancelled nor replied to has its record, waiting for that very call |
| Cache.BlconfCache.OneCallPerProperty | blconf/blconf-cache.c:795-812 | on the tables themselves: two pending calls are for different properties |
| Cache.BlconfCache.PropertyChanged | blconf/blconf-cache.c:459-492 | a change signal is ignored while a set of the property is pending, else it replaces the cached value |
| Cache.BlconfCache.PropertyRemoved | blconf/blconf-cache.c:494-510 | a removal signal drops the cached value, pending set or not |
| Cache.BlconfCache.SetPropertyReply | blconf/blconf-cache.c:514-581 | the reply takes its record out of both tables; a failure restores the recorded value or absence |
| Cache.BlconfCache.LookupLocked | blconf/blconf-cache.c:671-716 | returns the cached value, filled from the blocking call when absent |
| Cache.BlconfCache.Set | blconf/blconf-cache.c:736-839 | after a set that no error stops the new value is cached; one call is begun, unless the value is a scalar equal to the cached or answered one; it cancels the superseded one and keeps the value that was cached before the first set of the chain |
| Cache.BlconfCache.BeginCall | blconf/blconf-cache.c:795-824 | the superseded call is cancelled and its record reused, or a first record is made with the value to fall back to |
| Cache.BlconfCache.Reset | blconf/blconf-cache.c:917-935 | on the tables: after a success exactly the base and, for a recursive reset, what continues its name after a slash, ASCII case ignored, has lost its entry; a failure changes nothing |
| Rollback.ReadYourWrites | blconf/blconf-cache.c:473-478 | from a set until its reply, over any sequence of other sets, lookups, signals, replies and resets that spare the property, a lookup returns the last value set |
| Rollback.FailureRestores | blconf/blconf-cache.c:549-563 | after any chain of superseding sets a failing last reply restores what was cached before the first one, and a successful one leaves the last value set |
| Protocol.EditKeepsSound | blconfd/blconf-backend-perchannel-xml.c:316-351 | every edit of the store keeps defaults, locks and the shape of the tree, and leaves no user value over a lock, in trees where every lock has a default at or below it |
| Protocol.ChangesAreDrops | blconfd/blconf-backend-perchannel-xml.c:530-554 | which properties a walking edit changes can be read off the tree before it: those at or below the base whose user value differs from the default |
| Protocol.WalkReports | blconfd/blconf-backend-perchannel-xml.c:530-554 | a walk reports each user value it drops, once, and nothing else |
| Protocol.PrefetchFills | blconf/blconf-cache.c:628-665 | a prefetch caches exactly what the daemon holds at and below the base |
| Protocol.EditNotifies | blconfd/blconf-backend-perchannel-xml.c:530-554 | an edit names every property it changes in a notification if and only if it does not walk over a user value, other than its default, of a property with a one-character component |
| Convergence.StepKey | blconf/blconf-cache.c:459-581 | every step of client, bus, daemon or another writer keeps, for any one property, what relates the cache, both queues, the waiting notifications and the store, unless the step drops that very property under a short name |
| Convergence.StepFits | blconfd/blconf-daemon.c:215-262 | every step keeps the store sound, the record tables paired and all calls in the order they were begun, whatever the properties are called |
| Convergence.ServeKey | blconfd/blconf-daemon.c:215-262 | serving the last request for a property turns "a set is on its way" into "the reply settles it", with the cached value the effective one |
| Convergence.ConvergesFor | blconf/blconf-cache.c:736-839 | in every run that does not drop this property under a short name, whatever happens to others: once nothing is in flight no call for it is pending and what is cached of it is the daemon's effective value |
| Convergence.ConvergesForLong | blconf/blconf-cache.c:736-839 | the same in every run whatsoever, for every property without one-character components |
| Convergence.Converges | blconf/blconf-cache.c:736-839 | in every run in which edits report what they change, once nothing is in flight no call is pending and every cached value is the daemon's effective value |
| PendingCalls.PendingIsInFlight | blconf/blconf-cache.c:795-824 | in every reachable state a pending set still has its own request, for its property, or its reply on the bus |
| Convergence.ShortNameStaysStale | blconfd/blconf-backend-perchannel-xml.c:944-950 | a concrete run with a one-character name that ends with nothing in flight and a stale cached value |
| Staleness.ShortNamesStayStale | blconfd/blconf-backend-perchannel-xml.c:944-950 | for every quiet state: once another writer walks over a cached short-named property and uncovers its default, the client keeps the old value however the notifications are drained |
| Staleness.CanDrain | blconfd/blconf-daemon.c:172-213 | from every state the daemon's answers, its notifications and their delivery alone can lead to one with nothing in flight, so convergence is never vacuous |
| Staleness.KeyRightAgainIff | blconfd/blconf-backend-perchannel-xml.c:944-950 | for every quiet reachable state where a property is right and every edit by another writer: after draining it is right if and only if the edit did not uncover it while it was cached and had a one-character component |
| Staleness.RightAgainIff | blconfd/blconf-backend-perchannel-xml.c:944-950 | the same for the whole cache |
| Staleness.OwnResetRightIff | blconf/blconf-cache.c:899-937 | after the client's own reset and draining the whole cache is right again, except exactly when the reset was of "/" and uncovered a cached property with a one-character component: any other reset evicts what it misreports |
| Daemon.BlconfDaemon.SetProperty | blconfd/blconf-daemon.c:215-262 | makes the protocol's edit exactly when the names are valid; the reply tells whether the property is locked, and one notification is queued unless it is or the value is an equal scalar |
| Daemon.BlconfDaemon.GetProperty | blconfd/blconf-daemon.c:264-286 | answers with the effective value of a validly named property |
| Daemon.BlconfDaemon.ResetProperty | blconfd/blconf-daemon.c:352-381 | makes the protocol's single, recursive or whole-channel edit and queues exactly its notifications; replies success exactly when there was a user value, a node, or for "/" a user file |
| Daemon.BlconfDaemon.QueueAll | blconfd/blconf-daemon.c:199-213 | one idle record per reported property, in order, behind those already waiting |
| Daemon.BlconfDaemon.EmitPropertyChanged | blconfd/blconf-daemon.c:172-197 | the oldest notification goes out with the value read at that moment, or as a removal if nothing is read |
| Daemon.EditPlays | blconfd/blconf-daemon.c:199-213 | the daemon's store and idle queue after a request are the protocol's state after the edit, for any lower-case channel |
| Daemon.EmitPlays | blconfd/blconf-daemon.c:172-197 | what the daemon emits for a waiting property is the message the protocol sends for it |
| Daemon.AnswerPlays | blconfd/blconf-daemon.c:264-286 | the answer to a read in the protocol is what GetProperty finds |
| Daemon.NotifiedIsProper | blconfd/blconf-backend-perchannel-xml.c:530-554 | every notification carries a name that leads back to one path |
| Numerals.ScanDecimal | common/blconf-gvaluefuncs.c:149-157 | a printed integer is read to its last character as that integer: canonical decimals never trigger octal or hexadecimal |
| Numerals.DecimalMeaning | common/blconf-gvaluefuncs.c:142-207 | what each type makes of the decimal numeral of any integer: 8- and 32-bit types reject it out of range, except unsigned negatives that wrap into range; 64-bit types saturate, unsigned negatives wrapping first |
| NumeralForms.NumeralMeaning | common/blconf-gvaluefuncs.c:143-212 | what every text of white space, a sign and a decimal, octal or hexadecimal constant reads as for each numeric type, its value being the sum of its digits times powers of the base |
| NumeralForms.OnlyNumeralsCount | common/blconf-gvaluefuncs.c:151-167 | no other text is read as a number, and a 64-bit type reads all of them |
| Numerals.RoundTrip | common/blconf-gvaluefuncs.c:261-286 | every scalar in the range of its type survives being printed and read back |
| SettingsFile.ParserReadsValues | blconfd/blconf-backend-perchannel-xml.c:1337-1404 | values inside an element go, in order, to the array opened last |
| SettingsFile.StrayValues | blconfd/blconf-backend-perchannel-xml.c:1427-1434 | values inside a property that is no array are taken for items of an enclosing open array, and fail the file if there is none |
| SettingsFile.ParserReadsDoc | blconfd/blconf-backend-perchannel-xml.c:1406-1510 | for every nested document whose names are single components, path buffer and element kind return to what they were, and the merged map is the document's meaning given without a buffer; an error stops it at the same place |
| SettingsFile.ParserReadsDocs | blconfd/blconf-backend-perchannel-xml.c:1406-1510 | the same for a sequence of sibling documents |
| Acceptance.ChannelIsRefused | blconfd/blconf-backend-perchannel-xml.c:1029-1110 | a channel element is refused, without any effect, exactly for a foreign attribute, a missing name, a version other than 1 or 1.x, a lock directive in a user file, or one that would unlock a locked channel |
| Acceptance.PropertyIsRefused | blconfd/blconf-backend-perchannel-xml.c:1142-1320 | a property element is refused exactly for a foreign attribute, a missing name or type, or, unless it is skipped for a lock, a lock directive in a user file, an unknown type, or a text that its type does not read |
| Acceptance.ValueIsRefused | blconfd/blconf-backend-perchannel-xml.c:1337-1404 | a value element is refused, without any effect, exactly for a foreign attribute, a type that is no scalar type, or a text that its type does not read |
| Acceptance.MisplacedIsRefused | blconfd/blconf-backend-perchannel-xml.c:1406-1465 | any other start tag is refused wherever it stands: a value belongs only where an array is open |
| Acceptance.ContentIs | common/blconf-gvaluefuncs.c:68-104 | each numeric type name stands for its type: a numeral in its range is read as that number |
| Acceptance.UnreadContent | blconfd/blconf-backend-perchannel-xml.c:1306-1317 | where a text cannot be read the property is left with zero or false |
| Acceptance.DirectedLock | blconfd/blconf-backend-perchannel-xml.c:1275-1284 | in a system file and an open channel an element with "unlocked" locks its property for the user if and only if the list does not name the user, one with "locked" only if and only if its list does |
| SettingsFile.SlashShifts | blconfd/blconf-backend-perchannel-xml.c:1486-1495 | an element whose name holds slashes is merged, with its values and children, at its full path and leaves the buffer at that path's parent, which is where it started if and only if the name is a single component |
| SettingsFile.BufferIsStack | blconfd/blconf-backend-perchannel-xml.c:1406-1510 | after every prefix of every file whose names are single components the buffer spells exactly the properties that are open, and the element kind is that of the innermost open element |
| Paths.ExtendPath | blconfd/blconf-backend-perchannel-xml.c:1187-1189 | a path buffer extended by a name of one or more non-empty components spells a path again |
| SettingsFile.FeedAppend | blconfd/blconf-backend-perchannel-xml.c:1596-1601 | feeding one event list after another is feeding them joined, errors included |
| LoadOrder.DocsAreMentions | blconfd/blconf-backend-perchannel-xml.c:1213-1285 | a well-formed document applies without error as the list of its mentions, parents before children, each array with precisely its own items |
| LoadRule.MergeMeaning | blconfd/blconf-backend-perchannel-xml.c:1086-1135 | a well-formed file starts the channel over when it is the first to lock it, contributes nothing when it would unlock it, and else applies its mentions |
| LoadRule.LockedChannelKeeps | blconfd/blconf-backend-perchannel-xml.c:1213-1226 | reading files into a locked channel adds exactly the mentioned properties, every one of them locked |
| LoadRule.SystemRule | blconfd/blconf-backend-perchannel-xml.c:1667-1673 | for every list of well-formed system files: the channel is locked if one locks it; a default is the last counting mention, none if that is "empty"; locks follow the mentions or the last directive |
| LockRule.WhoIsLockedOut | blconfd/blconf-backend-perchannel-xml.c:1098-1101 | for every list of well-formed system files: the channel is locked for the user if and only if some file gives "unlocked" without listing the user, or only "locked" listing the user; else a property is locked by the same test on its last element that gives either |
| LockRule.FoundFirstReadLast | blconfd/blconf-backend-perchannel-xml.c:1667-1673 | the files are read in the reverse of the order in which they are found |
| LockRule.MostImportantWins | blconfd/blconf-backend-perchannel-xml.c:1667-1673 | what the file found first says of a property is its default, whatever the others say |
| LoadRule.UserRule | blconfd/blconf-backend-perchannel-xml.c:1675-1679 | the user's file changes no default and no lock, and supplies its last mention exactly where neither channel nor property is locked |
| Writer.WrittenDocs | blconfd/blconf-backend-perchannel-xml.c:1818-1885 | the written documents are well-formed and mention exactly the properties of the tree, each with its user value |
| Writer.WriteThenRead | blconfd/blconf-backend-perchannel-xml.c:1690-1885 | writing any well-formed tree of an unlocked channel and reading the file over the same defaults restores every user value, default and lock |
| ChannelFiles.WriteNode | blconfd/blconf-backend-perchannel-xml.c:1818-1885 | the recursive writer on the linked tree emits the events of the node's document |
| ChannelFiles.WriteFile | blconfd/blconf-backend-perchannel-xml.c:1922-1933 | a flush writes the file that the whole tree denotes |
| Writer.DocPlain | blconfd/blconf-backend-perchannel-xml.c:1843-1855 | a written file gives no property a name with a slash, so the parser can read it |
| ChannelFiles.ReadTag | blconfd/blconf-backend-perchannel-xml.c:1153-1173 | the attribute loop collects the last value of each attribute, and fails exactly on one that is not allowed |
| ChannelFiles.XmlParser.HandleChannel | blconfd/blconf-backend-perchannel-xml.c:1029-1140 | merges or refuses a channel element; the first lock replaces the tree by an empty one |
| ChannelFiles.XmlParser.HandleProperty | blconfd/blconf-backend-perchannel-xml.c:1142-1335 | on the linked tree a property element does what its declaration does to the map: create or wipe, lock, give a value, or be skipped for a lock; the name may hold several components |
| ChannelFiles.XmlParser.HandleValue | blconfd/blconf-backend-perchannel-xml.c:1337-1404 | appends one parsed item to the array being read, in place |
| ChannelFiles.XmlParser.StartElement | blconfd/blconf-backend-perchannel-xml.c:1406-1465 | a start tag takes the parser's fields and the linked tree where the state machine takes them |
| ChannelFiles.XmlParser.EndElement | blconfd/blconf-backend-perchannel-xml.c:1467-1510 | an end tag cuts the path buffer and restores the element kind as the state machine does |
| ChannelFiles.MergeFile | blconfd/blconf-backend-perchannel-xml.c:1562-1631 | the parse loop merges a file into the channel as the feeding of its events does; the tree is the old one grown by new nodes, or a new one |
| ChannelFiles.LoadChannel | blconfd/blconf-backend-perchannel-xml.c:1633-1688 | system files from the least to the most important, then the user's file unless the channel is locked |
| AnyFile.SystemLoads | blconfd/blconf-backend-perchannel-xml.c:1667-1673 | system files, well-formed or not, load into a closed tree without user values |
| AnyFile.AnyFileLoads | blconfd/blconf-backend-perchannel-xml.c:1230-1236 | whatever a user file holds, well-formed or not, reading it changes no default and no lock, puts no user value at a lock, and leaves only values that fit their types |
| Durability.WrittenReloads | blconfd/blconf-backend-perchannel-xml.c:1887-1975 | what a flush writes is a well-formed user file that reads back as the tree in memory |
| Durability.StepKeeps | blconfd/blconf-backend-perchannel-xml.c:289-352 | from any files: every load, set, reset, timer and flush, of any channel, keeps for a given one: dirty means a save is scheduled, clean and unlocked means agreement with its files, locks hold |
| Durability.Durable | blconfd/blconf-backend-perchannel-xml.c:992-1004 | in every run from any files a dirty channel has a save scheduled, and a clean unlocked channel reads the same at every path from its files as from memory; asked of that channel only is that its locks are guarded |
| LockRuns.DurableIff | blconfd/blconf-backend-perchannel-xml.c:1675-1679 | a clean unlocked channel reads the same from its files as from memory in every run if and only if every lock in its system files is guarded |
| LockRuns.DurableWhenLocked | blconfd/blconf-backend-perchannel-xml.c:1675-1679 | at any time in any run from any files a locked channel reads the same from its files as from memory if and only if no user value differs from its default; over well-formed system files, if and only if it holds no user value |
| LockRuns.LockSafety | blconfd/blconf-backend-perchannel-xml.c:316-326 | in every run, over any files, a locked property with a default, or a locked name outside the grammar, at or below it stays in the tree, locked, without a user value, and reads as its default |
| LockRuns.LockStandsIff | blconfd/blconf-backend-perchannel-xml.c:895-908 | a lock stands in every run of validated requests if and only if at or below it there is a default, or a locked property whose name no request can spell |
| LockRuns.UnguardedFalls | blconfd/blconf-backend-perchannel-xml.c:895-908 | for every other lock there is a run of validated resets and sets that drops it |
| Durability.LockedChannelForgets | blconfd/blconf-backend-perchannel-xml.c:735-737 | in a locked channel a set is refused exactly at mentioned properties; elsewhere it takes effect in memory, and no reload brings it back |
| Durability.ReadBack | blconfd/blconf-backend-perchannel-xml.c:1681 | a set is read back by the next request if and only if the channel is at hand or its name is in lower case, or the value was there before |
| Durability.WhatIsSaved | blconfd/blconf-backend-perchannel-xml.c:316-347 | a set of an equal scalar or at a lock, and a reset of nothing, leave the channel as it was loaded; every other set or reset marks it dirty and schedules a save |
| Durability.FlushWrites | blconfd/blconf-backend-perchannel-xml.c:739-768 | a flush writes exactly the dirty channels, each from its tree, and leaves every other file; all are clean then |
| Durability.ForgottenUnderItsName | blconfd/blconf-backend-perchannel-xml.c:574-610 | forgetting a channel asked for with upper-case letters misses its entry: it stays at hand under its lower-case name, without user values |
| Backend.XmlBackend.OpenChannel | blconfd/blconf-backend-perchannel-xml.c:297-313 | looks the channel up by the given name, else loads it from its files and files it under the lower-case name; other channels are untouched |
| Backend.XmlBackend.Set | blconfd/blconf-backend.c:228-246 | guards, channel lookup, tree, dirty flag and scheduled save together: the store becomes what a set makes of it, other channels are untouched, and one notification goes out exactly for a write |
| Backend.XmlBackend.Get | blconfd/blconf-backend.c:262-280 | guards, loading and reading together: the effective value of a valid name |
| Backend.XmlBackend.GetAll | blconfd/blconf-backend.c:302-324 | guards, loading and flattening together, with "" and "/" for the whole channel |
| Backend.XmlBackend.IsPropertyLocked | blconfd/blconf-backend.c:455-472 | locked if the channel or the property is; a property that is not in the tree of an unlocked channel is not |
| Backend.XmlBackend.Reset | blconfd/blconf-backend.c:383-412 | guards and the three kinds of reset together: resulting store, success, and the notifications queued |
| Backend.XmlBackend.ResetChannel | blconfd/blconf-backend-perchannel-xml.c:574-610 | the channel leaves the table and its user file is gone; the request reports failure exactly when there was no user file |
| Backend.XmlBackend.ScheduleSave | blconfd/blconf-backend-perchannel-xml.c:992-1004 | the channel is dirty and a save is scheduled; nothing else changes |
| Backend.XmlBackend.Flush | blconfd/blconf-backend-perchannel-xml.c:752-768 | every dirty channel is written and clean, no other file is touched, and all trees stay as they are |
| Backend.XmlBackend.SaveTimeout | blconfd/blconf-backend-perchannel-xml.c:983-990 | no save remains scheduled and everything dirty has been written |
| Alignment.AndMask | blconf/blconf-channel.c:42 | masking the low bits away rounds down to a multiple of the power of two, at every word width |
| Alignment.AlignIsLeast | blconf/blconf-channel.c:42 | the alignment macro, 64-bit wrap-around included, yields the least multiple not below its argument |
| StructPack.Layout | blconf/blconf-channel.c:1966-1975 | member offsets are aligned, the least possible, and members do not overlap |
| StructPack.LoadStore | blconf/blconf-channel.c:2188-2197 | a loaded and stored member returns byte for byte, a boolean exactly when it was TRUE or FALSE |
| StructPack.LoadDenotes | blconf/blconf-channel.c:2188-2275 | the number read from a member lies in its type's range and equals the member's bytes modulo that many bits, type by type; a boolean is 0 exactly for zero bytes |
| StructPack.ReceivedMember | blconf/blconf-channel.c:1966-2045 | a member that receives a number of its type denotes that number |
| StructPack.Fixup16BitInts | blconf/blconf-channel.c:460-500 | makes a new array with every 16-bit value widened, or none if there is nothing to widen |
| StructPack.SetStruct | blconf/blconf-channel.c:2168-2283 | sends for each member a number of the member's type, 16-bit ones under the 32-bit type, that the member's bytes denote; or fails, sending nothing, exactly for an empty or unsupported type list |
| StructPack.GetStruct | blconf/blconf-channel.c:1922-2059 | writes the members through memory up to the first mismatch, and succeeds exactly when there are as many values as members, each of the type that carries its member |
| StructPack.AssignedMember | blconf/blconf-channel.c:1966-1975 | after all assignments every member holds what was assigned to it: no later one overwrites it |
| StructPack.OthersKeep | blconf/blconf-channel.c:1966-1975 | bytes outside the members, padding included, are not touched |
| StructPack.StructRoundTrip | blconf/blconf-channel.c:1717-1742 | a struct sent and received elsewhere arrives member by member, 16-bit ones included, exactly when no boolean is other than TRUE or FALSE |

## Left out

- PropertyTree.PropTree.NodeToHashTable: path buffers are unbounded strings, so truncation at `MAX_PROP_PATH` is not modelled.
- SettingsFile.ParserReadsDoc: names that hold a '/' are excluded, because the promise fails for them exactly: the end tag drops one component only, and what follows lands elsewhere. `SettingsFile.SlashShifts` states what happens instead. A missing `value` attribute is read as an empty one.
- SettingsFile.ParserReadsDocs: as for one document, names that hold a '/' are excluded.
- ChannelFiles.XmlParser.HandleProperty: names with an empty component ("a//b", "a/") are excluded; for them the code runs into a failed validity check and a missing node.
- ChannelFiles.XmlParser.StartElement: as for HandleProperty, names with an empty component are excluded.
- ChannelFiles.MergeFile: as for HandleProperty, names with an empty component are excluded.
- ChannelFiles.LoadChannel: as for HandleProperty, names with an empty component are excluded.
- LoadOrder.DocsAreMentions: a non-empty array at a property locked against the user's file is excluded; the skipped element opens no array, and its values make the file fail.
- Writer.WriteThenRead: float, double, char, 16-bit and NULL-string values and nested arrays are not in the value type, because the files do not preserve them.
- CacheTables.HandlersKeepPaired: the tables are keyed by paths instead of name strings; accepted names and paths correspond one to one (`Names.AcceptedName`).
- Durability.Durable: names with an empty component in files are excluded, as for HandleProperty. Every write, rename and unlink of a user file succeeds; file system failures, which the code answers by forgetting the dirty flag, are not modelled.
- Convergence.ConvergesFor: one client cache with the value type that travels unchanged; further clients appear only as writers that change the store between steps. The cache's own signals, its mutex and its finalizer are not modelled.
- Backend.XmlBackend.OpenChannel: loading always yields a channel, an empty one if it has no file. The branch that fails with ChannelNotFound, when the resource lookup names neither a system file nor a location for the user's file (`blconfd/blconf-backend-perchannel-xml.c:1650-1657`), is not modelled; that lookup is not part of this model.
- Backend.XmlBackend.Get: as for OpenChannel, a channel that is not found reads as an empty one.
- Backend.XmlBackend.GetAll: as for OpenChannel, a channel that is not found is answered as empty, where the code fails.
- Backend.XmlBackend.IsPropertyLocked: as for OpenChannel, a channel that is not found is answered as unlocked, where the code fails.
- Backend.XmlBackend.Reset: as for OpenChannel, a channel that is not found is reset as an empty one.
- Daemon.BlconfDaemon.SetProperty: one backend; the loops over several backends, whose results GetAllProperties and GetProperty combine differently, are not modelled.
- Daemon.BlconfDaemon.GetProperty: one backend; the search for the first of several backends that has a value is not modelled.
- Daemon.BlconfDaemon.ResetProperty: one backend; success if any of several backends succeeds is not modelled.
- Cache.BlconfCache.LookupLocked: the transformation of the cached value to the type of the caller's value, which may fail, is not modelled.
- Cache.BlconfCache.ReplyFindsItsRecord: the early return of the reply handler while the cache is being finalized is not modelled.
- StructPack.SetStruct: string members are not modelled, because they are pointers to memory the model does not have; a float or double is its bit pattern.
- StructPack.GetStruct: string members are not modelled, as for SetStruct.
- StructPack.StructRoundTrip: string members are not modelled, as for SetStruct.
- Character-level XML: lexing, escaping and attribute normalisation (section 3.3.3 of XML 1.0); events come in and go out.
- D-Bus transport and marshalling, GObject registration, signal closures, memory ownership.
- Listing channels, `exists`, opening of backends, the daemon's start-up and shutdown.
- Typed getters and setters, varargs wrappers, channel singletons, bindings, value transformations, the query tool, the Perl bindings: they would add only easy members.
