# Verified models of pgBackRest

Models of the parts of pgBackRest whose correctness rests on state kept across many calls, and proofs about them. Check
everything with `dafny verify dfyconfig.toml`.

| files | what they model |
|---|---|
| `ErrorTypes`, `ErrorContext`, `TryPrograms`, `TryMachine`, `TryLaws` | `TRY`/`CATCH`/`FINALLY`: the try stack as a machine, a structured semantics of the same programs, their agreement, and what each try does |
| `MemStack`, `StackLaws` | the stack of memory contexts and its clean-up after errors |
| `AllocList`, `ContextTree`, `ContextFree`, `ContextHeap` | allocation lists, the ownership tree of contexts, moving and freeing |
| `JsonText`, `JsonReader`, `JsonCodec`, `IniFile`, `InfoFile`, `InfoStream`, `Sections`, `PgVersion`, `InfoPg`, `Numerals`, `StringOrder` | info files: JSON texts and how they are written and read, splitting lines, saving and loading with a checksum, what the checksum protects, section order, version names, PostgreSQL history |
| `BackupList`, `BackupRepair` | the backup list, dependents, repair from the repository |
| `RuleCursor`, `OptionMerge`, `OptionName` | option rules, option sources, option names |
| `LockFile` | lock files between processes |
| `Encode`, `EncodeUrl`, `EncodeHex`, `Epoch`, `Wait` | RFC 4648 codecs, the epoch formula, waiting |

## Where the code does not do what one would expect

- A try that sits in the FINALLY block of an outer try can start with an entry on the context stack that an inner try left
  there; its clean-up then removes that entry too. `StackLaws.FirstLookRestores` gives the exact condition,
  `StackLaws.StaleEntryIsCleanedToo` an example.
- A try whose clauses have looked at one error and that then catches another one from its own FINALLY block does not clean up
  again, and ends with the stack that the FINALLY block left. That is the only way in which a try that ends normally and whose
  parts restore the stack does not restore it: `StackLaws.TryRestoresExactlyWhen`, with an example in
  `StackLaws.LateCatchLeaks`.
- Freeing a context opens a try, so at the nesting limit of 64 a temporary block throws instead of ending
  (`StackLaws.TempBlockEndsExactlyWhen`), and the clean-up of a context there has no end, because the error it raises comes
  back to the try that is cleaning up: `TryMachine.FirstLookEndsExactlyWhen` gives the condition,
  `TryMachine.ProgramHasNoEnd` a program.
- Moving a context does not lower the free index of the list it leaves, so that list can double with slots still free:
  `ContextTree.DoublesWithRoomExactlyWhen` says when, `ContextTree.MoveForgetsSlot` reaches such a state.
- With the grammar of RFC 8259 every key and every value that is not an array survive a save and a load
  (`IniFile.EveryKeySurvives`). The JSON reader in use departs from that grammar: a number that does not fit in 64 bits throws
  an error that the retry loop does not catch (`JsonReader.LongNumberInKey`), and a comma followed by a quotation mark is
  taken for a string where a member value is due (`JsonReader.QuotesSplitEarly`). A line is split correctly exactly when
  `IniFile.ReadsBack` says so; keys without quotation marks and without 19 digits in a row always are
  (`JsonReader.PlainKeySurvives`).
- The validator takes only decimal digits in a Unicode escape and skips one character too many after it, so it refuses some
  strings that the reader takes. `JsonCodec.AcceptsExactlyWhen` says which, `JsonCodec.UnicodeAtEnd` is an example: a string
  that ends in such an escape. The writer makes none.
- The search for a member of a JSON object compares only as many characters as the name it finds has, so a member whose name
  is a prefix of the one looked for is taken for it: `JsonCodec.MemberIsFoundExactlyWhen`, with an example in
  `JsonCodec.PrefixIsTaken`.
- Section names are not escaped in the stream that is hashed for an info file. Without quotation marks in them the stream
  determines the entries (`InfoStream.SameStreamExactlyWhen`); with them it does not (`InfoStream.QuotesHideEntries`).
- The name of a PostgreSQL version does not show all of its number: `PgVersion.VersionSurvivesExactlyWhen`, with an
  example in `PgVersion.PatchLevelIsLost`.
- Deleting from the backup list passes over the entry after a removed one (`BackupList.DeletesAllExactlyWhen`).
- Option key 0 is accepted and becomes the largest key index (`OptionName.KeyIndexIsInRangeExactlyWhen`), for which the list of
  values has no place; the model of the merge ends with an error of its own there (`KeyOutOfRange`).
- Opening and locking a lock file are two system calls. Exclusion holds when nothing comes between them, and fails otherwise:
  `LockFile.AlwaysHoldsExactlyWhen` gives the condition for whole runs, `LockFile.SplitAttemptBreaksExclusion` a run in which
  two processes end up with a lock for the same path.
- Base64 texts with unused bits set are accepted; encoding what they stand for gives another text
  (`Encode.EncodeUndoesDecodeExactlyWhen`).
- The epoch formula leaves 32 bits on 2038-01-19 at 03:14:08 (`Epoch.FitsExactlyUpTo2038`).

## Model

| member | source | states |
|---|---|---|
| `ErrorTypes.Extends` | src/common/error.c:168-185 | climbing the parent links finds exactly the ancestors, the type itself included |
| `ErrorTypes.InstanceOf` | src/common/error.c:263-267 | an error is an instance of exactly its type and that type's ancestors |
| `ErrorTypes.IsATransitive` | src/common/error.c:168-185 | being an instance is transitive |
| `ErrorContext.Context.TryBegin` | src/common/error.c:279-292 | opens one more try in its initial state, or throws AssertError at the nesting limit, leaving the enclosing tries as they were |
| `ErrorContext.Context.Catch` | src/common/error.c:302-325 | a clause accepts exactly when no clause of the try has fired, the type matches and the fatality is allowed; the first look at an error, and only that, asks for clean-up |
| `ErrorContext.Context.Propagate` | src/common/error.c:328-345 | marks the innermost try as uncaught and jumps to it, or ends the process when there is none |
| `ErrorContext.Context.Throw` | src/common/error.c:365-404 | records the error and propagates it |
| `ErrorContext.Context.TryEnd` | src/common/error.c:349-362 | forgets a handled error, removes the try, and propagates an uncaught error to the enclosing try |
| `TryMachine.Simulate` | src/common/error.h:132-187 | for every statement and whatever surrounds it, the machine of tries, states, uncaught flags and jumps ends as the structured semantics says, with the same trace, error record, context stack and try depth, or never ends where that has no end |
| `TryMachine.ProgramAgrees` | src/common/error.c:279-404 | for every program machine and structured semantics agree on how it ends or that it does not, and no try is left active |
| `TryMachine.FirstLookEndsExactlyWhen` | src/common/error.c:302-325 | the first look of a try at an error ends if and only if it is not one, at the nesting limit and by a clause that is not for fatal errors, with a new context to free |
| `TryMachine.CleanUpHasNoEnd` | src/common/memContext.c:1041-1074 | at the nesting limit, an error in a block with a new context has no end, whatever the error and the clauses |
| `TryMachine.ProgramHasNoEnd` | src/common/memContext.c:1230-1254 | a program 64 tries deep that the machine runs into a state it never leaves |
| `TryLaws.EvalDeeper` | src/common/error.h:132-187 | a statement enters, fires and finalizes only tries deeper than the one it runs in |
| `TryLaws.TryTrace` | src/common/error.h:132-187 | an entered try is entered once, fires at most one clause and, unless the program is aborted, starts its FINALLY block exactly once |
| `TryLaws.FiresExactlyWhen` | src/common/error.h:132-187 | a try reports one firing if and only if its body, or its FINALLY block while no clause had fired, came back with an error whose type and fatality a clause accepts |
| `TryLaws.OutwardExactlyWhen` | src/common/error.h:132-187 | an error leaves a try if and only if the last one that came back to it was not accepted, came after a clause had fired, or was taken by a clause that raised |
| `TryLaws.ClauseFiresExactlyWhen` | src/common/error.c:302-325 | a clause fires if and only if the error is of its type or derived from it and, unless the clause is for fatal errors, not fatal |
| `TryLaws.FatalGoesOutward` | src/common/error.c:302-325 | a fatal error goes through any number of ordinary clauses and leaves the try with its record unchanged |
| `MemStack.ContextStack.PushNew` | src/common/memContext.c:470-478 | pushes a tracked entry; the current context stays |
| `MemStack.ContextStack.SwitchTo` | src/common/memContext.c:821-844 | pushes an entry, which becomes current |
| `MemStack.ContextStack.SwitchBack` | src/common/memContext.c:847-875 | pops the top switch entry; current is the highest switch entry left |
| `MemStack.ContextStack.PopNew` | src/common/memContext.c:878-918 | pops the tracked entry on top; the current context stays |
| `MemStack.ContextStack.Clean` | src/common/memContext.c:1041-1074 | pops the entries of the failed try and deeper ones, frees exactly the new contexts among them, innermost first (none when fatal), and restores current |
| `MemStack.CleanedSection` | src/common/memContext.c:1041-1074 | cleaning removes a section of entries at the try's depth or deeper, and nothing below it |
| `StackLaws.EvalStands` | src/common/memContext.c:821-918 | no statement takes away an entry that was there before it |
| `StackLaws.FirstLookRestores` | src/common/memContext.c:1041-1074 | cleaning at the first look puts the stack back as it was at TRY_BEGIN if and only if the entry then on top was not left by a deeper try |
| `StackLaws.TryRestoresExactlyWhen` | src/common/error.c:302-325 | a try that begins without stale entries, ends normally and whose parts restore the stack has restored it if and only if no clause took an error of the FINALLY block, which had changed the stack, after one had looked at the error of the body; otherwise the stack is that of the FINALLY block |
| `StackLaws.NeverLateRestores` | src/common/memContext.c:821-918 | a statement that ends normally and in whose run no try is late in this way leaves the stack as it was |
| `StackLaws.EnterBlock` | src/common/memContext.h:118-163 | entering a block leaves on the context stack exactly what the programs assume, and its context is current |
| `StackLaws.LeaveBlock` | src/common/memContext.h:127-189 | leaving a block takes it off again; a kept context stays, a temporary one is to be freed |
| `StackLaws.BlockRunsInItsContext` | src/common/memContext.c:821-844 | for every kind of block, what it does first it does in its own context |
| `StackLaws.BlockReturnsToOuterContext` | src/common/memContext.c:847-875 | after a block that ends normally and is never late, the outer context is current and the stack is as it was |
| `StackLaws.TempBlockEndsExactlyWhen` | src/common/memContext.c:899-918 | a temporary block whose body ends normally and is never late ends normally, with its context freed, if and only if it is below the nesting limit; at the limit it throws and its context stays on the stack to be cleaned up |
| `StackLaws.LateCatchLeaks` | src/common/error.c:302-325 | such a late catch: the context that the FINALLY block had entered stays on the stack |
| `StackLaws.StaleEntryIsCleanedToo` | src/common/memContext.c:1041-1074 | a try in a FINALLY block can clean an entry that was there before it |
| `AllocList.AllocMany.FindSlot` | src/common/memContext.c:589-624 | the slot found is the first free one from the free index on, in a list that is doubled only when it has none |
| `AllocList.AllocMany.New` | src/common/memContext.c:563-639 | a new allocation in the slot found, with its header naming that slot; no other allocation changes |
| `AllocList.AllocMany.Resize` | src/common/memContext.c:642-673 | only the size of that allocation changes |
| `AllocList.AllocMany.Free` | src/common/memContext.c:719-757 | the slot is emptied and the free index lowered to it if it was higher |
| `AllocList.LowestSlotFirst` | src/common/memContext.c:589-634 | every slot below that of a new allocation is taken |
| `AllocList.GrownSize` | src/common/memContext.c:589-624 | the list grows only when full, to 4 or to twice its size |
| `AllocList.RunSize` | src/common/memContext.c:563-757 | over every run all slots below the free index are taken, headers name their slots, and the size is at most max(4, 2 * (peak - 1)) |
| `ContextTree.OneSlot` | src/common/memContext.c:340-386 | a live context other than the top sits in a slot, the one its parent link and index name, and in no other |
| `ContextTree.GrownFits` | src/common/memContext.c:340-386 | making room keeps every child in its slot and ends on an empty one |
| `ContextTree.NewValid` | src/common/memContext.c:389-482 | a new context gets an empty slot and the tree stays whole |
| `ContextTree.MoveValid` | src/common/memContext.c:760-818 | moving a context under one that is not below it keeps the tree whole |
| `ContextTree.DoublesExactlyWhen` | src/common/memContext.c:340-386 | a list of children doubles if and only if it is in use and no slot from the free index on is empty |
| `ContextTree.DoublesWithRoomExactlyWhen` | src/common/memContext.c:340-386 | it doubles with a slot still free if and only if, in addition, a slot below the free index is empty |
| `ContextTree.NewKeepsDense` | src/common/memContext.c:340-386 | where all slots below the free indexes are taken, a new context takes the first empty slot of its parent and that stays so |
| `ContextTree.ClearedKeepsDense` | src/common/memContext.c:1197-1213 | so it does when a context is freed |
| `ContextTree.MoveForgetsSlot` | src/common/memContext.c:760-818 | after four new contexts and one move, a fifth new context doubles the list although its second slot is empty |
| `ContextFree.OrderElements` | src/common/memContext.c:1078-1124 | the walk visits exactly the subtree |
| `ContextFree.OrderNoDuplicates` | src/common/memContext.c:1078-1124 | the walk visits each context once |
| `ContextFree.OrderParents` | src/common/memContext.c:1127-1228 | callbacks go from parents to children, releases from children to parents |
| `ContextHeap.RemovedValid` | src/common/memContext.c:1127-1228 | after freeing a subtree no slot points to a freed context |
| `ContextHeap.MemContexts.MakeRoom` | src/common/memContext.c:340-386 | the free index ends on the first empty slot at or after it, in a doubled list if there is none |
| `ContextHeap.MemContexts.New` | src/common/memContext.c:389-482 | adds the context, without allocations, and keeps the tree whole |
| `ContextHeap.MemContexts.Move` | src/common/memContext.c:760-818 | moves the context with its allocations and keeps the tree whole |
| `ContextHeap.MemContexts.AllocNew` | src/common/memContext.c:563-639 | adds an allocation to the list of its context; no live allocation belongs to two contexts |
| `ContextHeap.MemContexts.AllocResize` | src/common/memContext.c:642-673 | so does a resize, which may move the allocation |
| `ContextHeap.MemContexts.AllocFree` | src/common/memContext.c:719-757 | so does freeing one allocation |
| `ContextHeap.AllocKeepsWhole` | src/common/memContext.c:563-757 | every allocation, resize and free keeps the tree whole, the lists in order and the allocations of different contexts disjoint |
| `ContextHeap.MemContexts.FreeAllocs` | src/common/memContext.c:1176-1190 | gives back the allocations of a context, slot by slot |
| `ContextHeap.MemContexts.RunCallbacks` | src/common/memContext.c:1078-1124 | runs the set callbacks of the subtree, parents first, up to one that throws, and clears exactly those that ran and returned |
| `ContextHeap.MemContexts.FreeRecurse` | src/common/memContext.c:1127-1228 | releases every context of the subtree, children first, each after its allocations |
| `ContextHeap.MemContexts.Free` | src/common/memContext.c:1231-1254 | all callbacks come before any release; exactly the subtree is gone, also when a callback has thrown; the slot it had is empty and the free index of its parent is not above it; nothing else has changed |
| `ContextHeap.FreedSlotIsReused` | src/common/memContext.c:1197-1213 | the next context below the same parent takes a slot not above the freed one, and the list does not grow |
| `ContextHeap.RunDoublesOnlyWhenFull` | src/common/memContext.c:340-386 | over every run of new and free without moves, a new context takes the first empty slot and a list of children doubles if and only if it is full |
| `ContextHeap.RunningStops` | src/common/memContext.c:1078-1124 | callbacks run up to and including the first that throws |
| `ContextHeap.FreeCallsEachOnce` | src/common/memContext.c:1078-1124 | when none throws, each set callback of the subtree runs once, and none outside |
| `ContextHeap.FreeDoesEachOnce` | src/common/memContext.c:1078-1254 | each context of the subtree and each live allocation of each of them is released once, and none outside, also when a callback has thrown |
| `JsonText.JsonIsBalanced` | src/common/ini.c:326-359 | in a JSON text all strings are closed and no equals sign is outside a string |
| `JsonText.FlippedScan` | src/common/ini.c:326-359 | read with strings and gaps exchanged, a balanced text does not end outside a string |
| `JsonText.EqualsBeforeJson` | src/common/ini.c:326-359 | a text in which a JSON text follows an equals sign is not JSON |
| `JsonText.OnlyArraysEndInBracket` | src/common/ini.c:303-304 | a JSON text that ends in a closing bracket is an array |
| `IniFile.FindSeparator` | src/common/ini.c:316-363 | the retry loop gives the key and value of the first separator a valid value follows, or the error that stops it |
| `IniFile.Load` | src/common/ini.c:268-382 | delivers, in order, one entry per line that is neither blank nor a section, up to the first bad line, which it reports by number and problem |
| `IniFile.LinesOfJoined` | src/common/ini.c:297-298 | reading lines undoes writing them |
| `IniFile.StopsExactlyAt` | src/common/ini.c:328-359 | the loop stops at an equals sign exactly when a valid value follows and malformed ones follow all earlier equals signs |
| `IniFile.ReadsBack` | src/common/ini.c:303-367 | a line is read as the key and value it was made of if and only if no equals sign of the key passes for the separator and the line is not taken for a section |
| `IniFile.EveryKeySurvives` | src/common/ini.c:303-359 | for RFC 8259 values that are not arrays this holds for every key |
| `IniFile.ArraySurvives` | src/common/ini.c:303-304 | for arrays it holds exactly for keys that do not begin with a bracket |
| `JsonReader.TameIsMalformed` | src/common/type/json.c:856-921 | without quotation marks and long numbers before it, an equals sign makes the reader report a format error |
| `JsonReader.PlainKeySurvives` | src/common/type/json.c:1275-1299 | keys without quotation marks and without 19 digits in a row survive with every value the reader accepts |
| `JsonReader.LongNumberIsNotPassed` | src/common/type/json.c:393-431 | a number of 21 to 63 digits throws the error that is not retried |
| `JsonReader.LongNumberInKey` | src/common/ini.c:328-359 | a key with such a number after its first equals sign cannot be loaded with any value |
| `JsonReader.QuotesSplitEarly` | src/common/type/json.c:795-851 | a key and JSON value whose line is split too early |
| `JsonCodec.WriteString` | src/common/type/json.c:1677-1775 | writes a string with its seven escapes, copying runs without escapes in one piece |
| `JsonCodec.SevenEscapes` | src/common/type/json.c:1701-1766 | the text of each of the seven escapes; every other character stands for itself |
| `JsonCodec.CharsAreRead` | src/common/type/json.c:941-1060 | an escaped string in any text is read as the string it was made from, and skipped exactly as far |
| `JsonCodec.StringSurvives` | src/common/type/json.c:941-1060 | every string is written as one line that the validator accepts, and read back |
| `JsonCodec.NumberSurvives` | src/common/type/json.c:393-431 | so is every unsigned number of 64 bits, and a forced read gives back every one of 32 bits |
| `JsonCodec.ForcedFromString` | src/common/type/variant.c:569-650 | a forced read also takes every 32-bit number from a string of its digits |
| `JsonCodec.ForcedFromSigned` | src/common/type/variant.c:569-650 | of the numbers with a sign a forced read takes only zero |
| `JsonCodec.WordsAreRead` | src/common/type/variant.c:569-650 | a forced read takes true and false for one and zero, and the three words are valid texts |
| `JsonCodec.AcceptsExactlyWhen` | src/common/type/json.c:795-854 | a text that the reader takes for one string is accepted by the validator if and only if every Unicode escape has decimal digits and the character skipped after it does not make the two lose step |
| `JsonCodec.UnicodeAtEnd` | src/common/type/json.c:795-854 | such as: a string that ends in a Unicode escape is read, but the validator refuses it |
| `JsonCodec.ObjectIsPrintable` | src/common/type/json.c:1339-1430 | every object of numbers and strings is written as one line that the validator accepts |
| `JsonCodec.FieldIsRead` | src/common/type/json.c:694-709 | the member that comes next is found under its name and read, and the members after it come next |
| `JsonCodec.SearchFindsPrefix` | src/common/type/json.c:610-662 | among members in ascending order the search stops at the first whose name is a prefix of the one looked for, or finds nothing |
| `JsonCodec.MemberIsFoundExactlyWhen` | src/common/type/json.c:610-662 | a member is found under its name if and only if no member before it has a prefix of that name for its own |
| `JsonCodec.PrefixIsTaken` | src/common/type/json.c:610-662 | such as: the member "a" is taken for the member "ab" |
| `JsonCodec.JsonIsTrusted` | src/info/info.c:426-435 | what the round trip of info files needs of strings is true of this reader and writer |
| `InfoFile.InfoSave.SaveValue` | src/info/info.c:329-379 | output and hashed stream are those of the entries saved so far |
| `InfoFile.InfoSave.End` | src/info/info.c:426-435 | the file ends with the checksum of what was saved |
| `InfoFile.InfoLoad.Hash` | src/info/info.c:173-193 | the hashed stream grows as it does on save |
| `InfoFile.InfoLoad.Callback` | src/info/info.c:156-241 | keeps version, passphrase and checksum, which may be null, hands on other sections, hashes all but the checksum, refuses bad values |
| `InfoFile.NewLoad` | src/info/info.c:244-307 | the first problem in file order, or the loaded file when the checksum is there, not null, and the hash of the stream |
| `InfoFile.FileIsRead` | src/common/ini.c:295-373 | all saved entries are read back in order |
| `InfoFile.SavedIsDelivered` | src/info/info.c:382-440 | loading delivers exactly the saved entries and then the checksum, whatever it is, and the stream hashed on load is the one hashed on save |
| `InfoFile.LoadsExactlyWhen` | src/info/info.c:289-301 | a file with given entries and any checksum loads if and only if the checksum is the hash of the stream of these entries, and is refused for its checksum otherwise |
| `InfoFile.NoChecksumIsRefused` | src/info/info.c:293-294 | a file without a checksum is refused |
| `InfoFile.RefusedForEntryExactlyWhen` | src/info/info.c:194-231 | a file is refused for one of its entries if and only if the format is not the current one, or the version, the checksum or the passphrase is not a string or null |
| `InfoFile.ProblemIsFirst` | src/info/info.c:194-231 | the first such entry decides the error |
| `InfoFile.SaveThenLoad` | src/info/info.c:244-440 | loading a saved file always succeeds and gives back what was saved |
| `InfoFile.JsonIsSavable` | src/info/info.c:329-345 | every RFC 8259 value that is not an array can be saved under every key |
| `InfoStream.StreamIsObject` | src/info/info.c:55-90 | what is hashed for a file is the text of an object that has for each section the object of its keys and values |
| `InfoStream.SameStreamExactlyWhen` | src/info/info.c:55-90 | two files whose section names have no quotation marks and whose values are closed have the same hashed stream if and only if they have the same entries in the same order |
| `InfoStream.JsonIsClosed` | src/info/info.c:55-90 | every JSON value of RFC 8259 is closed in this sense |
| `InfoStream.ChecksumProtects` | src/info/info.c:289-301 | a file that carries the checksum of other entries loads if and only if the hash of two different streams is the same |
| `InfoStream.QuotesHideEntries` | src/info/info.c:50-57 | for every two entries of different sections there is one entry, with quotation marks in its section name, whose stream is the same |
| `Sections.SaveSection` | src/info/info.c:310-326 | true exactly when the section sorts after everything saved and before the next one |
| `Sections.SaveLeaf` | src/info/infoBackup.c:246-321 | the last layer saves exactly its missing sections before the announced one, in order |
| `Sections.SaveMiddle` | src/info/infoPg.c:279-350 | so do a layer and the one after it together |
| `Sections.SaveInfo` | src/info/info.c:411-436 | the file has each section with values exactly once, in strictly ascending order, before the checksum |
| `Sections.SplitDoesNotMatter` | src/info/info.c:411-424 | the entries do not depend on how sections are split among the layers |
| `Sections.NamesInUse` | src/info/info.c:411-424 | the section names in use are in the order the layers rely on |
| `PgVersion.VersionIsRead` | src/postgres/interface.c:521-556 | the name of every version is read, as that version without the digits that the name does not show |
| `PgVersion.VersionSurvivesExactlyWhen` | src/postgres/interface.c:521-556 | a version comes back from its name if and only if it is a multiple of 10000 from 10 on, and of 100 before |
| `PgVersion.PatchLevelIsLost` | src/postgres/interface.c:521-556 | such as: version 90301 comes back as 90300 |
| `PgVersion.KnownVersionsSurvive` | src/postgres/interface.c:246-254 | so does every version that has a control version |
| `InfoPg.InfoPg.Add` | src/info/infoPg.c:205-220 | the new entry is first and current |
| `InfoPg.InfoPg.Set` | src/info/infoPg.c:223-268 | the id follows that of the current entry in 32 bits; backup.info refuses versions without control version; a series of calls keeps ids counting up from the oldest entry |
| `InfoPg.InfoPg.Save` | src/info/infoPg.c:279-350 | saves the current entry and the history, oldest first, or fails when the current version of backup.info has no control version |
| `InfoPg.NewLoad` | src/info/infoPg.c:99-202 | the history in reverse order of reading and the last entry with the current id, or the reason for refusal |
| `InfoPg.DataIsRead` | src/info/infoPg.c:122-146 | every history entry, with any 32-bit and 64-bit numbers, is written as JSON and read back as far as the file keeps it: the version as its name shows it, and catalog and control version only in backup.info |
| `InfoPg.HistoryIsRead` | src/info/infoPg.c:122-146 | so is a whole history, in its order |
| `InfoPg.HistorySurvives` | src/info/infoPg.c:154-350 | the file, with its JSON and checksum and whatever other sections it has, always loads with the version and the passphrase that were saved; unless the current id is zero it gives back the kept history and the oldest entry with the current id |
| `InfoPg.DbValuesAreRead` | src/info/infoPg.c:293-311 | the db section has id, system id and version of the current entry and, in backup.info, its catalog version and the control version that goes with its version |
| `InfoPg.SurvivesExactlyWhen` | src/info/infoPg.c:99-350 | history and current entry come back as they were if and only if the current id is not zero, no older entry has it, and every entry has a version that its name shows in full and, in archive.info, no catalog and control version |
| `InfoPg.SeriesSurvives` | src/info/infoPg.c:99-350 | a history made by any series of calls to Set comes back as it was in backup.info, and in archive.info if and only if the name of every version shows it in full |
| `Numerals.ParseOfPrint` | src/info/infoPg.c:125-338 | a printed id is read back |
| `BackupList.DeletesAllExactlyWhen` | src/info/infoBackup.c:529-548 | deletion removes every entry of a label if and only if no two of them are neighbours |
| `BackupList.DependentList` | src/info/infoBackup.c:586-616 | one pass finds only dependents; all of them, each once, when priors come first and labels are unique |
| `BackupList.DependsLast` | src/info/infoBackup.c:603-611 | an entry adds at most itself to the closure when nothing before it has it as prior |
| `BackupRepair.InfoBackup.DataDelete` | src/info/infoBackup.c:529-548 | leaves what the loop that passes over an entry after a removal leaves |
| `BackupRepair.InfoBackup.DataAdd` | src/info/infoBackup.c:464-468 | adds exactly the entry with the name and, unless the backup is full, the prior of the manifest; a sorted list without the label stays sorted |
| `BackupRepair.SortedAfterAdd` | src/info/infoBackup.c:464-468 | adding a new label keeps the list sorted |
| `BackupRepair.InfoBackup.RemoveDependents` | src/info/infoBackup.c:751-763 | removes exactly the dependents and keeps every prior present |
| `BackupRepair.InfoBackup.RemoveMissing` | src/info/infoBackup.c:741-764 | removes exactly the backups without manifest and their dependents |
| `BackupRepair.InfoBackup.CanAdd` | src/info/infoBackup.c:789-804 | true exactly when the history has the cluster of the manifest and the list its prior |
| `BackupRepair.InfoBackup.AddMissing` | src/info/infoBackup.c:766-810 | adds exactly the eligible backups, each with the prior in its manifest unless it is full, and leaves none out |
| `BackupRepair.InfoBackup.Reconstruct` | src/info/infoBackup.c:716-815 | every backup has a manifest, its prior is the one in the manifest and is listed, exactly the doomed ones are gone, and no eligible backup is missing |
| `BackupRepair.DoomedStayOut` | src/info/infoBackup.c:741-810 | neither a backup without manifest nor a dependent of one comes back |
| `BackupRepair.ListedDependsOnPrior` | src/info/infoBackup.c:448-462 | after a repair every listed backup that is not full depends on the prior in its manifest and on what that depends on |
| `BackupRepair.GoesWithPrior` | src/info/infoBackup.c:586-616 | so it goes with whatever its prior depends on, when that is removed with its dependents |
| `BackupRepair.RepairTwice` | src/info/infoBackup.c:716-815 | a second repair changes nothing |
| `RuleCursor.Cursor.Open` | src/config/parse.c:774-847 | the first group whose command filter matches |
| `RuleCursor.Cursor.Search` | src/config/parse.c:849-975 | from where the last query stopped, finds what a search of the whole group would |
| `RuleCursor.Cursor.Query` | src/config/parse.c:756-979 | in ascending order of types, a query through the shared cursor answers as a fresh search |
| `RuleCursor.AskAll` | src/config/parse.c:2065-2367 | so does every ascending series of queries |
| `RuleCursor.AnswerIs` | src/config/parse.c:779-847 | the answer is the data of the first rule of that type in the first group that has no filter or lists the command, and none when that group has no such rule |
| `RuleCursor.Lists` | src/config/parse.c:800-812 | a filter matches if and only if it lists the command |
| `OptionMerge.OptionList.IdxValue` | src/config/parse.c:294-343 | growing the index list changes no value that is there |
| `OptionMerge.OptionList.AddOption` | src/config/parse.c:1502-1577 | merges a setting of the command line or reports why not |
| `OptionMerge.OptionList.PhaseArgs` | src/config/parse.c:1425-1578 | the command line, to its end or first error, errors of the name parser included |
| `OptionMerge.OptionList.PhaseEnvironment` | src/config/parse.c:1669-1744 | the environment, to its end or first error, errors of the name parser included |
| `OptionMerge.OptionList.PhaseSection` | src/config/parse.c:1778-1904 | a section of the file, to its end or first error, errors of the name parser included |
| `OptionMerge.OptionList.PhaseFile` | src/config/parse.c:1766-1905 | all sections in their order |
| `OptionMerge.EnvironmentAddsFirst` | src/config/parse.c:1716-1743 | the environment gives a value only where there is none, and its first variable counts |
| `OptionMerge.KeysAddFirst` | src/config/parse.c:1778-1904 | so does a section |
| `OptionMerge.ArgsAreAdded` | src/config/parse.c:1502-1577 | an option of the command line has the flags it was first given with and all its arguments |
| `OptionMerge.FirstSourceWins` | src/config/parse.c:1502-1905 | without an error, every option and key has the value of the first source that gives one |
| `OptionMerge.EnvironmentDecides` | src/config/parse.c:1688-1743 | without an error, an option that is not on the command line has what the text of its first variable says: "n" negates a boolean option and "y" does not, another option has the text, or the pieces between its colons for a list |
| `OptionMerge.FileDecides` | src/config/parse.c:1778-1904 | and one that is in neither has what its key in the first section with a usable one says, or all the texts of a key given several times |
| `OptionMerge.BadVariableStops` | src/config/parse.c:1726-1732 | any other text for a boolean option ends the environment phase with that error |
| `OptionMerge.BadKeyStops` | src/config/parse.c:1891-1897 | so it does in a section |
| `OptionMerge.ArgumentMeans` | src/config/parse.c:1430-1489 | on the command line "=n" negates a boolean option and "=y" or nothing does not; another option has the text after the equals sign, or the next argument |
| `OptionMerge.NoArgumentForNegated` | src/config/parse.c:1487-1489 | a negated or reset option with an argument is refused |
| `OptionMerge.SecretsAreRefused` | src/config/parse.c:1491-1500 | a secret option is refused on the command line in every form |
| `OptionMerge.GivenAgain` | src/config/parse.c:1522-1577 | an option that is given again is accepted if and only if it takes several values, has one, and is neither negated nor reset; which error is raised otherwise |
| `OptionMerge.SectionPrecedence` | src/config/parse.c:1766-1776 | sections count in the order stanza:command, stanza, global:command, global |
| `OptionMerge.GlobalSections` | src/config/parse.c:1847-1855 | which sections are global |
| `OptionMerge.NamedTableIsSound` | src/config/parse.c:461-687 | what the merge needs of a parser is true of the one modelled in OptionName, for every option table in which only options of a group have keys |
| `OptionMerge.FirstSourceWinsByName` | src/config/parse.c:1425-1905 | so with that parser, abbreviations on the command line and errors included, the first source wins |
| `OptionMerge.PrintedKeyIsFor` | src/config/parse.c:1788-1817 | a key of the file that is the printed name of an option and key gives a value to that option and key and to no other |
| `OptionMerge.FoundKeysDiffer` | src/config/parse.c:1819-1830 | within a section different options and keys are remembered under different numbers |
| `OptionName.Search` | src/config/parse.c:551-555 | binary search in the sorted table finds a name if and only if it is there |
| `OptionName.SearchPartial` | src/config/parse.c:560-581 | the one name that begins so, if there is exactly one |
| `OptionName.FoundExactlyWhen` | src/config/parse.c:560-609 | a name that is not in the table is found if and only if beginnings are allowed and exactly one name of the table begins so |
| `OptionName.Tally` | src/config/parse.c:515-525 | digits in front of the dash are the key modulo 2^32 |
| `OptionName.ParseOption` | src/config/parse.c:461-687 | the option, key index and flags of a name, or the error |
| `OptionName.NumberedSplit` | src/config/parse.c:506-549 | a name with a number in it splits into the key and the option name |
| `OptionName.PrintedIsRecognised` | src/config/parse.c:1089-1112 | a printed name is recognised as its option and key index, neither negated nor reset |
| `OptionName.PrefixedIsRecognised` | src/config/parse.c:487-504 | with the prefix for negation or reset it is recognised as that option and key index, negated or reset, where the option allows it, and refused otherwise |
| `OptionName.DeprecatedIsRecognised` | src/config/parse.c:614-639 | a deprecated name stands for the first key of its option, or for the key it has a number for, where the deprecation allows that |
| `OptionName.UnknownOrMisnumbered` | src/config/parse.c:642-687 | unknown names are not recognised, and an option with a number it cannot have or without one it needs is refused |
| `OptionName.NumberIsKeyExactlyWhen` | src/config/parse.c:506-549 | a name with number n is recognised with key n if and only if n is 1 to 256, or 2^32 |
| `OptionName.KeyIndexIsInRangeExactlyWhen` | src/config/parse.c:536-549 | an accepted key index is below 256 if and only if the number is not a multiple of 2^32 |
| `OptionName.PrintedNamesDiffer` | src/config/parse.c:1089-1112 | printed names are injective |
| `LockFile.OpenKeeps` | src/common/lock.c:304-316 | opening keeps the invariant and the opened file is the one the path names |
| `LockFile.FlockKeepsExactlyWhen` | src/common/lock.c:319-320 | locking keeps the invariant if and only if the path still names the opened file |
| `LockFile.UnlinkKeeps` | src/common/lock.c:467-487 | removing the file keeps the invariant |
| `LockFile.CloseKeeps` | src/common/lock.c:467-487 | closing it keeps the invariant |
| `LockFile.CrashKeeps` | src/common/lock.c:387-463 | a crash keeps the invariant |
| `LockFile.CrashFrees` | src/common/lock.c:387-463 | a crash frees exactly the locks and descriptors of that process, and leaves files and all other processes as they were |
| `LockFile.LockAfterCrash` | src/common/lock.c:319-320 | a process that has opened a file which a crashed one had locked can lock it |
| `LockFile.LockAfterRelease` | src/common/lock.c:467-487 | so it can after a release |
| `LockFile.OthersAreLeftAlone` | src/common/lock.c:281-524 | no step changes what another process has, and a name changes only when its file is made or removed |
| `LockFile.LeavesNothing` | src/common/lock.c:319-350 | who gives up or has released has nothing of the file left, and who shares a lock does not have it |
| `LockFile.CanGoOn` | src/common/lock.c:281-524 | whoever has something of a lock file can go on: lock it exactly when nobody has the lock, or else give up or share, and release what it has |
| `LockFile.RunKeeps` | src/common/lock.c:281-524 | every run in which locks are taken on files that are still named keeps the invariant |
| `LockFile.AlwaysHoldsExactlyWhen` | src/common/lock.c:281-524 | in every state of a run holders have the file that their path names, if and only if every lock of the run is taken while the path still names the opened file |
| `LockFile.LocksExclude` | src/common/lock.c:281-524 | with an attempt as one step, a holder has the file its path names and nobody else holds a lock for that path |
| `LockFile.ReleaseRemovesOwnFile` | src/common/lock.c:467-487 | no release removes a file that another process has locked |
| `LockFile.SplitAttemptBreaksExclusion` | src/common/lock.c:304-320 | with open and flock as two steps, two processes can hold a lock for one path |
| `Encode.EncodeBase64` | src/common/encode.c:24-80 | writes the base64 text and a zero, and nothing behind it |
| `Encode.Base64Size` | src/common/encode.c:83-99 | the encoded size is exact |
| `Encode.ValidateBase64` | src/common/encode.c:122-158 | accepts exactly groups of four letters of which the last one or two may be padding |
| `Encode.EncodedIsBase64` | src/common/encode.c:122-158 | what is encoded is accepted |
| `Encode.DecodeBase64` | src/common/encode.c:161-197 | writes exactly the bytes of an accepted text, and nothing for others |
| `Encode.SizeOfDecoded` | src/common/encode.c:200-225 | the decoded size is exact for every non-empty accepted text |
| `Encode.DecodeUndoesEncode` | src/common/encode.c:24-197 | decoding undoes encoding |
| `Encode.TestVectors` | src/common/encode.c:24-80 | the base64 test vectors of section 10 of RFC 4648 |
| `Encode.EncodeUndoesDecodeExactlyWhen` | src/common/encode.c:161-197 | encoding undoes decoding if and only if the unused bits of the last group are zero |
| `EncodeUrl.EncodeBase64Url` | src/common/encode.c:230-283 | writes the base64 text with two letters replaced and padding dropped, and a zero |
| `EncodeUrl.UrlSize` | src/common/encode.c:286-315 | its size is exact |
| `EncodeHex.EncodeToHex` | src/common/encode.c:322-347 | writes two digits per byte, high digit first, and a zero |
| `EncodeHex.ValidateHex` | src/common/encode.c:381-402 | accepts exactly texts of even size made of hex digits, and names the first bad position |
| `EncodeHex.DecodeFromHex` | src/common/encode.c:405-426 | writes exactly the bytes of an accepted text |
| `EncodeHex.DecodeSize` | src/common/encode.c:429-440 | the decoded size is exact |
| `EncodeHex.DecodeUndoesHex` | src/common/encode.c:322-426 | decoding undoes encoding |
| `EncodeHex.TestVector` | src/common/encode.c:322-347 | the base16 test vector of section 10 of RFC 4648, in lower case |
| `EncodeHex.HexUndoesDecode` | src/common/encode.c:322-426 | encoding undoes decoding up to the case of letters |
| `Epoch.EpochFromParts` | src/common/time.c:164-185 | gives a result exactly for valid dates and times |
| `Epoch.NextYear` | src/common/time.c:180-184 | the leap terms of the formula change by one exactly after a leap year |
| `Epoch.NextDayAddsOne` | src/common/time.c:143-185 | the formula counts one more for the next day of the calendar |
| `Epoch.EpochIsCounted` | src/common/time.c:164-185 | the formula equals 86400 times the days counted one at a time, plus time of day, minus offset |
| `Epoch.FitsExactlyWhen` | src/common/time.c:180-184 | all terms and partial sums fit in 32 bits if and only if the result does |
| `Epoch.FitsUntil2037` | src/common/time.c:180-184 | they do for every date to the end of 2037 |
| `Epoch.FitsExactlyUpTo2038` | src/common/time.c:180-184 | all terms and partial sums fit in 32 bits if and only if date, time and offset are not after 2038-01-19 03:14:07 UTC |
| `Epoch.DoesNotFitIn2038` | src/common/time.c:180-184 | the last second that fits and the first that does not |
| `Wait.Waiter.constructor` | src/common/wait.c:23-62 | the first sleep is a tenth of the wait, or of a second if it is longer |
| `Wait.Waiter.More` | src/common/wait.c:65-109 | sleeps add up to at most the wait, are Fibonacci multiples of the first, and only the last is cut |
| `Wait.SleepsAreFew` | src/common/wait.c:65-109 | a wait is exponentially long in the number of its sleeps |
| `Wait.WaitOut` | src/common/wait.c:23-109 | a whole wait on any clock that does not run behind its sleeps |

## Left out

- Register and `volatile` effects of `setjmp`/`longjmp`, messages and stack traces of errors: a jump is a return to the owning try's dispatch.
- The limit of 128 entries on the context stack inside programs of tries, the asserts on clause types, and checks that only debug builds have.
- The try that freeing a context opens is a step only at the nesting limit, where it throws; below it begins and ends unseen.
- Callbacks that throw while the context stack is cleaned; the callbacks of a context are events without further effect.
- Contexts that hold one allocation only, `malloc` failure, and the layout of optional parts of a context.
- JsonReader: reading past the end of a text whose last character is a backslash in a string is taken for a format error.
- Texts with zero bytes, lines longer than the read buffer, and encryption of info files.
- SHA-1 is any function. Errors of the JSON readers are one problem each; a value of another type than the one read is such an error, as in debug builds.
- JSON booleans, null, negative numbers and nested objects on the writing side, and the limit on the length of member names.
- Numerals: numbers in names and ids are read as digits only, without the leading blanks and signs that `strtoul` skips.
- The sizes, timestamps and options of a backup entry, and the info and manifest files themselves: a repository is its directories and manifests.
- BackupRepair.InfoBackup.DataAdd: takes the name of the directory for the label of the entry, where the code takes the label inside the manifest; the two are taken to be the same.
- The repair assumes that directories and labels are listed in order, priors sort before dependents, and manifests agree with the list on priors.
- Names, roles and parameters of commands, the prefix and letter case of environment variables, warnings, and reading configuration files and include directories: the merge starts from recognised keys.
- OptionMerge.FirstSourceWins: says nothing about a run in which key 0 is given to a usable option; what the code does there is not defined.
- The pg group's first index, dependencies between options and the remaining phases of option parsing, and the byte encoding of rule tables.
- The `held` flag and the order in which a process takes the two types of lock: steps may come in any order.
- The contents of lock files and `lockRead` with removal: only real descriptors and the sharing of a lock by exec id are steps.
- The bit operations of the codecs are written as division, remainder and sums of disjoint bits; non-ASCII input indexes outside of the lookup tables and is excluded.
- Time zones, `timeMSec` and `sleepMSec`: the clock is a parameter.
- Regular expressions, processes, storage drivers, network, SQL and commands.
