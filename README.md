# Launcher accounts, authentication flows and skin bookkeeping, in Dafny

This project models the account and skin core of a Minecraft launcher and proves properties of the model.

- **Account registry** (`AccountRegistry`, account_list.dfy). `AccountList` is a class over:
  - the ordered list of rows, with the "Add New Account" placeholder;
  - the default account;
  - the refresh queue and the account task currently refreshing;
  - the two timers and the activity counter;
  - the list-file path, the autosave flag, the disk (a map from path to file) and the signals emitted.
  Account objects are identified by an `AccountRef` token held next to their data. The JSON list file is modelled by its shape: format version 3 and one element per account, with `active` only on the default.
- **Authentication tasks** (`AuthTask`, account_task.dfy). `AccountTask.ChangeState` is the account task state machine, with the account state, the error string and the one terminal signal it emits. `RunFlow` runs a flow's steps while `changeState` answers "continue". `MojangError` parsing and printing are pure functions.
- **Flows and steps** (`MsaFlows`, `AuthSteps`):
  - the four Microsoft-account flows are sequences of step tags;
  - the profile-create, set-skin and set-cape steps are request builders and reply-to-outcome mappings.
- **Launch-time claim** (`Claim`): the three-way decision and the use-lock.
- **Cape cache and cape list** (`Capes`, `CapesList`):
  - the cape cache is a map plus a FIFO download queue with one download in flight, and a count-then-pairs file;
  - the cape list rebuilds its rows and uuid index per account.
- **Skins** (`Skins`, `SkinUtils`, `SkinLibrary`):
  - skin entries and their variant selection;
  - PNG validation and the byte stream hashed into a texture id;
  - the skins list model: built-in skins, the folder sync, file change handling, pending removals and the `name`, `name_1`, ..., `name_99` naming loop.
- **Renderer buffers** (`SkinRenderer`): the vertex and index buffers of the skin preview, with positions reduced to box corners and texture coordinates kept in pixel units.

`common.dfy` holds the shared pieces:

- `Common`: Option, bytes, QString::number, ASCII lower-casing, occurrence counts, hash-set iteration order;
- `Imaging`: images as columns of pixels;
- `Paths`: QFileInfo's file name, suffix, base name and complete base name.

The world outside these classes is given as parameters:

- file contents;
- the PNG decoder and SHA-256;
- the per-account JSON codec;
- the answer of `refresh()` and `shouldRefresh()`;
- whether a write commits;
- the order in which a QSet is walked.

## Model

| member | source | states |
|---|---|---|
| AccountRegistry.FindRowFrom | launcher/minecraft/auth/AccountList.cpp:56-72 | the lookup loop from a given row: the first matching account row at or after it, -1 exactly when none matches |
| AccountRegistry.FindRow | launcher/minecraft/auth/AccountList.cpp:56-108 | the first account row matching the key, -1 exactly when no row matches; the placeholder never matches |
| AccountRegistry.RefInList | launcher/minecraft/auth/AccountList.cpp:136-142 | an object is in the list exactly when the identity lookup finds it |
| AccountRegistry.AccountsMembers | launcher/minecraft/auth/AccountList.h:42-46 | an account is among the listed accounts exactly when an account entry holds it |
| AccountRegistry.AddAccountOutcome | launcher/minecraft/auth/AccountList.cpp:132-166 | an object already listed changes nothing and gives row 0; a same-xid account is merged into the first row with that xid, keeping count, row and object; otherwise exactly one entry is appended and the new last row returned |
| AccountRegistry.AddKeepsListConsistent | launcher/minecraft/auth/AccountList.cpp:132-166 | addAccount never lists an object twice nor two accounts with one non-empty xid, and drops no listed object |
| AccountRegistry.ReplaceDataKeepsConsistent | launcher/minecraft/auth/AccountList.cpp:148-153 | merging data with the same xid into a listed account keeps the list consistent and its objects as they were |
| AccountRegistry.AppendNewKeepsConsistent | launcher/minecraft/auth/AccountList.cpp:161-166 | appending an account whose object and xid are new keeps the list consistent and adds exactly its object |
| AccountRegistry.DeleteRowKeepsConsistent | launcher/minecraft/auth/AccountList.cpp:185-187 | deleting a row keeps the list consistent and drops exactly that row's object |
| AccountRegistry.DeleteRowRefs | launcher/minecraft/auth/AccountList.cpp:185-187 | the objects left after deleting a row are the others |
| AccountRegistry.RemoveTakesOutOneAccount | launcher/minecraft/auth/AccountList.cpp:169-189 | an unknown id changes nothing; otherwise exactly the found row goes, one shorter, and no other object disappears |
| AccountRegistry.NewDefaultIsListed | launcher/minecraft/auth/AccountList.cpp:217-266 | the default stays a listed account or null; a listed requested account becomes the default, an unlisted one changes nothing |
| AccountRegistry.DefaultChangeRowsHoldAccounts | launcher/minecraft/auth/AccountList.cpp:240-261 | with rows numbered over all entries, each reported row holds the account it reports about |
| AccountRegistry.DefaultRowsAsWrittenMisnumbered | launcher/minecraft/auth/AccountList.cpp:240-261 | as written, with the placeholder first, switching the default to the first account reports row 0, the placeholder, instead of row 1 |
| AccountRegistry.AccountsBeforeIsRow | launcher/minecraft/auth/AccountList.cpp:240-256 | the as-written count of account rows equals the row exactly when no placeholder precedes it, and never exceeds it |
| AccountRegistry.ActivityBegun | launcher/minecraft/auth/AccountList.cpp:727-729 | the unsigned 32-bit counter stays in range and counts up by one below its maximum |
| AccountRegistry.ActivityEnded | launcher/minecraft/auth/AccountList.cpp:731-737 | the counter never goes below zero: at zero it stays, otherwise it counts down by one |
| AccountRegistry.EndUndoesBegin | launcher/minecraft/auth/AccountList.cpp:727-737 | a begin then an end restores the count except at the wrap-around; an end at zero followed by a begin gives one |
| AccountRegistry.MovedToFrontProperties | launcher/minecraft/auth/AccountList.cpp:663-668 | requestRefresh puts the id first, removes one earlier occurrence of it, leaves every other id's count alone and the rest in order |
| AccountRegistry.QueuedOnceProperties | launcher/minecraft/auth/AccountList.cpp:675-681 | queueRefresh only appends an absent id, keeps what was queued, and is idempotent |
| AccountRegistry.QueueOthersProperties | launcher/minecraft/auth/AccountList.cpp:644-659 | the loop over the rows queues every due non-default account, only those, each once, after what was queued |
| AccountRegistry.FilledQueueProperties | launcher/minecraft/auth/AccountList.cpp:636-661 | fillQueue keeps the queue in front, pushes the due default first without deduplication, then each other due account once and nothing else |
| AccountRegistry.NextTask | launcher/minecraft/auth/AccountList.cpp:684-709 | tryNext only pops from the queue |
| AccountRegistry.NextTaskStarts | launcher/minecraft/auth/AccountList.cpp:684-709 | what is left is a suffix of the queue, empty when nothing started; a start is made by the first account with the last popped id whose refresh hands out a task |
| AccountRegistry.NextTaskPassesOver | launcher/minecraft/auth/AccountList.cpp:684-706 | the ids popped without a start name no account that hands out a task, and the account task stays as it was when they name no account |
| AccountRegistry.NextTaskSkips | launcher/minecraft/auth/AccountList.cpp:685-705 | an id none of whose accounts hands out a task is dropped, the current task cleared when the id names an account |
| AccountRegistry.RequestedAccountServedFirst | launcher/minecraft/auth/AccountList.cpp:663-672 | a request while idle starts that account first when it hands out a task, leaving the rest of the queue for later |
| AccountRegistry.SavedAccountsShape | launcher/minecraft/auth/AccountList.cpp:575-586 | the saved array lists the accounts in row order, each flagged active exactly when it is the default |
| AccountRegistry.AppendKeepsConsistent | launcher/minecraft/auth/AccountList.cpp:517-529 | appending a new object whose non-empty xid is not listed keeps the list consistent |
| AccountRegistry.LoadOneKeepsConsistent | launcher/minecraft/auth/AccountList.cpp:511-538 | one element of the array keeps the registry consistent and only appends |
| AccountRegistry.LoadKeepsConsistent | launcher/minecraft/auth/AccountList.cpp:508-541 | loadV3 keeps the registry consistent whatever the file holds, only appending; duplicated xids are dropped and the default is listed |
| AccountRegistry.ListedAccountData | launcher/minecraft/auth/AccountList.cpp:575-586 | every listed account's data appears among the accounts' data in row order |
| AccountRegistry.XidNotAmongAccounts | launcher/minecraft/auth/AccountList.cpp:519-524 | an xid no account carries matches no row |
| AccountRegistry.FirstXidNotListed | launcher/minecraft/auth/AccountList.cpp:519-524 | the first element of an array with new unique xids passes the duplicate check |
| AccountRegistry.LoadFirstAppends | launcher/minecraft/auth/AccountList.cpp:513-532 | such an element is appended, and becomes the default when flagged active |
| AccountRegistry.LoadAllNew | launcher/minecraft/auth/AccountList.cpp:508-541 | an array whose xids are new and unique is appended whole, in order, the last active element becoming the default |
| AccountRegistry.LoadAllNewEntries | launcher/minecraft/auth/AccountList.cpp:511-538 | the list part of that |
| AccountRegistry.LoadAllNewDefault | launcher/minecraft/auth/AccountList.cpp:530-532 | the default part of that |
| AccountRegistry.RebuiltShape | launcher/minecraft/auth/AccountList.cpp:511-538 | the appended accounts are the array's data under the new objects, in order |
| AccountRegistry.LastActiveUnique | launcher/minecraft/auth/AccountList.cpp:530-532 | with exactly one element flagged active, its object becomes the default; with none the default is kept |
| AccountRegistry.AccountsUnique | launcher/minecraft/auth/AccountList.cpp:575-586 | the listed accounts, in order, have distinct objects and unique non-empty xids |
| AccountRegistry.SaveLoadRoundTrip | launcher/minecraft/auth/AccountList.cpp:446-617 | loading what saveList wrote into an empty registry gives the same accounts in the same order after the placeholder, and saving again writes the same document |
| AccountRegistry.SavedActiveRow | launcher/minecraft/auth/AccountList.cpp:582-584 | the saved array flags at most one element active, the default's |
| AccountRegistry.ResavedArray | launcher/minecraft/auth/AccountList.cpp:575-586 | saving the accounts loaded from an array gives that array back |
| AccountRegistry.AppendPlaceholderKeepsConsistent | launcher/minecraft/auth/AccountList.cpp:454 | appending the placeholder row keeps the registry consistent and its objects unchanged |
| AccountRegistry.RowEvents | launcher/minecraft/auth/AccountList.cpp:260-261 | one row notification per reported row, in order |
| AccountRegistry.SavedTwice | launcher/minecraft/auth/AccountList.cpp:596-611 | writing the list file twice leaves what the second write wrote |
| AccountRegistry.AccountList.constructor | launcher/minecraft/auth/AccountList.h:99-159 | an empty list with no default, no queue, no task, counter 0, no file path and autosave off |
| AccountRegistry.AccountList.GetAccountBy | launcher/minecraft/auth/AccountList.cpp:56-108 | found exactly when some account row matches, then the first such row and its account; otherwise row -1 and no account |
| AccountRegistry.AccountList.DefaultAccountIndex | launcher/minecraft/auth/AccountList.cpp:191-209 | -1 exactly when there is no default, otherwise the row holding the default |
| AccountRegistry.AccountList.SaveList | launcher/minecraft/auth/AccountList.cpp:544-617 | fails exactly with an empty path or a file that cannot be written, and then leaves the files as they were; otherwise the file holds the version 3 document of the accounts with the default flagged |
| AccountRegistry.AccountList.OnListChanged | launcher/minecraft/auth/AccountList.cpp:318-325 | autosaves when enabled and the file can be written, and reports the list change |
| AccountRegistry.AccountList.OnDefaultAccountChanged | launcher/minecraft/auth/AccountList.cpp:327-333 | autosaves when enabled and the file can be written, and reports the default change |
| AccountRegistry.AccountList.AddAccount | launcher/minecraft/auth/AccountList.cpp:132-166 | the list and row are those of the three outcomes; a listed object changes and saves nothing, a merge reports its row then the list change, an append the list change |
| AccountRegistry.AccountList.RemoveAccount | launcher/minecraft/auth/AccountList.cpp:169-189 | an unknown id changes nothing; otherwise the row is removed, the default cleared with a default change when it was that account, then the list change |
| AccountRegistry.AccountList.SetDefaultAccount | launcher/minecraft/auth/AccountList.cpp:217-266 | the new default is the listed requested account, null, or unchanged; notifications and the autosave happen only when it changes, with the rows of the old and new default reported |
| AccountRegistry.AccountList.BeginActivity | launcher/minecraft/auth/AccountList.cpp:727-729 | the counter is incremented with 32-bit wrap-around |
| AccountRegistry.AccountList.EndActivity | launcher/minecraft/auth/AccountList.cpp:731-737 | the counter is decremented, and left at zero at zero |
| AccountRegistry.AccountList.QueueRefresh | launcher/minecraft/auth/AccountList.cpp:675-681 | the queue gains the id at the back unless it is already queued |
| AccountRegistry.AccountList.TryNext | launcher/minecraft/auth/AccountList.cpp:684-709 | queue and task are what NextTask gives; the hourly timer is armed exactly when nothing started |
| AccountRegistry.AccountList.StartRefreshOf | launcher/minecraft/auth/AccountList.cpp:688-704 | the pass over the rows starts exactly when some account with the id hands out a task, the first such one; otherwise the account task is cleared when the id names an account |
| AccountRegistry.AccountList.RequestRefresh | launcher/minecraft/auth/AccountList.cpp:663-673 | the id goes to the front; only when the counter is zero is the next refresh tried |
| AccountRegistry.AccountList.FillQueue | launcher/minecraft/auth/AccountList.cpp:636-661 | the queue is filled as FilledQueue says, then the next refresh is tried |
| AccountRegistry.AccountList.AuthFinished | launcher/minecraft/auth/AccountList.cpp:711-721 | the account task is dropped and the 20-second timer armed |
| AccountRegistry.AccountList.SetListFilePath | launcher/minecraft/auth/AccountList.cpp:619-623 | only the path and the autosave flag change |
| AccountRegistry.AccountList.LoadV3 | launcher/minecraft/auth/AccountList.cpp:508-541 | the registry becomes what loading the array into it gives, with one model reset, and the call succeeds |
| AccountRegistry.AccountList.LoadList | launcher/minecraft/auth/AccountList.cpp:446-506 | succeeds exactly for a readable version 3 document; an empty path changes nothing, any other failure leaves only the placeholder appended (and an other-version file renamed), and success loads the document's accounts after the placeholder |
| AuthTask.StateMessage | launcher/minecraft/auth/AccountTask.cpp:35-58 | getStateMessage: one status text per known state; the ellipsis text exactly for a state code outside the enumeration |
| AuthTask.StateMessageIdentifiesState | launcher/minecraft/auth/AccountTask.cpp:35-58 | the status texts of distinct known states differ, so the text identifies the state |
| AuthTask.StateMessageInjective | launcher/minecraft/auth/AccountTask.cpp:35-58 | two known states with the same status text are the same state |
| AuthTask.ChangeOutcome | launcher/minecraft/auth/AccountTask.cpp:60-115 | changeState's effect per state: created clears the error string, working marks the account Working, succeeded marks it Online and emits success, each failure state stores the reason, sets its account state and emits failure, an unknown code marks it Errored with the "Unknown account task state" text; it continues exactly for created and working, and then emits nothing |
| AuthTask.FailureMappingIsInjective | launcher/minecraft/auth/AccountTask.cpp:78-107 | the five failure states set five different account states |
| AuthTask.AccountTask.constructor | launcher/minecraft/auth/AccountTask.cpp:29-33 | a new task is in the created state with its status text, and the account's error string is cleared |
| AuthTask.AccountTask.ChangeState | launcher/minecraft/auth/AccountTask.cpp:60-115 | stores the state and its status text, then updates the account and the emitted signals as ChangeOutcome says, and returns whether the flow continues |
| AuthTask.StepsRun | launcher/minecraft/auth/AccountTask.cpp:60-115 | the runner executes steps up to and including the first whose state does not continue, every earlier one continuing |
| AuthTask.RunFlow | launcher/minecraft/auth/AccountTask.cpp:60-115 | runs the reported states through changeState in order until one answers "stop"; exactly one signal is appended: the stopping state's failure or success signal, or success when every step continued. The account ends Online after success or in the stopping state's account state, and the error string is the failure reason or the one the continuing steps left |
| AuthTask.StepsRunStopsAt | launcher/minecraft/auth/AccountTask.cpp:60-115 | a run stops right after the first step whose state does not continue |
| AuthTask.StepsRunAllContinue | launcher/minecraft/auth/AccountTask.cpp:65-72 | when every step continues, every step runs |
| AuthTask.GetString | launcher/minecraft/auth/AccountTask.cpp:131 | a field is taken exactly when it holds a JSON string, and then it is that string |
| AuthTask.FromJson | launcher/minecraft/auth/AccountTask.cpp:117-145 | MojangError::fromJSON keeps the raw body and network error; an unparsable body gives only the parse error; a parsed one takes path, error and errorMessage from the root and details.status only from an object under "details" |
| AuthTask.ToString | launcher/minecraft/auth/AccountTask.cpp:147-177 | the text always starts with the network-error line |
| AuthTask.PrintedPathLine | launcher/minecraft/auth/AccountTask.cpp:151-157 | a parsed reply with a path prints it on the line after the network line |
| AuthTask.PrintedDocument | launcher/minecraft/auth/AccountTask.cpp:147-170 | a parsed reply prints the network line, then one line for each string field of path, error, errorMessage and details.status the document holds, in that order |
| AuthTask.PrintedEmptyDocument | launcher/minecraft/auth/AccountTask.cpp:152-170 | a parsed document with none of the fields prints only the network line |
| AuthTask.PrintedUnparsable | launcher/minecraft/auth/AccountTask.cpp:171-175 | an unparsable reply prints the parser's message after the network line and ends with the raw body |
| Claim.NotFoundMessage | launcher/minecraft/launch/ClaimAccount.cpp:30 | the failure message embeds the player name between its fixed prefix and suffix |
| Claim.Execution | launcher/minecraft/launch/ClaimAccount.cpp:19-37 | executeTask always ends the step; it takes the lock on the found account exactly when online with an account, fails naming the player exactly when online without one, and otherwise succeeds |
| Claim.LockOnlyOnSuccess | launcher/minecraft/launch/ClaimAccount.cpp:21-27 | a held lock means the claim was online and succeeded, on the account it found |
| Claim.ClaimAccount.constructor | launcher/minecraft/launch/ClaimAccount.cpp:7-17 | the claim is online exactly for a playable online, non-demo session, and then its account is the first listed with the session's profile name, if any |
| Claim.ClaimAccount.ExecuteTask | launcher/minecraft/launch/ClaimAccount.cpp:19-37 | sets the lock and the step outcome as Execution says |
| Claim.ClaimAccount.Finalize | launcher/minecraft/launch/ClaimAccount.cpp:39-42 | releases the lock |
| AuthSteps.BetweenInverts | launcher/minecraft/auth/steps/MinecraftProfileCreateStep.cpp:34-35 | a value placed between a fixed prefix and suffix can be read back from between them |
| AuthSteps.CreateDescription | launcher/minecraft/auth/steps/MinecraftProfileCreateStep.cpp:22-24 | the description quotes the requested profile name, which can be read back from it |
| AuthSteps.ProfileNamePayload | launcher/minecraft/auth/steps/MinecraftProfileCreateStep.cpp:34-35 | the body is the profileName object with the name substituted, and the name reads back from it |
| AuthSteps.CreateRequest | launcher/minecraft/auth/steps/MinecraftProfileCreateStep.cpp:27-40 | a JSON POST to API_BASE + "/minecraft/profile" with the bearer token, JSON content type and accept headers, and a body naming the profile |
| AuthSteps.CreateRequestDone | launcher/minecraft/auth/steps/MinecraftProfileCreateStep.cpp:42-66 | exactly one finish; success or an ALREADY_REGISTERED reply finishes Working with no report; any other error emits apiError with the parsed reply and then finishes Succeeded |
| AuthSteps.AlreadyRegisteredContinues | launcher/minecraft/auth/steps/MinecraftProfileCreateStep.cpp:55-60 | a reply whose JSON details.status is ALREADY_REGISTERED continues the flow whatever the network error |
| AuthSteps.GetVariant | launcher/minecraft/auth/steps/SetSkinStep.cpp:18-29 | "SLIM" exactly for the slim model; "CLASSIC" for the classic model and for any value outside the enum |
| AuthSteps.VariantNamesModel | launcher/minecraft/auth/steps/SetSkinStep.cpp:18-29 | the variant name of each model reads back as that model |
| AuthSteps.SkinDescription | launcher/minecraft/auth/steps/SetSkinStep.cpp:36-45 | "Clearing skin" exactly for empty skin data, "Uploading skin" otherwise |
| AuthSteps.SkinRequest | launcher/minecraft/auth/steps/SetSkinStep.cpp:47-79 | to API_BASE + "/minecraft/profile/skins" with the bearer token: a DELETE with no body exactly when the data is empty, otherwise a POST of a form with the PNG file part and then the variant part |
| AuthSteps.SkinUploadRoundTrip | launcher/minecraft/auth/steps/SetSkinStep.cpp:60-72 | an upload carries the skin bytes and a variant that reads back as the model it was built for |
| AuthSteps.SkinRequestDone | launcher/minecraft/auth/steps/SetSkinStep.cpp:81-100 | exactly one finish; success finishes Working; any error emits apiError and then finishes Succeeded |
| AuthSteps.CapeIdPayload | launcher/minecraft/auth/steps/SetCapeStep.cpp:43-44 | the body is the capeId object with the id substituted, and the id reads back from it |
| AuthSteps.CapeRequest | launcher/minecraft/auth/steps/SetCapeStep.cpp:27-50 | to API_BASE + "/minecraft/profile/capes/active" with the bearer token: a DELETE with no body or content headers exactly for an empty id, otherwise a JSON PUT naming the cape |
| AuthSteps.CapeRequestDone | launcher/minecraft/auth/steps/SetCapeStep.cpp:52-71 | exactly one finish; success finishes Working; any error emits apiError and then finishes Succeeded |
| AuthSteps.StepOutcomeNeverFailsTask | launcher/minecraft/auth/AccountTask.cpp:69-77 | a step's finish either continues the flow or ends the account task as succeeded with the account Online and its error string kept; it ends it exactly when an apiError was emitted |
| AuthSteps.RepliesAreContinueOrReport | launcher/minecraft/auth/steps/SetCapeStep.cpp:60-70 | the replies of all three steps are either a plain Working finish or one apiError followed by a Succeeded finish |
| MsaFlows.SignInFlow | launcher/minecraft/auth/flows/MSA.cpp:15-40 | the sign-in flows have nine steps starting with the MSA step of their action, and forward no apiError |
| MsaFlows.SilentAndInteractiveDifferOnlyInAction | launcher/minecraft/auth/flows/MSA.cpp:15-40 | MSASilent and MSAInteractive differ only in the first step's action, Refresh against Login |
| MsaFlows.CreateProfileFlow | launcher/minecraft/auth/flows/MSA.cpp:42-55 | ten steps; the profile-create step sits, forwarded, after the entitlements check and before the profile fetch, and nowhere else |
| MsaFlows.SetSkinFlow | launcher/minecraft/auth/flows/MSA.cpp:57-79 | the forwarded skin step follows the entitlements check; the forwarded cape step follows it exactly when the requested cape differs from the profile's current one; ten or eleven steps |
| MsaFlows.AuthFlow.AppendSignIn | launcher/minecraft/auth/flows/MSA.cpp:16-22 | appends the seven sign-in steps in order |
| MsaFlows.AuthFlow.AppendProfileFetch | launcher/minecraft/auth/flows/MSA.cpp:23-24 | appends the profile and skin fetch steps |
| MsaFlows.AuthFlow.Silent | launcher/minecraft/auth/flows/MSA.cpp:15-25 | builds SignInFlow(Refresh) |
| MsaFlows.AuthFlow.Interactive | launcher/minecraft/auth/flows/MSA.cpp:27-40 | builds SignInFlow(Login) |
| MsaFlows.AuthFlow.CreateProfile | launcher/minecraft/auth/flows/MSA.cpp:42-55 | builds CreateProfileFlow for the name |
| MsaFlows.AuthFlow.SetSkin | launcher/minecraft/auth/flows/MSA.cpp:57-79 | builds SetSkinFlow for the skin, model and cape |
| Capes.DropCached | launcher/skins/CapeCache.cpp:129-139 | getNext's skipping loop: never longer than the queue, and what is left does not start with a cached cape |
| Capes.DropCachedDropsOnlyCached | launcher/skins/CapeCache.cpp:129-139 | only requests at the front are dropped, and only requests for capes already cached |
| Capes.Pairs | launcher/skins/CapeCache.cpp:95-98 | saveNow writes an id and a byte array for each entry, two items per entry |
| Capes.LoadPairsReadsBack | launcher/skins/CapeCache.cpp:53-69 | reading back the pairs written for distinct ids adds exactly those entries with their images and bytes, and keeps every other entry |
| Capes.SaveLoadRoundTrip | launcher/skins/CapeCache.cpp:30-104 | loading the file saveNow wrote into an empty cache gives back the saved index, whatever order the pairs were written in |
| Capes.LoadPairsPrefix | launcher/skins/CapeCache.cpp:53-69 | however far loading gets before a read fails, it keeps the entries already cached and every cached image is the decoding of its bytes |
| Capes.CapeCache.constructor | launcher/skins/CapeCache.cpp:15-19 | a new cache holds what load reads from the cache file, with no request, download, timer or signal pending |
| Capes.CapeCache.Load | launcher/skins/CapeCache.cpp:30-70 | the index becomes what reading the file adds to it: nothing for a missing file or unreadable count, else entries up to the first failed read, undecodable images kept with their bytes |
| Capes.CapeCache.SaveNow | launcher/skins/CapeCache.cpp:80-104 | with a writable file: the count and then one id-bytes pair per entry, in ascending id order (the QMap's key order); otherwise the file is untouched |
| Capes.AscendingEnumerationUnique | launcher/skins/CapeCache.h:53 | a set of ids has exactly one ascending enumeration, so the file saveNow writes is determined by the index |
| Capes.SmallestKeyExists | launcher/skins/CapeCache.cpp:96 | every non-empty set of QMap keys has a smallest key, the one the iteration visits next |
| Capes.CapeCache.SaveLater | launcher/skins/CapeCache.cpp:72-78 | the single-shot save timer is running |
| Capes.CapeCache.SaveTimerFired | launcher/skins/CapeCache.cpp:17 | the timer stops and the file is saved as SaveNow says, in ascending id order |
| Capes.CapeCache.Destroy | launcher/skins/CapeCache.cpp:21-28 | a pending save is flushed; without one the file is untouched |
| Capes.CapeCache.GetCapeImage | launcher/skins/CapeCache.cpp:188-196 | the cached image of a known id, the null placeholder for an unknown one |
| Capes.CapeCache.AddCapeImage | launcher/skins/CapeCache.cpp:106-117 | a cached id changes nothing; otherwise the request is queued and getNext runs on the longer queue |
| Capes.CapeCache.GetNext | launcher/skins/CapeCache.cpp:119-148 | with a download running nothing changes; otherwise cached requests are dropped from the front and a download starts for the first uncached one, if any |
| Capes.CapeCache.RequestFinished | launcher/skins/CapeCache.cpp:150-167 | the served request leaves the queue, its bytes are cached under its id even when they do not decode, a save is scheduled, capeReady is emitted for it and getNext runs |
| Capes.CapeCache.RequestFailed | launcher/skins/CapeCache.cpp:169-178 | the failed request leaves the queue, the index is untouched, and getNext runs |
| Capes.PairsAppend | launcher/skins/CapeCache.cpp:96-98 | one more key appends its id and its raw bytes to the stream |
| CapesList.NothingRow | launcher/skins/CapesModel.cpp:34 | the first row has the empty id and the no-cape picture |
| CapesList.IndexAppend | launcher/skins/CapesModel.cpp:44-45 | indexing a new row's id to the row count before pushing it keeps every indexed id pointing at a row with that id |
| CapesList.DistinctCapesIndexed | launcher/skins/CapesModel.cpp:38-46 | when ids are unique, every row is found through the index |
| CapesList.CapeRow | launcher/skins/CapesModel.cpp:40-43 | a profile cape's row has its id and alias, and the preview cropped from the cached image |
| CapesList.CapesModel.constructor | launcher/skins/CapesModel.cpp:15-19 | a new model has no account, no rows and an empty index |
| CapesList.CapesModel.SetAccount | launcher/skins/CapesModel.cpp:21-50 | the account is the new one in both cases; the same account changes nothing else; another rebuilds the rows as the Nothing row followed by one row per profile cape in order, and resets the model |
| CapesList.CapesModel.AppendCapeRows | launcher/skins/CapesModel.cpp:38-46 | the loop appends one row per profile cape in order, keeping the earlier rows and the index exact |
| CapesList.CapesModel.CapeImageUpdated | launcher/skins/CapesModel.cpp:52-63 | an unknown id changes nothing; a known one refreshes only the preview of its indexed row and reports that row changed |
| CapesList.CapesModel.At | launcher/skins/CapesModel.cpp:94-101 | the row's id, or the empty id out of range |
| CapesList.CapesModel.RowCount | launcher/skins/CapesModel.cpp:89-92 | the number of rows |
| CapesList.NothingIndexedAtZero | launcher/skins/CapesModel.cpp:34-45 | after setAccount the empty id leads to row 0 as long as no profile cape has an empty id |
| Skins.DefaultEntry | launcher/skins/SkinTypes.cpp:14 | the placeholder entry is not internal and has no variant, so every query on it gives the null result |
| Skins.FileEntry | launcher/skins/SkinTypes.cpp:18-22 | a file entry is not internal and carries its name, path and one file variant of the given data, image and id |
| Skins.ResourceVariant | launcher/skins/SkinTypes.cpp:27-36 | a resource variant keeps the bytes read; when validation rejects them its image is null and its id empty |
| Skins.ResourceEntry | launcher/skins/SkinTypes.cpp:24-47 | a built-in entry is internal, has no file name or file variant, and carries the slim and classic resources' bytes |
| Skins.Variant | launcher/skins/SkinTypes.cpp:49-67 | the variant the texture queries read: an internal entry always has one, and there is none exactly for a null entry |
| Skins.TextureFor | launcher/skins/SkinTypes.cpp:49-67 | getTextureFor: the selected variant's texture, the null image for a null entry |
| Skins.TextureIDFor | launcher/skins/SkinTypes.cpp:69-87 | getTextureIDFor: the selected variant's id, the empty id for a null entry |
| Skins.TextureDataFor | launcher/skins/SkinTypes.cpp:89-105 | getTextureDataFor: the selected variant's bytes, no bytes for a null entry |
| Skins.MatchesIdIsSomeModelsId | launcher/skins/SkinTypes.cpp:244-264 | a non-null entry matches exactly the ids getTextureIDFor gives for one of the two models |
| Skins.NullEntryMatchesNothing | launcher/skins/SkinTypes.cpp:259-263 | a null entry matches no id, not even the empty one |
| Skins.ListTextureSource | launcher/skins/SkinTypes.cpp:230-242 | getListTexture paints the slim variant as slim for internal entries, the file variant as classic otherwise, and gives the null image exactly for a null entry |
| SkinUtils.HashInput | launcher/skins/SkinUtils.cpp:21-40 | four bytes per pixel, in column-major order |
| SkinUtils.HashInputAt | launcher/skins/SkinUtils.cpp:25-38 | the four bytes of pixel i sit at position 4i: red, green, blue, alpha, or four zeros for a fully transparent pixel |
| SkinUtils.HashIgnoresHiddenColour | launcher/skins/SkinUtils.cpp:31-34 | images that differ only in the colour of fully transparent pixels hash alike |
| SkinUtils.HashDeterminesVisiblePixels | launcher/skins/SkinUtils.cpp:31-38 | equal streams mean every pixel visible in one image is the same pixel in the other |
| SkinUtils.HashSkin | launcher/skins/SkinUtils.cpp:17-42 | the two loops feed the digest exactly HashInput of the image's pixels |
| SkinUtils.KeyedImage | launcher/skins/SkinUtils.cpp:88-93 | keying keeps the dimensions and leaves an image with a non-opaque corner unchanged |
| SkinUtils.KeyedImageMasksCorner | launcher/skins/SkinUtils.cpp:88-93 | with an opaque corner, a pixel is transparent afterwards exactly when it had the corner colour or was transparent already, and no pixel of another colour changes |
| SkinUtils.SkinFromData | launcher/skins/SkinUtils.cpp:71-97 | accepted exactly when smaller than 64*64*4 bytes and decoding to width 64 and height 32 or 64; then the image is the keyed image and the id is the hash of its pixels |
| SkinUtils.ReadSkinFromData | launcher/skins/SkinUtils.cpp:71-97 | computes SkinFromData |
| SkinUtils.SameVisibleSkinSameId | launcher/skins/SkinUtils.cpp:31-34 | two accepted skins whose keyed images differ only in hidden colours get the same texture id |
| SkinUtils.SkinFromFile | launcher/skins/SkinUtils.cpp:43-69 | an accepted file exists and what is accepted is its contents |
| SkinUtils.SkinFromFileAccepts | launcher/skins/SkinUtils.cpp:43-69 | accepted exactly for a regular file with a "png" suffix in any letter case, below the size limit, readable, and whose contents validate; the result is those contents with their keyed image and id |
| SkinUtils.ReadSkinFromFile | launcher/skins/SkinUtils.cpp:43-69 | the key is the complete base name of the path, on success and failure alike; the result is SkinFromFile |
| SkinLibrary.BuiltInEntry | launcher/skins/SkinsModel.cpp:53-58 | a built-in entry is internal and carries the name it was added under |
| SkinLibrary.BuiltIns | launcher/skins/SkinsModel.cpp:35-43 | one built-in entry per default name |
| SkinLibrary.BuiltInsAt | launcher/skins/SkinsModel.cpp:35-43 | the i-th built-in entry is the entry of the i-th default name, in the constructor's order |
| SkinLibrary.BuiltInsAreInternal | launcher/skins/SkinsModel.cpp:104-113 | built-in entries contribute no file to the set directoryChanged compares against |
| SkinLibrary.NameIndexAt | launcher/skins/SkinsModel.cpp:438-447 | after reindex a name is indexed exactly when some row carries it, and it leads to the last such row |
| SkinLibrary.NameIndexFindsEveryRow | launcher/skins/SkinsModel.cpp:438-456 | with distinct names, looking up any row's name gives that row back |
| SkinLibrary.NameIndexReplace | launcher/skins/SkinsModel.cpp:175-179 | replacing a row in place by an entry of the same name leaves the index valid as it was |
| SkinLibrary.RemoveLastNamed | launcher/skins/SkinsModel.cpp:128-133 | looking a name up and removing its row shortens the list by one exactly when the name is indexed, and keeps every entry well built |
| SkinLibrary.RemoveLastNamedDropsLast | launcher/skins/SkinsModel.cpp:128-133 | that removal drops exactly the last entry with the name, keeping the rest in order, and changes nothing for an unknown name |
| SkinLibrary.RemoveEach | launcher/skins/SkinsModel.cpp:123-139 | removing names one after the other never lengthens the list and keeps entries well built |
| SkinLibrary.RemoveEachNextName | launcher/skins/SkinsModel.cpp:229-240 | the removal loop's step: the next name is removed from what the earlier names left |
| SkinLibrary.RemovalKeys | launcher/skins/SkinUtils.cpp:43-51 | the key a file is removed by is its complete base name, the name its entry was read under |
| SkinLibrary.RemoveEachNext | launcher/skins/SkinsModel.cpp:123-135 | the removal loop's step over files: the next file's key is removed after the earlier ones |
| SkinLibrary.NewEntry | launcher/skins/SkinsModel.cpp:145-157 | a file gives an entry exactly when it reads as a valid skin; that entry is a non-internal, non-null file entry named by the file's complete base name |
| SkinLibrary.AddedEntries | launcher/skins/SkinsModel.cpp:142-158 | the addition loop adds at most one entry per file, each well built |
| SkinLibrary.AddedEntriesAppend | launcher/skins/SkinsModel.cpp:142-158 | one more file adds its entry, if any, at the end |
| SkinLibrary.AddedEntriesAfter | launcher/skins/SkinsModel.cpp:151-155 | the entries are appended after those already in the list |
| SkinLibrary.AddedEntriesAreFiles | launcher/skins/SkinsModel.cpp:153 | no added entry is internal |
| SkinLibrary.AddedEntriesComeFromValidFiles | launcher/skins/SkinsModel.cpp:142-158 | every added entry comes from one of the files, read as a valid skin and named by the file's complete base name |
| SkinLibrary.NewEntryFacts | launcher/skins/SkinsModel.cpp:149-153 | an entry a file becomes is a file entry for that path, named by its complete base name |
| SkinLibrary.ValidFilesAreAdded | launcher/skins/SkinsModel.cpp:142-158 | every valid file among the new ones gets its entry |
| SkinLibrary.CandidateKeysDistinct | launcher/skins/SkinsModel.cpp:387-394 | different attempts of installSkin try different names |
| SkinLibrary.FirstFreeSlot | launcher/skins/SkinsModel.cpp:385-401 | the chosen attempt is below 100, its file does not exist and every earlier attempt's file does; none only when all hundred exist |
| SkinLibrary.SkinsModel.constructor | launcher/skins/SkinsModel.cpp:25-46 | the nine built-in skins come first, in order, their names reserved; after them, with a readable folder, one entry for each valid listed file whose base name is not reserved, added in the QSet's iteration order; with no folder listing, only the built-in skins. No removal is pending, the removal timer is stopped, the folder is the path, and one list update is logged exactly when a file was added |
| SkinLibrary.SkinsModel.Populate | launcher/skins/SkinsModel.cpp:35-45 | the built-in skins are added and reserved, then the folder's entries follow them: exactly the entries AddedEntries makes for some enumeration of the listed, unreserved files, and nothing when there is no listing; the folder becomes the path and one list update is logged exactly when a file was added |
| SkinLibrary.SkinsModel.AddDefaultSkins | launcher/skins/SkinsModel.cpp:35-43 | the list is exactly the built-in entries and the reserved names exactly their names |
| SkinLibrary.SkinsModel.AddDefaultSkin | launcher/skins/SkinsModel.cpp:53-59 | one internal entry at the end, its name reserved and indexed to its row |
| SkinLibrary.SkinsModel.At | launcher/skins/SkinsModel.cpp:62-69 | a row in range gives its entry, any other row the null placeholder |
| SkinLibrary.SkinsModel.GetSkinIndex | launcher/skins/SkinsModel.cpp:449-456 | -1 exactly when no row has the name, otherwise the last row that has it |
| SkinLibrary.SkinsModel.SkinEntryFor | launcher/skins/SkinsModel.cpp:458-467 | the entry in the last row with the name (the row getSkinIndex gives), or the placeholder exactly when there is none |
| SkinLibrary.SkinsModel.SkinEntryByTextureID | launcher/skins/SkinsModel.cpp:469-479 | the first entry matching the texture id, or the placeholder when none does |
| SkinLibrary.SkinsModel.Reindex | launcher/skins/SkinsModel.cpp:438-447 | the index is rebuilt from the rows, later rows winning |
| SkinLibrary.SkinsModel.RemoveNamed | launcher/skins/SkinsModel.cpp:128-138 | the row found by name is removed and the index rebuilt; reports whether a row went |
| SkinLibrary.SkinsModel.ScheduleRemoval | launcher/skins/SkinsModel.cpp:210-214 | the name joins the pending set and the timer runs |
| SkinLibrary.SkinsModel.CancelRemoval | launcher/skins/SkinsModel.cpp:216-224 | reports whether the name was pending, removes it, and stops the timer once nothing is pending |
| SkinLibrary.SkinsModel.RemovalTimerTriggered | launcher/skins/SkinsModel.cpp:226-245 | every pending name, in the set's iteration order, loses its entry, with one list update per removal; the pending set is kept |
| SkinLibrary.SkinsModel.DirectoryChanged | launcher/skins/SkinsModel.cpp:71-163 | shown files no longer listed lose their entries, listed files not yet shown are added when valid, and one list update follows any change; nothing changes when the folder cannot be made |
| SkinLibrary.SkinsModel.ApplyDiff | launcher/skins/SkinsModel.cpp:116-162 | the removal then addition loops over the two set differences, each in its iteration order, with one list update after a change |
| SkinLibrary.SkinsModel.ListFiles | launcher/skins/SkinsModel.cpp:91-102 | the listed files as folder paths, files whose base name is reserved skipped |
| SkinLibrary.SkinsModel.CurrentFiles | launcher/skins/SkinsModel.cpp:104-114 | the filenames of the non-internal entries |
| SkinLibrary.SkinsModel.RemoveFiles | launcher/skins/SkinsModel.cpp:122-139 | each file's key removes its row with the index rebuilt each time; reports whether anything went |
| SkinLibrary.SkinsModel.AddFiles | launcher/skins/SkinsModel.cpp:141-158 | the valid files' entries are appended in order; reports whether any was |
| SkinLibrary.SkinsModel.AddFile | launcher/skins/SkinsModel.cpp:144-157 | one file's entry at the end when it is valid, nothing otherwise |
| SkinLibrary.SkinsModel.AppendEntry | launcher/skins/SkinsModel.cpp:151-155 | one entry at the end, its name indexed to its row and every other name as before |
| SkinLibrary.SkinsModel.FileChanged | launcher/skins/SkinsModel.cpp:165-208 | a valid file cancels its pending removal (the timer stops once nothing is pending) and replaces its entry in place or is appended; an invalid file schedules its entry's removal only when it has one; nothing else changes |
| SkinLibrary.SkinsModel.PutEntry | launcher/skins/SkinsModel.cpp:175-192 | an indexed name's row is replaced in place with a data-changed, skin-updated and list update; a new name is appended with a list update |
| SkinLibrary.SkinsModel.FindFreeSlot | launcher/skins/SkinsModel.cpp:381-401 | the loop finds the first free attempt and the key and path it names |
| SkinLibrary.SkinsModel.InstallSkin | launcher/skins/SkinsModel.cpp:379-421 | with a free name, valid data and a committed write the entry is appended and its row returned; otherwise nothing changes and no row is returned |
| SkinLibrary.StaleRemoval | launcher/skins/SkinsModel.cpp:123-135 | the removal loop as written, rows taken from an index not rebuilt during the loop, never lengthens the list |
| SkinLibrary.BaseNameKeys | launcher/skins/SkinsModel.cpp:126-127 | the keys the removal loop as written uses are base names, which hold no dot |
| SkinLibrary.IndexOfThree | launcher/skins/SkinsModel.cpp:438-447 | the index of three entries a, b, c maps each to its row |
| SkinLibrary.StaleIndexRemovesWrongEntry | launcher/skins/SkinsModel.cpp:229-243 | removing a then b from [a, b, c] through the stale index keeps b and drops c; rebuilding the index keeps only c |
| SkinLibrary.StaleRemovalOfThree | launcher/skins/SkinsModel.cpp:229-240 | the stale-index half of that counterexample |
| SkinLibrary.RemoveEachOfThree | launcher/skins/SkinsModel.cpp:229-240 | the corrected half of that counterexample |
| SkinLibrary.RemoveNamedOfDistinct | launcher/skins/SkinsModel.cpp:128-133 | with distinct names, removing an entry's name removes exactly that entry |
| SkinLibrary.DottedPathNames | launcher/skins/SkinUtils.cpp:46 | the complete base name of "d/my.skin.png" is "my.skin", its base name "my" |
| SkinLibrary.BaseNameKeyMisses | launcher/skins/SkinsModel.cpp:126-130 | when a file's base name differs from its complete base name, the removal as written keeps its entry and the complete base name removes it |
| SkinLibrary.BaseNameKeyMissesDottedName | launcher/skins/SkinsModel.cpp:126-130 | the entry for "d/my.skin.png" survives the removal of its file as written |
| SkinLibrary.OneEntryRemoval | launcher/skins/SkinsModel.cpp:128-133 | a key other than the entry's name misses it, its own name removes it |
| SkinLibrary.Keep | launcher/skins/SkinsModel.cpp:116-135 | the reference definition of removing a set of names: never longer than the list |
| SkinLibrary.KeepMembers | launcher/skins/SkinsModel.cpp:116-135 | an entry is kept exactly when it is in the list and its name is not removed |
| SkinLibrary.KeepNothingNamed | launcher/skins/SkinsModel.cpp:129-130 | keeping changes nothing when no entry carries a removed name |
| SkinLibrary.KeepDropsOnlyRow | launcher/skins/SkinsModel.cpp:131-133 | with a single entry of that name, keeping the others removes just its row |
| SkinLibrary.KeepKeep | launcher/skins/SkinsModel.cpp:123-135 | two rounds of removal are one round with both sets of names |
| SkinLibrary.KeepDistinct | launcher/skins/SkinsModel.cpp:438-447 | removal keeps the names distinct, so the rebuilt index stays one-to-one |
| SkinLibrary.RemoveLastNamedIsKeep | launcher/skins/SkinsModel.cpp:128-138 | with distinct names, removing by name with the index rebuilt removes exactly the entry with that name |
| SkinLibrary.RemoveEachIsKeep | launcher/skins/SkinsModel.cpp:123-139 | with distinct names, the corrected loop removes exactly the entries named by the keys, in any iteration order, keeping the others in order |
| SkinRenderer.FlipXSwapsLeftRight | launcher/skins/SkinRenderer.cpp:33-42 | mirroring the x axis swaps the left and right texture edges and nothing else |
| SkinRenderer.FlipYSwapsBottomTop | launcher/skins/SkinRenderer.cpp:43-52 | mirroring the y axis swaps the bottom and top texture edges and nothing else |
| SkinRenderer.EdgesSpanRegion | launcher/skins/SkinRenderer.cpp:32-52 | whatever the flags, the edges are the region's two x bounds and its two y bounds |
| SkinRenderer.QuadElementsCoverQuad | launcher/skins/SkinRenderer.cpp:59-65 | the two triangles of a quad use exactly its four vertices and share the diagonal from the second to the fourth |
| SkinRenderer.FacesCloseTheBox | launcher/skins/SkinRenderer.cpp:106-182 | each face uses four different corners, and front and back, left and right, bottom and top each split the eight corners between them |
| SkinRenderer.FaceVerticesAre | launcher/skins/SkinRenderer.cpp:106-182 | the six faces in RenderBox's order, each over its four corners and its own region of the mapping |
| SkinRenderer.FacesLength | launcher/skins/SkinRenderer.cpp:54-57 | each face adds four vertices |
| SkinRenderer.RenderedPartsCount | launcher/skins/SkinRenderer.cpp:185-275 | RenderSkin draws 12 body boxes for version 1 skins and 7 otherwise, plus the cape box first exactly when there is a cape texture, with layout 0 for one at least 34 pixels high |
| SkinRenderer.QuadsInRange | launcher/skins/SkinRenderer.cpp:59-67 | appending quads keeps every index below the next start index and adds six indices per quad |
| SkinRenderer.GeometryShape | launcher/skins/SkinRenderer.cpp:70-183 | n boxes give 24n vertices and 36n indices, three indices for every two vertices, and every index names a vertex |
| SkinRenderer.GeometryNext | launcher/skins/SkinRenderer.cpp:70-183 | one more box extends both buffers of the boxes before it |
| SkinRenderer.RenderContext.constructor | launcher/skins/SkinRenderer.cpp:278-289 | a new context has empty buffers, start index 0 and the given cape texture height |
| SkinRenderer.RenderContext.RenderQuad | launcher/skins/SkinRenderer.cpp:18-68 | pushes the quad's four vertices with the flipped edges, then the six indices of its two triangles from the start index, which moves on by four |
| SkinRenderer.RenderContext.RenderBox | launcher/skins/SkinRenderer.cpp:70-183 | the buffers keep holding exactly the geometry of the boxes drawn, now with this box appended |
| SkinRenderer.RenderContext.DrawFaces | launcher/skins/SkinRenderer.cpp:106-182 | the six RenderQuad calls append the box's 24 vertices and 36 indices and move the start index on by 24 |
| SkinRenderer.RenderContext.RenderSkin | launcher/skins/SkinRenderer.cpp:185-275 | appends the boxes of RenderedParts, in order, to the geometry |
| SkinRenderer.RenderContext.RenderBody | launcher/skins/SkinRenderer.cpp:211-275 | appends head, torso, legs, arms, head overlay and, for version 1, the other overlays |
| SkinRenderer.RenderContext.RenderLegs | launcher/skins/SkinRenderer.cpp:217-231 | appends the two legs of the skin format |
| SkinRenderer.RenderContext.RenderArms | launcher/skins/SkinRenderer.cpp:217-231 | appends the two arms of the skin format and model |
| SkinRenderer.RenderContext.RenderOverlays | launcher/skins/SkinRenderer.cpp:234-241 | appends the torso, arm and leg overlays |
| SkinRenderer.RenderContext.RenderArmCovers | launcher/skins/SkinRenderer.cpp:237-238 | appends the arm overlays of the model |
| SkinRenderer.RenderContext.RegenerateGeometry | launcher/skins/SkinRenderer.cpp:437-452 | clears the buffers and draws the skin: the buffers then hold exactly RenderedParts' boxes, the start index equals the vertex count, 24 per box, there are three indices per two vertices and every index names a vertex |
| Common.DecimalString | launcher/skins/SkinsModel.cpp:393 | QString::number of a natural number: one or more decimal digits, a single one exactly below ten |
| Common.DecimalStringInjective | launcher/skins/SkinsModel.cpp:387-394 | distinct numbers print differently, so the names installSkin tries never collide |
| Common.IntString | launcher/minecraft/auth/AccountTask.cpp:109 | the number in the unknown-state message: non-empty, with a leading '-' exactly for a negative value |
| Common.LowerChar | launcher/skins/SkinUtils.cpp:51 | toLower on one character: upper-case ASCII letters become lower-case, everything else is kept |
| Common.ToLower | launcher/skins/SkinUtils.cpp:51 | toLower keeps the length and lower-cases each character |
| Common.Count | launcher/minecraft/auth/AccountList.cpp:664-679 | the occurrences of an id in the refresh queue: none exactly when it is absent |
| Common.CountAppend | launcher/minecraft/auth/AccountList.cpp:679 | pushing an id to the back adds one occurrence of it and of nothing else |
| Common.EnumeratesStep | launcher/skins/SkinsModel.cpp:123 | one more element taken from a hash set extends the iteration order |
| Common.IterationOrder | launcher/skins/SkinsModel.cpp:123 | iterating a hash set or hash map visits each element exactly once, in some order |
| Common.RemoveFirst | launcher/minecraft/auth/AccountList.cpp:664-667 | removeAt(indexOf(id)) changes nothing for an absent id and otherwise drops one element |
| Common.RemoveFirstCount | launcher/minecraft/auth/AccountList.cpp:664-667 | only the removed id loses an occurrence |
| Common.RemoveFirstIsDeletion | launcher/minecraft/auth/AccountList.cpp:664-667 | the first occurrence is dropped and the rest keeps its order |
| Imaging.Pixels | launcher/skins/SkinUtils.cpp:20-39 | the pixels hashSkin visits, column by column: width times height of them |
| Paths.LastIndexOf | launcher/skins/SkinUtils.cpp:46 | the last occurrence of a character, -1 exactly when it is absent |
| Paths.FirstIndexOf | launcher/skins/SkinsModel.cpp:127 | the first occurrence of a character, -1 exactly when it is absent |
| Paths.LastIndexAt | launcher/skins/SkinUtils.cpp:46 | the last occurrence is the one with none after it |
| Paths.FirstIndexAt | launcher/skins/SkinsModel.cpp:127 | the first occurrence is the one with none before it |
| Paths.FileName | launcher/skins/SkinUtils.cpp:45-46 | QFileInfo::fileName: the tail of the path after its last '/' |
| Paths.Suffix | launcher/skins/SkinUtils.cpp:51 | QFileInfo::suffix: the part after the last dot, which holds no dot |
| Paths.CompleteBaseName | launcher/skins/SkinUtils.cpp:46 | QFileInfo::completeBaseName: a prefix of the file name, up to its last dot |
| Paths.BaseName | launcher/skins/SkinsModel.cpp:127 | QFileInfo::baseName: a prefix of the complete base name, up to the first dot, holding no dot |

## Left out

- I/O, networking and foreign code are not modelled, only given as parameters. This covers:
  - file reads and writes, QSaveFile commits, renames and permissions;
  - Qt JSON parsing and QDataStream encoding;
  - PNG decoding, SHA-256 and multipart/form-data encoding;
  - AuthRequest/NetJob.
  Each is a parameter of the operation that uses it: a map from path to file, a codec, a decoder, a `writable` or `commitOk` flag, or a parsed reply.
- Timers and QFileSystemWatcher are not modelled as running. A timer is its armed interval, and the watcher's `addPath`/`removePath`/`removePaths` calls and the `startWatching`/`stopWatching` bookkeeping are left out.
- Qt's row notifications (`beginInsertRows`, `endRemoveRows` and the like) are left out, since nothing in the core reads them. The signals the classes emit themselves are kept as an appended event log, and so are dataChanged for rows and model resets.
- `tr()` translation is left out: messages are the untranslated English texts.
- MinecraftAccount and AccountData are not part of this model. An account is its data fields (internal id, xid, profile name, `shouldRefresh()`) plus an identity token. `replaceDataWith` replaces the data. `refresh()` is a set of accounts whose refresh hands out a task. `loadFromJsonV3`/`saveToJson` are an abstract element that either carries data or is rejected.
- AccountList's `profileNames`, `anyAccountIsValid`, `onAccountChanged`, `onAccountActivityChanged`, `data`, `flags` and `setData` are view and signal plumbing, and are not modelled. `isActive` is the predicate `RequestRefresh` branches on. The account's `disconnect` is left out.
- AuthTask.RunFlow: the AuthFlow runner is not part of this model. It is assumed to run the steps in order while `changeState` answers "continue", and to report success after the last step.
- The other authentication steps (MSA, Xbox user, Xbox authorization, launcher login, entitlements, profile fetch, skin fetch) are opaque tags with their constructor arguments. Their network behaviour is not modelled.
- AuthSteps.ProfileNamePayload and AuthSteps.CapeIdPayload substitute the name or id without JSON escaping, as the source does. The read-back they state is positional, between the fixed prefix and suffix. A value containing a quote would make the body malformed JSON, and JSON parsing of the body is not modelled.
- SkinUtils.KeyedImage: QImage::setAlphaChannel with the mask is taken as "pixels of the corner colour become fully transparent, the others keep their alpha". Qt's multiplication of alpha values is not modelled.
- SkinRenderer: OpenGL calls, shaders, textures and all floating-point position and UV arithmetic are left out. Vertices record the box corner and the pixel-unit texture edges. The texture mapping tables of launcher/skins/TextureMappings.cpp are a parameter.
- SkinRenderer.RenderContext.constructor: in the source `m_elementStartIndex` is an uninitialised `unsigned int`. The model starts it at 0, as `regenerateGeometry` does before every build. Its 32-bit width is not modelled, since 24 vertices per box for at most 13 boxes stays far below it.
- The preview painting of `SkinData::getListTexture` (QPainter composition) is left out. Skins.ListTextureSource states which variant and model it paints.
- SkinsModel's `installSkins`, `installSkin(file)`, `deleteSkin`, `skinFileExists`, `dropMimeData`, `mimeTypes`, `supportedDropActions`, `flags`, `data`, `path` and `SettingChanged` are not modelled. They only copy or remove files, which the folder sync then picks up, or serve the view.
- SkinLibrary.SkinsModel.DirectoryChanged, SkinLibrary.SkinsModel.ApplyDiff, SkinLibrary.SkinsModel.RemoveFiles and SkinLibrary.SkinsModel.RemovalTimerTriggered use the corrected removal described under Findings. The as-written behaviour is modelled beside it by SkinLibrary.StaleRemoval and SkinLibrary.BaseNameKeys.
- AccountRegistry.AccountList.SetDefaultAccount reports the corrected rows of Finding 1 (AccountRegistry.DefaultChangeRows), not the misnumbered rows the source emits. The as-written numbering is AccountRegistry.DefaultChangeRowsAsWritten, and AccountRegistry.DefaultRowsAsWrittenMisnumbered exhibits the difference.
- AccountRegistry.AccountList.SaveList: the `writable` flag stands for the parent folder being created, the file opening and the commit all succeeding; which of them failed is not distinguished. The removal of a directory standing at the file's path (AccountList.cpp:557-561) is not modelled, since the disk is a map from path to file.
- Capes.KeyLess compares characters by value, while QString compares UTF-16 code units. The two orders differ only between characters above U+FFFF and characters from U+E000 to U+FFFF, and cape ids are ASCII UUIDs.
- SkinLibrary.SkinsModel.RemovalTimerTriggered keeps the pending set after the timer fires, as the source does.
- SkinLibrary.StaleRemoval: a row past the end of the vector (QVector::remove out of range) is taken to change nothing.
- SkinLibrary.Combine: FS::PathCombine is not part of this model and is taken to join its two parts with one '/'.
- The reserved-name check of `directoryChanged` keys on the base name (SkinsModel.cpp:99), as written.
- CapesList.CapesModel.SetAccount: the source calls `endResetModel` without a matching `beginResetModel` (CapesModel.cpp:49). The model records one model reset.
- CapesModel's `data` is view code and is not modelled. The preview crop and scaling are a function of the cached image, since QImage::copy and QImage::scaled are foreign code.
- Integer widths: activity counts use the unsigned 32-bit wrap-around (AccountRegistry.ActivityBegun). Row numbers, counts and the cape stream's `int32_t` count are unbounded integers, because the lists they count stay far below 2^31.
- Skins.Rectangle keeps the source's argument order (x, y, w, h, flipY, flipX). Its coordinates are integers, because every table entry is whole pixels.

## Findings

| source | as written | input that shows it | evidently intended | confidence | as-written member | corrected member |
|---|---|---|---|---|---|---|
| launcher/minecraft/auth/AccountList.cpp:240-261 | `setDefaultAccount` numbers the rows it reports by counting only account rows: the placeholder row is skipped without incrementing `idx` | list [placeholder, a] (loadList puts the placeholder first), no default, `setDefaultAccount(a)`: dataChanged is emitted for row -1 and row 0, the placeholder, while `a` is at row 1 | report the rows that hold the old and the new default | high; not executed | AccountRegistry.DefaultChangeRowsAsWritten, AccountRegistry.DefaultRowsAsWrittenMisnumbered | AccountRegistry.DefaultChangeRows, AccountRegistry.DefaultChangeRowsHoldAccounts |
| launcher/skins/SkinsModel.cpp:123-138, 229-243 | the removal loops of `directoryChanged` and `removalTimerTriggered` find each row through `m_nameIndex`, which is rebuilt only after the loop, so later rows have moved when they are looked up | rows [a, b, c], removing "a" then "b": "a" goes from row 0, then "b" is looked up at row 1, which now holds c, so c is removed and b stays | remove exactly the entries named by the keys | high; not executed | SkinLibrary.StaleRemoval, SkinLibrary.StaleIndexRemovesWrongEntry | SkinLibrary.RemoveEach, SkinLibrary.RemoveEachIsKeep |
| launcher/skins/SkinsModel.cpp:126-127 | a removed file's entry is looked up by the file's `baseName`, but entries are named by the `completeBaseName` (SkinUtils.cpp:46) | the file "d/my.skin.png" is shown as "my.skin"; when it is deleted, "my" is looked up, nothing is found and the entry stays | look the entry up by the name it was added under, the complete base name | high; not executed | SkinLibrary.BaseNameKeys, SkinLibrary.BaseNameKeyMissesDottedName | SkinLibrary.RemovalKeys, SkinLibrary.BaseNameKeyMisses |
