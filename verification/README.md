# ATX Contadores client portal — a Dafny model

This project models the core of a small accounting-office web portal.

- **Clients** log in with their client id and chat with a virtual assistant. The assistant can hand a request over to one of five departments (Contábil, Fiscal, DP, Financeiro, Societário). When it does, the conversation is saved as a chat session in the browser's analytics ledger.
- **Specialists** log in with their username. They see the clients assigned to them, and they accept pending assignments.
- **The administrator** does the rest:
  - creates clients and specialists;
  - assigns a specialist to a client's department;
  - deletes specialists;
  - resets passwords;
  - filters the saved sessions.
- **First access.** A client or specialist without a password is sent to a form that sets one.

The model has these modules:

- `Storage.BrowserStore` is the browser's `localStorage`. It has three keys: clients, specialists and the analytics ledger.
- `UserService` and `Analytics` are the two services, written as methods over the store.
- `App.AppState` is the top-level view state machine.
- `Chat.ChatScreen` is the chat: greeting, send, reply and handoff.
- `SpecialistPanel`, `AdminPanel`, `UsersPanel`, `LoginForm` and `PasswordForm` are the screens.

A client's `assignments` object is an insertion-ordered list of (department, assignment) entries, because the code iterates it in insertion order.

The main invariant is `UserService.DirectoryInvariant`. It says four things:

- usernames are unique;
- every specialist id is `spec_` followed by its username;
- no client lists a department twice;
- every assignment names an existing specialist of that department.

Every service write keeps this invariant.

## Model

| member | source | states |
|---|---|---|
| Seqs.Filter | services/userService.ts:149 | the kept elements are exactly the input elements satisfying the predicate, in order, with their multiplicities |
| Seqs.FilterAppend | services/userService.ts:156-161 | filtering a concatenation is the concatenation of the filtered parts |
| Seqs.FilterKeepsAll | components/AdminDashboard.tsx:17-23 | a filter that keeps everything returns its input |
| Seqs.FirstIndex | services/userService.ts:79 | `findIndex`: the first position satisfying the predicate, or none at all |
| Seqs.FirstIndexIs | services/userService.ts:79 | the first-match characterisation has exactly one solution |
| Seqs.FirstIndexSameShape | services/userService.ts:127-131 | rewriting elements without changing which ones match leaves the first match in place |
| Text.LeadingBlanks | App.tsx:43 | the count of white space characters at the start: all of them are white space and the next one, if any, is not |
| Text.TrailingBlanksFrom | App.tsx:43 | where the trailing white space starts: everything from there on is white space and the character before, if any, is not |
| Text.Trim | App.tsx:43 | `trim()`: the result is the slice that starts right after the leading white space and is followed only by white space; it has no white space at either end and is empty exactly when the input is blank |
| Text.TrimIdempotent | App.tsx:122-126 | trimming twice equals trimming once |
| Text.ContainsMiddle | App.tsx:96 | a string occurs inside any string built around it |
| Text.DigitChar | services/userService.ts:69 | the character of a decimal digit is a digit whose code is '0' plus the value |
| Text.DigitValue | services/userService.ts:69 | a digit character's value is below ten and renders back to that character: the inverse of `DigitChar` |
| Text.NatToString | services/userService.ts:69 | decimal rendering is non-empty and made of digits |
| Text.ParseNatToString | services/userService.ts:69 | reading the decimal rendering back yields the number |
| Text.IntToString | components/AdminDashboard.tsx:29 | the rendering is non-empty and starts with '-' exactly for a negative number |
| Text.Last | services/userService.ts:69 | `slice(-n)` for n ≥ 1: the last n characters, or the whole string when shorter (for n = 0 it gives the empty string, unlike JavaScript's `slice(-0)`) |
| Types.ParseDepartment | types.ts:3-9 | a department string maps back to the department that carries that label, and only to it |
| Types.DepartmentsClosed | types.ts:3-9 | there are exactly five departments, all listed once with distinct labels |
| Types.StatusLabelsDistinct | types.ts:23-32 | the resolution and assignment status strings are pairwise distinct (a sanity fact about the constants) |
| Types.DeptIndex | types.ts:39-47 | the first entry filed under a department, or none |
| Types.DeptIndexIs | types.ts:39-47 | the department lookup is uniquely characterised |
| Types.Lookup | types.ts:39-47 | `assignments[dept]` is present exactly when some entry has that department, and it is one of the entries |
| Types.LookupDistinct | types.ts:39-47 | with distinct departments every entry is what its department looks up |
| Types.Put | services/userService.ts:185-188 | `assignments[dept] = a`: the department now reads `a`, every other department reads as before, an existing key keeps its position and a new key goes last |
| Storage.BrowserStore.constructor | services/userService.ts:12-41 | the store starts with the given key contents |
| UserService.GetClients | services/userService.ts:56-59 | `getClients()`: an absent key reads as the empty list, a stored list reads back as stored |
| UserService.GetSpecialists | services/userService.ts:101-104 | `getSpecialists()`: an absent key reads as the empty list, a stored list reads back as stored |
| UserService.ClientIndex | services/userService.ts:79 | `clients.findIndex(c => c.id === id)` |
| UserService.FindClientById | services/userService.ts:61-63 | `getClientById` (`find`): found exactly when some client has that id, and then it is the first client with that id |
| UserService.SpecialistIndex | services/userService.ts:127 | `specialists.findIndex(s => s.id === id)` |
| UserService.FindSpecialistById | services/userService.ts:106-108 | `getSpecialistById` (`find`): found exactly when some specialist has that id, and then it is the first specialist with that id |
| UserService.UsernameIndex | services/userService.ts:230 | the first specialist with that username, or none |
| UserService.SeedIsConsistent | services/userService.ts:12-41 | the seed directory satisfies the directory invariant, and cli_001's Contábil assignment is spec_ana.c, accepted |
| UserService.SeedData | services/userService.ts:12-41 | when either directory key is absent, both are replaced by the seed lists and the ledger is removed; when both are present nothing changes |
| UserService.ResetApplicationData | services/userService.ts:46-51 | the keys are removed and re-seeded, the ledger is gone, and the invariant holds |
| UserService.Pow10 | services/userService.ts:69 | powers of ten are at least one |
| UserService.NatToStringLength | services/userService.ts:69 | a number of at least 10^k renders in at least k+1 digits |
| UserService.DigitsOfShifted | services/userService.ts:69 | adding 10^k to a number of at least k digits keeps its last digit and adds 10^(k-1) to the digits above it |
| UserService.NatToStringSplit | services/userService.ts:69 | the decimal rendering is the rendering of the higher places followed by the last digit |
| UserService.LastAppend | services/userService.ts:69 | the last k characters of a string with one more character appended are its last k-1 plus that character |
| UserService.LastAppendAgree | services/userService.ts:69 | two strings that agree on their last k-1 characters still agree on the last k after the same character is appended |
| UserService.DivTen | services/userService.ts:69 | adding 10q moves the quotient by ten up by q and keeps the remainder |
| UserService.LastDigitsIgnoreHigherPlaces | services/userService.ts:69 | adding 10^k to a number of at least k digits leaves its last k digits unchanged |
| UserService.ClientIdsRepeat | services/userService.ts:69 | once the clock has seven digits, client ids are seven digits and repeat every 10^7 ms, so two clients can get the same id |
| UserService.ClientIdFor | services/userService.ts:69 | the id is at most seven characters, exactly seven from a three-digit clock on, and from a seven-digit clock on it is the clock's last seven digits with the `cli_` prefix cut off |
| UserService.CreateClient | services/userService.ts:65-75 | appends the new client with the clock-derived id, no password and no assignments, and keeps the invariant |
| UserService.AddClientKeepsInvariant | services/userService.ts:65-75 | appending an unassigned client keeps the directory invariant |
| UserService.WriteClientPassword | services/userService.ts:77-97 | succeeds exactly when the id is found, and then changes only that client's password |
| UserService.SetClientPassword | services/userService.ts:77-86 | `setClientPassword`: true iff the id exists; only that password becomes the new one |
| UserService.ResetClientPassword | services/userService.ts:88-97 | `resetClientPassword`: true iff the id exists; only that password is removed |
| UserService.ClientPasswordKeepsInvariant | services/userService.ts:77-97 | a password change keeps the directory invariant |
| UserService.CreateSpecialist | services/userService.ts:110-123 | a taken username fails with the "already in use" error and writes nothing; otherwise appends `spec_`+username with no password and keeps the invariant |
| UserService.AddSpecialistKeepsInvariant | services/userService.ts:110-123 | adding a specialist under a fresh username with the `spec_` id keeps the invariant |
| UserService.WriteSpecialistPassword | services/userService.ts:125-145 | succeeds exactly when the id is found, and then changes only that specialist's password |
| UserService.SetSpecialistPassword | services/userService.ts:125-134 | `setSpecialistPassword`: true iff a specialist has that id; only its password changes |
| UserService.ResetSpecialistPassword | services/userService.ts:136-145 | `resetSpecialistPassword`: true iff the id exists; only that password is removed |
| UserService.SpecialistPasswordKeepsInvariant | services/userService.ts:125-145 | a specialist password change keeps the invariant |
| UserService.SpecialistsWithout | services/userService.ts:149 | the remaining specialists are exactly those with another id, each kept as often as stored, in order |
| UserService.EntriesWithout | services/userService.ts:156-161 | the remaining entries are exactly those naming another specialist |
| UserService.EntriesWithoutKeepsKeysDistinct | services/userService.ts:156-161 | removing entries keeps departments distinct |
| UserService.EntriesWithoutStep | services/userService.ts:156-161 | the kept entries of a longer prefix are those of the shorter prefix plus the next entry when it names another specialist |
| UserService.DeleteSpecialistEffect | services/userService.ts:147-166 | after the delete no specialist and no assignment names the id, and every other specialist and assignment remains |
| UserService.DeleteKeepsInvariant | services/userService.ts:147-166 | deleting a specialist with its assignments keeps the directory invariant |
| UserService.ResolvesAfterDelete | services/userService.ts:147-166 | an assignment naming another specialist still resolves after the delete |
| UserService.DeleteKeepsSpecialistRules | services/userService.ts:149 | filtering keeps usernames unique and ids equal to `spec_`+username |
| UserService.SubsequenceKeepsOrder | services/userService.ts:149 | two positions of a subsequence come from increasing positions of the whole |
| UserService.SubsequenceHas | services/userService.ts:149 | an element of a subsequence is an element of the whole |
| UserService.DeleteAssignmentsOf | services/userService.ts:156-161 | the `for...in` / `delete` loop leaves exactly the filtered entries |
| UserService.DeleteFromClients | services/userService.ts:153-165 | the `forEach` loop yields every client with that specialist's assignments removed |
| UserService.DeleteSpecialist | services/userService.ts:147-166 | `deleteSpecialist`: both keys are rewritten as the filters say, and the invariant is kept |
| UserService.AssignSpecialistToClient | services/userService.ts:171-191 | checks client, then specialist, then department, returning the matching error and writing nothing; on success puts a Pending assignment, changes nothing else and keeps the invariant |
| UserService.AssignEffect | services/userService.ts:185-188 | after an assignment the department reads the new Pending assignment and every other department is unchanged |
| UserService.AssignKeepsInvariant | services/userService.ts:171-191 | assigning a specialist of the right department keeps the invariant |
| UserService.PendingIndex | services/userService.ts:202-209 | the first entry with a Pending assignment to that specialist, or none |
| UserService.AcceptKeepsInvariant | services/userService.ts:193-217 | accepting keeps the directory invariant |
| UserService.AcceptClientAssignment | services/userService.ts:193-217 | `acceptClientAssignment`: true exactly when the client has a Pending assignment to the specialist, and then only the first such assignment becomes Accepted |
| UserService.AcceptEffect | services/userService.ts:202-209 | acceptance changes only that department's status, to Accepted |
| UserService.LoginClient | services/userService.ts:221-227 | unknown id is rejected, no password gives 'needs password', a matching password returns the client, anything else is rejected |
| UserService.LoginSpecialist | services/userService.ts:229-235 | the same three outcomes for the first specialist with that username |
| UserService.ClientPasswordRoundTrip | services/userService.ts:77-97 | after setting p, logging in with p succeeds; after a reset, any login asks for a password |
| UserService.SpecialistPasswordRoundTrip | services/userService.ts:125-145 | the same round trip for the specialist at the username's position |
| UserService.FixedPrincipalsDisjoint | services/userService.ts:237-248 | no credential pair opens two of the fixed admin, developer and owner logins (a sanity fact about the constants) |
| Analytics.LedgerAfterSave | services/analyticsService.ts:26-34 | saving appends the session to what the ledger held; a missing or unparsable ledger starts afresh |
| Analytics.GetChatSessions | services/analyticsService.ts:9-19 | `getChatSessions()`: the stored sessions, and the empty list when the key is absent or its text does not parse |
| Analytics.SaveChatSession | services/analyticsService.ts:26-34 | `saveChatSession`: the stored sessions gain exactly the new one at the end, unless the write fails; user keys are untouched |
| Analytics.SavesAccumulate | services/analyticsService.ts:9-34 | saving a sequence of sessions appends exactly that sequence |
| Chat.GreetingText | App.tsx:34-70 | the greeting is never blank: the trimmed reply, or the fixed welcome when the reply is missing or blank |
| Chat.FivePieces | App.tsx:96 | a message built from five pieces contains its second and fourth piece |
| Chat.ConfirmationMentions | App.tsx:94-97 | the handoff confirmation names the summary and the department |
| Chat.NotificationMentions | App.tsx:106 | the department notification names the company, department and summary |
| Chat.Notification | App.tsx:103-111 | a notification is sent exactly when both the bot token and the chat id are truthy, and it names the company, the department and the summary |
| Chat.ChatScreen.constructor | App.tsx:34-70 | mounting starts the greeting request, or shows the start-failure message when no session could be created |
| Chat.ChatScreen.GreetingArrives | App.tsx:41-57 | the greeting replaces the messages and stops the spinner |
| Chat.ChatScreen.SetInput | App.tsx:72-80 | typing changes only the input |
| Chat.ChatScreen.Submit | App.tsx:72-88 | blank input or a busy screen changes nothing; otherwise the user's message is appended, the input is cleared and a reply is awaited (or the error message is added when there is no session) |
| Chat.ChatScreen.ReplyArrives | App.tsx:89-139 | a handoff call appends the confirmation to the captured transcript, may notify and requests the end of the chat; text is appended trimmed; failure appends the error message |
| Chat.HandoffTranscript | App.tsx:99-117 | the transcript sent on hand-off is the captured history plus the user's message and the confirmation |
| Chat.ReplyShownTrimmed | App.tsx:122-126 | a text reply is shown without surrounding white space, and retrimming does nothing |
| App.AppState.constructor | App.tsx:199-205 | the app starts on the login view with nobody logged in |
| App.AppState.Render | App.tsx:282-327 | a protected screen is rendered only with its flag or user set, and the right user kind |
| App.AppState.HandleLogin | App.tsx:207-211 | the user is current, with its kind; clients land on welcome and specialists on their dashboard |
| App.AppState.HandleNeedsPasswordSet | App.tsx:213-217 | the partial record and kind are kept and the password form is shown |
| App.AppState.HandlePasswordSet | App.tsx:219-224 | all user state is cleared and the login screen is shown |
| App.AppState.HandleLogout | App.tsx:226-233 | every login, including admin, developer and owner, is cleared and the login screen is shown |
| App.AppState.HandleStartChat | App.tsx:235 | a logged-in client is shown the chat |
| App.AppState.HandleEndChat | App.tsx:237-252 | a client's handoff is saved as one Forwarded session and the client returns to welcome |
| App.AppState.HandleAdminLoginSuccess | App.tsx:254-257 | admin flag set and admin dashboard shown, nothing else changed |
| App.AppState.HandleDevLoginSuccess | App.tsx:259-262 | developer flag set and developer panel shown |
| App.AppState.HandleOwnerLoginSuccess | App.tsx:264-267 | owner flag set and owner panel shown |
| App.AppState.GoTo | App.tsx:269-279 | navigation changes only the view, and a login view renders its login screen |
| App.SessionFor | App.tsx:237-252 | the saved session carries the client, transcript, department, summary and times of the handoff, as Forwarded, with no specialist |
| App.SessionIdsDistinct | App.tsx:240 | sessions saved at different clock readings get different ids |
| SpecialistPanel.ClientsFor | components/SpecialistDashboard.tsx:19-28 | the specialist's clients are exactly the stored clients with some assignment to them, each kept as often as stored, in order |
| SpecialistPanel.PendingInMembers | components/SpecialistDashboard.tsx:44-55 | one client's pending rows are exactly its Pending entries for the specialist |
| SpecialistPanel.PendingMembers | components/SpecialistDashboard.tsx:44-55 | a pending row is listed exactly when its client holds a Pending assignment to the specialist under that department |
| SpecialistPanel.PendingAssignments | components/SpecialistDashboard.tsx:44-55 | the nested loop computes the pending list |
| SpecialistPanel.AcceptedDeptsMembers | components/SpecialistDashboard.tsx:57-72 | a department is listed exactly when the client holds an Accepted assignment to the specialist there |
| SpecialistPanel.AcceptedMembers | components/SpecialistDashboard.tsx:57-72 | a client is listed among accepted clients exactly when it has at least one accepted department, with exactly those departments |
| SpecialistPanel.AcceptedClients | components/SpecialistDashboard.tsx:57-72 | the nested loop computes the accepted list |
| SpecialistPanel.SpecialistDashboard.constructor | components/SpecialistDashboard.tsx:19-32 | mounting loads the specialist's clients |
| SpecialistPanel.SpecialistDashboard.FetchClients | components/SpecialistDashboard.tsx:19-28 | the list is reloaded from the store |
| SpecialistPanel.SpecialistDashboard.HandleAccept | components/SpecialistDashboard.tsx:34-42 | a successful accept stores the client with that one Pending entry now Accepted, shows the notice and reloads the list from the new store; a failed one shows the failure and changes nothing |
| SpecialistPanel.AcceptMovesToAccepted | components/SpecialistDashboard.tsx:34-72 | after accepting, the client appears among the accepted clients under that department |
| AdminPanel.FilteredSessions | components/AdminDashboard.tsx:17-23 | exactly the sessions matching both drop-downs, each kept as often as stored, in ledger order |
| AdminPanel.NoFilterKeepsAll | components/AdminDashboard.tsx:17-23 | with both filters on 'all' every session is shown |
| AdminPanel.NarrowingDepartmentShrinks | components/AdminDashboard.tsx:17-23 | a department filter shows a subset of 'all', all of that department |
| AdminPanel.JsRemainder | components/AdminDashboard.tsx:28 | the JavaScript remainder lies in (-b, 0] for a negative dividend and in [0, b) otherwise |
| AdminPanel.DurationParts | components/AdminDashboard.tsx:25-30 | for a non-negative duration, whole minutes and seconds below sixty that add up to the whole seconds |
| AdminPanel.FormatDuration | components/AdminDashboard.tsx:25-30 | a non-negative duration reads "<minutes>m <seconds>s" |
| AdminPanel.NegativeDurationShown | components/AdminDashboard.tsx:25-30 | -1000 ms shows as minus one minute and minus one second, which overshoots |
| AdminPanel.AdminDashboard.constructor | components/AdminDashboard.tsx:175-177 | starts on the users tab at data version 0 |
| AdminPanel.AdminDashboard.SetActiveTab | components/AdminDashboard.tsx:164-177 | changes only the tab |
| AdminPanel.AdminDashboard.HandleDataChange | components/AdminDashboard.tsx:179-181 | one more data version, same tab |
| UsersPanel.Select | components/AdminUsersPanel.tsx:77-85 | only the (client, department) choice changes, to the chosen specialist |
| UsersPanel.SpecialistsIn | components/AdminUsersPanel.tsx:111-146 | the selector offers exactly the specialists of that department, each as often as stored, in order |
| UsersPanel.DepartmentCell | components/AdminUsersPanel.tsx:111-146 | an assigned department shows the specialist's name and status; an unassigned one with specialists shows the selector over exactly that department's specialists, in order, with the current choice; otherwise the "no specialists" cell |
| UsersPanel.AdminUsersPanel.constructor | components/AdminUsersPanel.tsx:19-32 | mounting loads clients and specialists with an empty selection |
| UsersPanel.AdminUsersPanel.RefreshData | components/AdminUsersPanel.tsx:34-38 | reloads both lists and bumps the dashboard's data version |
| UsersPanel.AdminUsersPanel.HandleCreateClient | components/AdminUsersPanel.tsx:40-46 | appends the client, reports its id, clears the form and refreshes |
| UsersPanel.AdminUsersPanel.HandleCreateSpecialist | components/AdminUsersPanel.tsx:48-63 | a taken username reports the error and changes nothing; otherwise the specialist is added, the form cleared and the lists refreshed |
| UsersPanel.AdminUsersPanel.HandleAssignmentSelection | components/AdminUsersPanel.tsx:77-85 | records the selection and nothing else |
| UsersPanel.AdminUsersPanel.HandleAssign | components/AdminUsersPanel.tsx:65-75 | without a selection it writes nothing; otherwise a passing assignment is stored Pending and the lists refresh, and a failing one alerts the service's own message (client not found, specialist not found, department mismatch, in that order) and writes nothing |
| UsersPanel.AdminUsersPanel.HandleDeleteSpecialist | components/AdminUsersPanel.tsx:87-92 | a confirmed delete removes the specialist and its assignments and refreshes; a declined one changes nothing |
| UsersPanel.AdminUsersPanel.HandleResetClientPassword | components/AdminUsersPanel.tsx:94-100 | a confirmed reset clears that client's password (or stores nothing for an unknown id), reports success either way and reloads both lists; a declined one changes nothing |
| UsersPanel.AdminUsersPanel.HandleResetSpecialistPassword | components/AdminUsersPanel.tsx:102-108 | a confirmed reset clears that specialist's password (or stores nothing for an unknown id), reports success either way and reloads both lists; a declined one changes nothing |
| UsersPanel.SelectThenAssign | components/AdminUsersPanel.tsx:65-85 | a specialist offered by the selector of a listed client and then selected passes every check of the assignment: the selection is truthy, the client is found, the specialist is found and is of that department |
| LoginForm.LoginOutcome | components/LoginScreen.tsx:20-45 | client mode logs in by id and specialist mode by username, as the first matching record; 'needs password' forwards the typed identifier as both id and username |
| LoginForm.LoginScreen.constructor | components/LoginScreen.tsx:14-18 | the form starts empty in client mode |
| LoginForm.LoginScreen.HandleLogin | components/LoginScreen.tsx:20-45 | each outcome reaches the matching App handler with the rest of the App state kept, a rejection shows the invalid-credentials error and leaves the App untouched, and the spinner is off afterwards |
| PasswordForm.Validate | components/SetPasswordScreen.tsx:34-41 | accepted exactly when both fields agree and have at least three characters; a mismatch is reported before length |
| PasswordForm.DisplayName | components/SetPasswordScreen.tsx:19-28 | a client is greeted by its contact name looked up by id, a specialist by its name looked up by username; otherwise nothing |
| PasswordForm.GreetsTheRecordLoginFound | components/SetPasswordScreen.tsx:19-28 | the form greets the very record whose login asked for a password |
| PasswordForm.WithSpecialistPassword | services/userService.ts:125-134 | the id-based write on values: found exactly when the id exists, and then only that record's password changes |
| PasswordForm.DirectoryHasSpecialistRules | services/userService.ts:110-123 | the directory invariant includes the id and username rules |
| PasswordForm.UsernameIndexAfterWrite | services/userService.ts:229-235 | a password write does not move the username lookup |
| PasswordForm.SpecialistWriteAsWritten | components/SetPasswordScreen.tsx:47-48 | the as-written write succeeds exactly when some specialist's id equals the typed username |
| PasswordForm.AsWrittenSpecialistStaysLocked | components/SetPasswordScreen.tsx:47-48 | as written, a specialist asked for a first password is asked again after setting it |
| PasswordForm.AsWrittenSeedSpecialistNotFound | components/SetPasswordScreen.tsx:47-48 | as written, seeded specialist bruno.f, who has no password, gets the not-found error |
| PasswordForm.AsWrittenOverwritesAnother | components/SetPasswordScreen.tsx:47-48 | as written, specialist spec_bob setting a password replaces bob's password |
| PasswordForm.SpecialistWriteId | components/SetPasswordScreen.tsx:24-25 | the id of the record found by username, which always names a stored record; under the directory rules that id leads back to the same record |
| PasswordForm.IdsAreDistinct | services/userService.ts:117 | under the directory rules each specialist is the first with its id |
| PasswordForm.SpecialistWriteCorrected | components/SetPasswordScreen.tsx:47-48 | the corrected write succeeds exactly when the username exists, and changes that record's password |
| PasswordForm.CorrectedSpecialistUnlocked | components/SetPasswordScreen.tsx:31-60 | with the corrected write, a specialist asked for a first password then logs in with it, and the rules still hold |
| PasswordForm.SetPasswordScreen.constructor | components/SetPasswordScreen.tsx:13-28 | mounting computes the greeting name; the form starts empty |
| PasswordForm.SetPasswordScreen.HandleSubmit | components/SetPasswordScreen.tsx:31-60 | a failed check shows its message and writes nothing; otherwise the stored list becomes the old one with that one record's password replaced (unchanged when the write fails), and on success the new password logs that client or specialist in |
| PasswordForm.SetPasswordScreen.TimerFires | components/SetPasswordScreen.tsx:51-59 | success raises the notice and returns the App to login; failure shows the not-found error; the spinner stops |

## Left out

- Browser and network I/O are parameters:
  - the clock reading (`now`, `idClock`, `endClock`);
  - whether the ledger write fails;
  - the `confirm()` answers;
  - the Telegram token and chat id;
  - the assistant's responses.
- The Gemini and Telegram services (services/geminiService.ts, services/telegramService.ts) are not part of this model. A response is a datatype: text, a list of handoff calls, or a rejection.
- Timers are explicit steps:
  - the 4-second handoff delay is the end-of-chat request returned by `Chat.ChatScreen.ReplyArrives`;
  - the 500 ms password-form delay is `PasswordForm.SetPasswordScreen.TimerFires`;
  - React's stale closure is the transcript captured at submit time.
- JSON parsing of the client and specialist keys is not modelled. A stored list is always well formed. So the catch branch of the login form (components/LoginScreen.tsx:40-41) cannot happen in the model. An unparsable analytics ledger is modelled (`Storage.Ledger.Unparsable`).
- The department in a handoff call is the `Department` enumeration. The code casts whatever string the assistant sends, while the tool schema restricts it to the five labels.
- String lengths count Unicode characters, not UTF-16 code units.
- UserService.LoginAdmin, UserService.LoginDev, UserService.LoginOwner: constant comparisons stated by their definitions alone (services/userService.ts:237-248); their callers, components/AdminLoginScreen.tsx, DevLoginScreen.tsx and OwnerPanel.tsx, are not part of this model.
- The call to `seedData()` when the service module loads (services/userService.ts:43) is not a step of the model: `Storage.BrowserStore` starts from any key contents, and `UserService.SeedData` runs only where it is called explicitly (inside `UserService.ResetApplicationData`). The model therefore does not state that both directory keys exist once the application has loaded.
- Passwords are compared and stored in plain text, as in the code. Security properties are not modelled.
- The developer, owner and admin panels beyond their login predicates and view switches are not part of this model: components/DevPanel.tsx, OwnerPanel.tsx, AdminLoginScreen.tsx, DevLoginScreen.tsx, WelcomeScreen.tsx.
- The rendered markup is left out, except for the department-cell choice of the users panel.
- App.AppState.Render: states only the guard of each protected screen and which user it receives. The fallback renders (login screen) are not spelled out.
- AdminPanel.FormatDuration: the exact text is stated only for non-negative durations. For negative ones, AdminPanel.NegativeDurationShown exhibits the output.
- AdminPanel.JsRemainder: states the sign and range of the result, not the identity `a == b * q + r`.
- PasswordForm.SetPasswordScreen.HandleSubmit: writes a specialist's password through the corrected id (see Findings). For a specialist, the truthiness test on `user.id` is replaced by the username lookup.
- LoginForm.LoginOutcome: folds the login mode into the kind of the returned user record, which is how the App later tells clients and specialists apart.

## Findings

| source | as written | input that shows it | evidently intended | confidence | as-written member | corrected member |
|---|---|---|---|---|---|---|
| components/SetPasswordScreen.tsx:47-48 | the specialist's new password is written through `setSpecialistPassword(user.id, …)`. The login form (components/LoginScreen.tsx:34) fills `user.id` with the typed username, but specialist ids are `spec_` + username (services/userService.ts:117) and the write looks up by id (services/userService.ts:125-134) | seeded specialist `bruno.f` (no password) logs in, is sent to the form and enters `abc` twice. No record has id `bruno.f`, so the form reports "ID de usuário não encontrado" and the next login asks for a password again. A specialist with username `spec_bob` would instead overwrite the password of specialist `bob` | write the password of the specialist the login found by username (id `spec_bruno.f`), so the next login with it succeeds | high; not executed | PasswordForm.AsWrittenSpecialistStaysLocked | PasswordForm.CorrectedSpecialistUnlocked |
