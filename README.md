# CollabSphere core, modelled in Dafny

CollabSphere is a collaborative rich-text editor. It has an Express/Mongoose
server, a socket.io real-time channel and a React client. This project models
its deterministic core and proves properties of that model:

- **Session engine** (`socketHandler.js`): the connection gate, the registry
  `documentRooms` (per document, a map from socket id to participant), and
  the fan-out of every handler. `Session.SocketServer` owns the registry and
  each connection's channel set. Each handler is a method that returns the
  deliveries it makes (recipients and event).
- **Snapshot store** (`DocumentVersion.js`): `Versions.VersionStore` holds
  the version records in creation order. It implements `createVersion`
  (maximum plus one) and `cleanupOldVersions` (keep the newest N).
- **Document schema and REST handlers** (`Document.js`,
  `document.controller.js`): the schema defaults and limits, `allUsers`, and
  the access predicates. Each handler's status code, message and writes are
  modelled over an in-memory `DocumentStore`.
- **Editor page** (`Editor.jsx`): the save-status machine with its debounce,
  the one-shot suppression of the first `onUpdate` after a remote change
  (whatever triggers it),
  the typing list, and the version-list labels. Timers and the editor's
  `onUpdate` callback are explicit events.
- **Dashboard, sign-up, log-in, avatar, toasts**: the pure rules (import
  acceptance, title and extension, `.txt` to HTML, search, statistics,
  form validation, initials and colours, the toast list), and the small
  pieces of page state they update.

Shared modules:

- `Wrappers`: `Option` and `Result`.
- `Seqs`: `filter`, `map`, `slice`, `reverse`.
- `Text`: ASCII `trim`, case mapping, `split`, `includes`, `indexOf`,
  `lastIndexOf`, number formatting and `||` on strings.

External calls are parameters of the model:

- JWT verification is a function `string -> Option<UserId>`.
- The user lookup by e-mail is a map.
- The markdown conversion is a function.
- `Date.now()` is a number.
- A database write that throws is given by a fault flag.

## Model

| member | source | states |
|---|---|---|
| Session.Admit | collabSphere/server/src/socket/socketHandler.js:15-29 | a missing or empty token is refused; otherwise the socket's user is whatever the verifier decodes, and a rejected token is refused |
| Session.SocketServer.Connect | collabSphere/server/src/socket/socketHandler.js:15-29 | a connection is admitted iff the gate admits it; an admitted socket is recorded with the decoded user and no channel; a refused one leaves no trace; the registry is untouched |
| Session.Newcomer | collabSphere/server/src/socket/socketHandler.js:48-57 | the stored entry carries the given user and name, the colour `cursorColors[size of the room before insertion % 8]` and no cursor |
| Session.ColorFor | collabSphere/server/src/socket/socketHandler.js:8-11 | the colour is the palette entry at `n mod 8`, always one of the eight colours |
| Session.Upsert | collabSphere/server/src/socket/socketHandler.js:51-57 | `Map.set`: an existing socket id keeps its position, a new one is appended; the new entry is present; entries of other sockets are unchanged |
| Session.UpsertKeepsRoomOk | collabSphere/server/src/socket/socketHandler.js:51-57 | socket ids stay unique and colours stay in the palette; afterwards the key holds exactly the new entry, so a re-join overwrites the old entry and resets the cursor |
| Session.Remove | collabSphere/server/src/socket/socketHandler.js:155 | `room.delete(sid)` keeps exactly the entries of other sockets and leaves no entry for `sid` |
| Session.RemoveKeepsRoomOk | collabSphere/server/src/socket/socketHandler.js:155 | deleting keeps ids unique and colours in the palette, and every other socket keeps its key |
| Session.KeyIndex | collabSphere/server/src/socket/socketHandler.js:97 | finds the position of a socket id exactly when the room has it |
| Session.KeyedMember | collabSphere/server/src/socket/socketHandler.js:97 | a room has a key iff one of its entries has that socket id |
| Session.AfterJoin | collabSphere/server/src/socket/socketHandler.js:42-57 | after a join the room exists (created lazily) and holds the entry under its socket id; every other room is unchanged |
| Session.AfterJoinKeepsRoomsOk | collabSphere/server/src/socket/socketHandler.js:42-57 | a join preserves the registry invariant: rooms are non-empty, keyed uniquely and coloured from the palette |
| Session.AfterJoinKeepsOthers | collabSphere/server/src/socket/socketHandler.js:42-57 | a join changes no other socket's room membership |
| Session.AfterLeave | collabSphere/server/src/socket/socketHandler.js:151-164 | after a leave the socket has no entry in that room; an emptied room is deleted; a remaining room is the old one without that socket; an unknown room is a no-op; other rooms are unchanged |
| Session.AfterLeaveKeepsRoomsOk | collabSphere/server/src/socket/socketHandler.js:155-158 | no empty room ever persists |
| Session.AfterLeaveKeepsOthers | collabSphere/server/src/socket/socketHandler.js:151-164 | a leave changes no other socket's room membership |
| Session.LeftList | collabSphere/server/src/socket/socketHandler.js:156-163 | `user-left` is announced iff the room survives the leave, and it carries exactly the remaining list |
| Session.LeaveTwice | collabSphere/server/src/socket/socketHandler.js:140-146 | a second leave changes nothing in the registry but announces the same `user-left` list again |
| Session.JoinElsewhereKeepsEntry | collabSphere/server/src/socket/socketHandler.js:35-57 | joining a second document leaves the entry in the first room as it was |
| Session.JoinKeepsConsistent | collabSphere/server/src/socket/socketHandler.js:42-57 | a join subscribes the joiner to exactly the room it enters, so every socket's channels still match the rooms that hold it |
| Session.Subscribers | collabSphere/server/src/socket/socketHandler.js:61 | `io.to(d)` reaches exactly the connected sockets subscribed to `d` |
| Session.SubscribersAreRoomMembers | collabSphere/server/src/socket/socketHandler.js:61 | while channels and registry agree, `io.to(d)` reaches exactly the connected sockets with an entry in the room |
| Session.MoveCursor | collabSphere/server/src/socket/socketHandler.js:100-101 | only the sender's `cursorPosition` changes; keys, order, colours and all other entries stay |
| Session.SocketServer.Join | collabSphere/server/src/socket/socketHandler.js:35-64 | stores `documentId` and `userName` on the socket, subscribes it, upserts the newcomer, and sends `user-joined` with the room's current list to every room member including the joiner; the invariant is kept |
| Session.SocketServer.Leave | collabSphere/server/src/socket/socketHandler.js:67-70 | unsubscribes the socket, applies the leave to the registry, and sends `user-left` (when announced) to the remaining members only, never to the leaver |
| Session.SocketServer.ContentChange | collabSphere/server/src/socket/socketHandler.js:73-81 | the unchanged content and user id go to exactly the other room members; nothing is stored |
| Session.SocketServer.Typing | collabSphere/server/src/socket/socketHandler.js:84-91 | the typing event goes to exactly the other room members; nothing is stored |
| Session.SocketServer.CursorMove | collabSphere/server/src/socket/socketHandler.js:94-109 | nothing happens unless the room exists and holds the sender; otherwise only its cursor changes, and the others get the event with the stored colour |
| Session.SocketServer.SaveDocument | collabSphere/server/src/socket/socketHandler.js:112-137 | write, then an `'auto'` snapshot, then a trim to 50, then `document-saved` to the whole channel; the first step that throws stops the sequence, keeps the earlier writes and sends `save-error` to the sender alone |
| Session.SocketServer.Disconnect | collabSphere/server/src/socket/socketHandler.js:140-146 | the socket leaves all channels; the leave helper runs for `socket.documentId` exactly when it was ever set to a non-empty id, even after an explicit leave |
| Versions.NextVersionNumber | collabSphere/server/src/models/DocumentVersion.js:42-46 | the next number is at least 1 and above every number the document has; it is 1 when the document has none, and otherwise one more than an existing number |
| Versions.MaxOf | collabSphere/server/src/models/DocumentVersion.js:42-44 | the largest element, present exactly for a non-empty list |
| Versions.VersionStore.CreateVersion | collabSphere/server/src/models/DocumentVersion.js:40-55 | appends one record with the given document, content and creator, the next number and the snapshot type (default `'auto'`); the creation-order invariant is kept |
| Versions.OtherDocumentKeepsNumbers | collabSphere/server/src/models/DocumentVersion.js:42-46 | records of other documents never change a document's numbers or its next number |
| Versions.NumbersAppend | collabSphere/server/src/models/DocumentVersion.js:48-54 | a new record of `d` extends `d`'s numbers by its own |
| Versions.NextAfterRange | collabSphere/server/src/models/DocumentVersion.js:46 | when a document's numbers are 1..n, the next one is n+1 |
| Versions.SequentialNumbering | collabSphere/server/src/models/DocumentVersion.js:42-54 | consecutive creations on a document numbered 1..n give n+1 and numbers 1..n+1, so N creations from none give exactly 1..N |
| Versions.Range | collabSphere/server/src/models/DocumentVersion.js:46 | the list 1..n |
| Versions.NumbersIncrease | collabSphere/server/src/models/DocumentVersion.js:42-46 | in a store kept in creation order a document's numbers strictly increase |
| Versions.NextFollowsNewest | collabSphere/server/src/models/DocumentVersion.js:42-46 | the next number is one more than that of the document's newest record |
| Versions.IdsUnique | collabSphere/server/src/models/DocumentVersion.js:48-54 | two records of the store with the same identifier are the same record |
| Versions.Trimmed | collabSphere/server/src/models/DocumentVersion.js:58-69 | with at most `keepCount` versions of the document, cleanup deletes nothing |
| Versions.VersionStore.CleanupOldVersions | collabSphere/server/src/models/DocumentVersion.js:58-69 | the store becomes the trimmed store (default 50), keeping the invariant |
| Versions.DoomedAreOldest | collabSphere/server/src/models/DocumentVersion.js:59-62 | the selection `sort createdAt desc, skip keepCount` is exactly the oldest records beyond the newest `keepCount` |
| Versions.DropPrefixIds | collabSphere/server/src/models/DocumentVersion.js:64-67 | deleting the ids of a prefix of a creation-ordered store leaves exactly the suffix |
| Versions.TrimKeepsNewest | collabSphere/server/src/models/DocumentVersion.js:58-69 | after cleanup the document's versions are exactly its newest min(k, n), in order |
| Versions.TrimLeavesOthers | collabSphere/server/src/models/DocumentVersion.js:59-67 | cleanup deletes no version of another document |
| Versions.TrimIdempotent | collabSphere/server/src/models/DocumentVersion.js:58-69 | a second identical cleanup deletes nothing |
| Versions.TrimKeepsNumbering | collabSphere/server/src/models/DocumentVersion.js:42-46 | with k ≥ 1 the newest (largest) version survives cleanup, so the next number is unchanged and never reused |
| Versions.VersionStore.Newest | collabSphere/server/src/controllers/document.controller.js:225-228 | `limit` of the document's records (or all when fewer), all of that document, strictly newest-first, and every record left out is older than every one returned |
| Versions.NewestFirstMembers | collabSphere/server/src/controllers/document.controller.js:225-227 | the newest-first list holds exactly the document's records |
| Versions.NewestFirstDescending | collabSphere/server/src/controllers/document.controller.js:225-227 | the newest-first list is strictly descending in `createdAt` |
| Versions.NewestCutsOlder | collabSphere/server/src/controllers/document.controller.js:225-228 | a limit cuts off only records older than every record it keeps |
| Versions.FindId | collabSphere/server/src/controllers/document.controller.js:249-250 | `findById` returns a record with that id, or none exists |
| Versions.VersionStore.FindById | collabSphere/server/src/controllers/document.controller.js:249-250 | the store's `findById`: a record with that id, or none exists |
| Versions.VersionStore.DeleteForDocument | collabSphere/server/src/controllers/document.controller.js:180 | the store loses exactly the document's versions, keeping the invariant |
| Versions.DeleteForDocumentEffect | collabSphere/server/src/controllers/document.controller.js:180 | after the cascade the document has no versions and restarts at number 1; other documents keep theirs |
| DocumentModel.CastTitle | collabSphere/server/src/models/Document.js:5-11 | a title is accepted iff it is not blank and its trimmed form has at most 200 characters, and the stored title is the trimmed one; blank titles fail `required` |
| DocumentModel.DefaultTitleValid | collabSphere/server/src/models/Document.js:9 | the default title passes the schema unchanged |
| DocumentModel.CastRole | collabSphere/server/src/models/Document.js:27-31 | a missing or empty role, or `'editor'`, gives editor; `'viewer'` gives viewer; any other string fails the enum |
| DocumentModel.NewDocument | collabSphere/server/src/models/Document.js:12-45 | a new record has the given title, content and owner, no collaborators, `isPublic` false and no last editor |
| DocumentModel.AllUsers | collabSphere/server/src/models/Document.js:57-63 | `allUsers` is the owner followed by each collaborator's user in order, and its length is 1 + the number of entries with a user |
| DocumentModel.AllUsersMembers | collabSphere/server/src/models/Document.js:57-63 | a user is listed iff it is the owner or the user of some collaborator entry |
| DocumentModel.DocumentStore.Put | collabSphere/server/src/controllers/document.controller.js:141 | `save()` stores the record under its id and changes nothing else |
| DocumentModel.DocumentStore.FindByIdAndDelete | collabSphere/server/src/controllers/document.controller.js:183 | the document goes, nothing else changes |
| DocumentModel.DocumentStore.FindByIdAndUpdate | collabSphere/server/src/socket/socketHandler.js:116-119 | only content and `lastEditedBy` of an existing record change; an unknown id changes nothing |
| Controller.IsCollaborator | collabSphere/server/src/controllers/document.controller.js:50-53 | holds iff some entry has that user |
| Controller.IsEditor | collabSphere/server/src/controllers/document.controller.js:122-126 | holds iff some entry has that user with role editor |
| Controller.AccessLevelsNest | collabSphere/server/src/controllers/document.controller.js:50-53 | edit access implies listing access, which implies read access |
| Controller.ListersAreAllUsers | collabSphere/server/src/controllers/document.controller.js:213-216 | listing access holds exactly for the users `allUsers` lists |
| Controller.ViewerCannotEdit | collabSphere/server/src/controllers/document.controller.js:122-134 | a viewer-only collaborator may read and list but is refused edit access |
| Controller.PublicGrantsOnlyRead | collabSphere/server/src/controllers/document.controller.js:50-53 | `isPublic` grants a stranger read access and neither listing nor edit access |
| Controller.GetDocument | collabSphere/server/src/controllers/document.controller.js:33-73 | 404 for a missing document, 403 unless owner, collaborator or public, and otherwise 200 with the document |
| Controller.GetVersions | collabSphere/server/src/controllers/document.controller.js:199-241 | 404 for a missing document, 403 unless owner or collaborator (public does not count), and otherwise 200 with the store's newest-first list of the document: min(20, n) of its versions, strictly newest first, every version left out older than every one returned |
| Controller.Created | collabSphere/server/src/controllers/document.controller.js:81-88 | creation succeeds iff the title (default `'Untitled Document'`) passes the schema; the record has the trimmed title, content defaulting to `''`, the requester as owner, and the schema defaults |
| Controller.CreatedUntitled | collabSphere/server/src/controllers/document.controller.js:81-85 | with no title or an empty one, the record is titled `'Untitled Document'` and creation cannot fail |
| Controller.CreateDocument | collabSphere/server/src/controllers/document.controller.js:76-104 | on success stores the record and then appends one `'manual'` snapshot of its content (201); a schema failure gives 500 and writes nothing |
| Controller.Updated | collabSphere/server/src/controllers/document.controller.js:136-141 | only the supplied title and content change, a supplied title must pass the schema, and `lastEditedBy` is always the requester |
| Controller.UpdateDocument | collabSphere/server/src/controllers/document.controller.js:107-154 | 404 for a missing document, 403 without edit access, and otherwise the updated record is saved; every failure writes nothing |
| Controller.DeleteDocument | collabSphere/server/src/controllers/document.controller.js:157-196 | 404, then 403 unless owner; the owner's delete removes every version of the document and then the document |
| Controller.RestoreVersion | collabSphere/server/src/controllers/document.controller.js:244-293 | 404 when the document or version is missing, 403 without edit access; otherwise an `'auto'` snapshot of the current content is appended first, then content and `lastEditedBy` are overwritten with any version's content, even one of another document |
| Controller.WithCollaborator | collabSphere/server/src/controllers/document.controller.js:342-346 | appends one entry `{user, role \|\| 'editor'}` at the end, and fails exactly when the role fails the enum |
| Controller.AddedOnce | collabSphere/server/src/controllers/document.controller.js:330-346 | appending a user who was not a collaborator gives that user exactly one entry |
| Controller.AddCollaborator | collabSphere/server/src/controllers/document.controller.js:296-365 | 404, then 403 unless owner, then 404 for an unknown e-mail, then 400 for an existing collaborator; otherwise one entry is appended; only success writes |
| EditorPage.SaveEnabled | collabSphere/src/pages/Editor.jsx:369-376 | the Save button is enabled iff the status is unsaved or error |
| EditorPage.AddTypist | collabSphere/src/pages/Editor.jsx:172-177 | a user already listed leaves the list unchanged, and a new user is appended |
| EditorPage.Listed | collabSphere/src/pages/Editor.jsx:175 | `find` succeeds iff some entry has that user id |
| EditorPage.RemoveTypist | collabSphere/src/pages/Editor.jsx:179-181 | the expiry keeps exactly the entries of other users |
| EditorPage.AddTypistKeepsDistinct | collabSphere/src/pages/Editor.jsx:172-177 | adding keeps every user listed at most once, and the user is then listed |
| EditorPage.RemoveTypistKeepsDistinct | collabSphere/src/pages/Editor.jsx:179-181 | removing keeps users distinct and leaves that user unlisted |
| EditorPage.VersionLabel | collabSphere/src/pages/Editor.jsx:562 | entry 0 is `'Current Version'`, entry i > 0 is `Version (length − i)` |
| EditorPage.VersionLabelsDistinct | collabSphere/src/pages/Editor.jsx:562 | different entries of a list get different labels |
| EditorPage.OldestShownIsVersionOne | collabSphere/src/pages/Editor.jsx:562-569 | the last entry is `Version 1`; only entry 0 has no Restore button |
| EditorPage.EditorSession.HandleContentChange | collabSphere/src/pages/Editor.jsx:211-223 | status unsaved, typing then content-change emitted, and the pending save replaced by the new content |
| EditorPage.EditorSession.OnUpdate | collabSphere/src/pages/Editor.jsx:105-113 | the first update after a remote change, whatever triggers it, is swallowed (flag cleared, no effect); any other update is a local edit |
| EditorPage.EditorSession.SaveDocument | collabSphere/src/pages/Editor.jsx:197-200 | status saving and one REST save of that content started |
| EditorPage.EditorSession.SaveTimerFires | collabSphere/src/pages/Editor.jsx:219-222 | the timer saves the content of the latest local edit and is then gone |
| EditorPage.EditorSession.PutSettled | collabSphere/src/pages/Editor.jsx:200-207 | success: saved, then the socket save of the same content; failure: error and a toast, with no socket save |
| EditorPage.EditorSession.ClickSave | collabSphere/src/pages/Editor.jsx:369-376 | a click saves the editor's content only while the button is enabled |
| EditorPage.EditorSession.OnRemoteContentChange | collabSphere/src/pages/Editor.jsx:156-168 | another user's change replaces the content and arms the suppression; the user's own echo is ignored |
| EditorPage.EditorSession.OnUserTyping | collabSphere/src/pages/Editor.jsx:170-183 | the user's own typing is ignored; another user's is added once, with an expiry effect |
| EditorPage.EditorSession.OnTypingExpired | collabSphere/src/pages/Editor.jsx:179-181 | every entry of that user is removed |
| EditorPage.EditorSession.OnDocumentSaved | collabSphere/src/pages/Editor.jsx:185-188 | `document-saved` always sets the status to saved and nothing else |
| EditorPage.EditorSession.OnPresence | collabSphere/src/pages/Editor.jsx:148-154 | the active-user list becomes the server's |
| DashboardPage.LastSegment | collabSphere/src/pages/Dashboard.jsx:91 | the text after the last dot (no dot in it), or the whole name without one |
| DashboardPage.LastPieceIsLastSegment | collabSphere/src/pages/Dashboard.jsx:91 | the last piece of `split('.')` is the text after the last dot |
| DashboardPage.FileExtensionMeaning | collabSphere/src/pages/Dashboard.jsx:91 | the extension is `'.'` + the lower-cased text after the last dot, and `'.'` + the whole lower-cased name without a dot |
| DashboardPage.StripExtension | collabSphere/src/pages/Dashboard.jsx:103 | the title is the name, or the name cut at a dot, where what was cut is `'.'` + a non-empty tail without `/` or `.` |
| DashboardPage.StripExtensionRoundTrip | collabSphere/src/pages/Dashboard.jsx:103 | putting on an extension without `/` or `.` and stripping it gives the base name back |
| DashboardPage.StripExtensionKeeps | collabSphere/src/pages/Dashboard.jsx:103 | a name without a dot, ending in a dot, or with a `/` after its last dot is unchanged |
| DashboardPage.TxtLine | collabSphere/src/pages/Dashboard.jsx:107 | a single line becomes `<p>line</p>`, untrimmed, or nothing when it is blank |
| DashboardPage.TxtToHtmlAppend | collabSphere/src/pages/Dashboard.jsx:107 | lines convert independently and in order: converting `a + "\n" + b` gives the conversion of `a` followed by that of `b` |
| DashboardPage.ImportRequest | collabSphere/src/pages/Dashboard.jsx:84-126 | refused with the upload message iff neither the type nor the extension is allowed; otherwise the title is the stripped name and the content is converted according to the extension |
| DashboardPage.BareExtensionGetsDefaultTitle | collabSphere/src/pages/Dashboard.jsx:103-126 | a file called `.txt` posts an empty title, and the server names the document `'Untitled Document'` |
| DashboardPage.FilterDocuments | collabSphere/src/pages/Dashboard.jsx:141-143 | search keeps exactly the documents whose lower-cased title contains the lower-cased query |
| DashboardPage.EmptyQueryKeepsAll | collabSphere/src/pages/Dashboard.jsx:141-143 | an empty query keeps every document, in order |
| DashboardPage.SearchIdempotent | collabSphere/src/pages/Dashboard.jsx:141-143 | searching a result again with the same query changes nothing |
| DashboardPage.SearchIgnoresQueryCase | collabSphere/src/pages/Dashboard.jsx:142 | an upper-cased query finds the same documents as a lower-cased one |
| DashboardPage.SharedAndPrivateMakeTotal | collabSphere/src/pages/Dashboard.jsx:246-256 | the shared count (documents with a collaborator) and the unshared count add up to the total |
| DashboardPage.CreateCheckMatchesSchema | collabSphere/src/pages/Dashboard.jsx:52-55 | the page refuses a title exactly when the schema would find it missing |
| DashboardPage.WithoutEntry | collabSphere/src/pages/Dashboard.jsx:75 | a delete keeps exactly the documents with another id |
| DashboardPage.DocumentList.Prepend | collabSphere/src/pages/Dashboard.jsx:60 | a created or imported document goes to the front of the list |
| DashboardPage.DocumentList.Deleted | collabSphere/src/pages/Dashboard.jsx:72-81 | the list loses the deleted document's entries |
| Forms.LooksLikeEmailIsPattern | collabSphere/src/pages/Signup.jsx:23 | the e-mail test `\S+@\S+\.\S+` accepts exactly the strings that contain a match of the regular expression somewhere |
| Forms.LooksLikeEmailInContext | collabSphere/src/pages/Login.jsx:20 | the test is unanchored: text around an accepted address keeps it accepted |
| Forms.EmailExamples | collabSphere/src/pages/Login.jsx:20 | `a@b.c` passes; `a@b`, `@b.c` and `a@ b.c` fail |
| Forms.EmailError | collabSphere/src/pages/Signup.jsx:22-23 | no message iff the e-mail passes; `'Email is required'` iff it is empty; `'Invalid email format'` otherwise |
| Forms.NoErrorsExactly | collabSphere/src/pages/Signup.jsx:28 | `Object.keys(newErrors).length === 0` holds iff no field has an error |
| Forms.Settled | collabSphere/src/pages/Signup.jsx:36-44 | success: a success toast and a move to `/dashboard`; failure: an error toast showing the server's message when it is non-empty and the fallback otherwise (`message \|\| fallback`), and no move |
| SignupPage.Validate | collabSphere/src/pages/Signup.jsx:19-29 | a name error iff the name is empty; an e-mail error iff the e-mail fails the pattern; a password error iff it has under 6 characters (`'Password is required'` when empty); a confirm error iff the two passwords differ; each with its message |
| SignupPage.ValidExactly | collabSphere/src/pages/Signup.jsx:27-28 | the form passes iff the name is given, the e-mail matches, the password has 6 characters and the confirmation agrees |
| SignupPage.EmptyPasswordsAgree | collabSphere/src/pages/Signup.jsx:24-26 | two empty passwords give the required error and no mismatch error |
| SignupPage.SignupForm.HandleSubmit | collabSphere/src/pages/Signup.jsx:31-35 | the errors shown are the validation's, and the registration is sent (and the form marked busy) iff there are none |
| SignupPage.SignupForm.RegisterSettled | collabSphere/src/pages/Signup.jsx:36-44 | the notice for the reply, and the form no longer busy |
| LoginPage.Validate | collabSphere/src/pages/Login.jsx:17-24 | an e-mail error iff the e-mail fails the pattern, a password error iff the password is empty, no other field |
| LoginPage.ValidExactly | collabSphere/src/pages/Login.jsx:22-23 | the form passes iff the e-mail matches and a password is given |
| LoginPage.SameEmailRule | collabSphere/src/pages/Login.jsx:19-20 | the e-mail error and its message are the sign-up form's |
| LoginPage.LoginAcceptsShortPasswords | collabSphere/src/pages/Login.jsx:21 | there is no length rule: a three-character password logs in though sign-up refuses it |
| LoginPage.SignupImpliesLogin | collabSphere/src/pages/Login.jsx:17-24 | whatever passes sign-up validation passes log-in validation |
| LoginPage.LoginForm.HandleSubmit | collabSphere/src/pages/Login.jsx:26-30 | the errors shown are the validation's, and the credentials are sent iff there are none |
| LoginPage.LoginForm.LoginSettled | collabSphere/src/pages/Login.jsx:31-39 | the notice for the reply, and the form no longer busy |
| AvatarView.ColorIndex | collabSphere/src/components/ui/Avatar.jsx:31-34 | the index is in [0, 8): the first character's code mod 8, or 0 for a missing or empty name |
| AvatarView.ColorFollowsFirstChar | collabSphere/src/components/ui/Avatar.jsx:31-33 | names with the same first character get the same colour |
| AvatarView.FirstChar | collabSphere/src/components/ui/Avatar.jsx:40-41 | a segment contributes its first character, an empty one nothing |
| AvatarView.Initials | collabSphere/src/components/ui/Avatar.jsx:37-44 | `'?'` for a missing or empty name; otherwise the first two of the upper-cased first letters (fewer when there are fewer) |
| AvatarView.LettersAppend | collabSphere/src/components/ui/Avatar.jsx:38-41 | segments contribute their letters independently and in order |
| AvatarView.LettersOfWord | collabSphere/src/components/ui/Avatar.jsx:38-41 | one segment contributes its first character, an empty one nothing |
| AvatarView.TwoWordInitials | collabSphere/src/components/ui/Avatar.jsx:37-44 | a first and a last name give the two upper-cased first letters |
| AvatarView.LeadingSpaceIgnored | collabSphere/src/components/ui/Avatar.jsx:38-41 | a leading space adds no letter |
| AvatarView.DoubleSpaceIgnored | collabSphere/src/components/ui/Avatar.jsx:38-41 | consecutive spaces contribute nothing |
| AvatarView.AvatarGroup | collabSphere/src/components/ui/Avatar.jsx:82-111 | the first min(max, n) users in order are shown, and the badge appears iff n > max and shows n − max (default max 4) |
| AvatarView.GroupAccountsForEveryone | collabSphere/src/components/ui/Avatar.jsx:83-84 | every user is shown or counted on the badge, exactly once |
| Toasts.AddToast | collabSphere/src/context/ToastContext.jsx:9-12 | one toast with the given message, type (default info) and current millisecond is appended; the existing ones are unchanged |
| Toasts.RemoveToast | collabSphere/src/context/ToastContext.jsx:14-16 | exactly the toasts with another id remain |
| Toasts.ShowSuccess | collabSphere/src/context/ToastContext.jsx:19 | adds one toast of type success |
| Toasts.ShowError | collabSphere/src/context/ToastContext.jsx:20 | adds one toast of type error |
| Toasts.ShowWarning | collabSphere/src/context/ToastContext.jsx:21 | adds one toast of type warning |
| Toasts.ShowInfo | collabSphere/src/context/ToastContext.jsx:22 | adds one toast of type info |
| Toasts.RemoveAbsent | collabSphere/src/context/ToastContext.jsx:15 | removing an id nobody has leaves the list unchanged |
| Toasts.RemoveTwice | collabSphere/src/context/ToastContext.jsx:15 | removing twice is removing once |
| Toasts.RemoveUndoesAdd | collabSphere/src/context/ToastContext.jsx:9-16 | closing a toast whose millisecond was fresh gives back the earlier list |
| Toasts.RemoveOtherKeepsAdded | collabSphere/src/context/ToastContext.jsx:9-16 | adding and removing commute across different ids |
| Toasts.SameMillisecondRemovesBoth | collabSphere/src/context/ToastContext.jsx:10-15 | two toasts added in the same millisecond share an id, and one remove deletes both |

## Left out

- Concurrency: the model is sequential. It has no interleaving of `createVersion`'s read-then-insert or of the socket and REST writes.
- JWT verification: it is a function parameter, so `jsonwebtoken` and the secret are not modelled.
- Mongoose: queries, `populate`, ObjectId casting and timestamps are not modelled. Records live in a map and a sequence.
- socket.io delivery: it is modelled by each connection's channel set. The per-user room `socket.join(userId)` is not modelled because no handler emits to it.
- Time: `Date.now()`, `createdAt` and `savedAt` are numbers. The version store's logical clock stands in for both the record id and `createdAt`. So two snapshots never share a `createdAt`; the source stamps milliseconds, where two snapshots can tie and MongoDB orders ties arbitrarily. The "strictly newest first" of `Versions.VersionStore.Newest` and `Versions.NewestFirstDescending`, and the "exactly the newest" of `Versions.TrimKeepsNewest`, rely on this exclusion of ties.
- Fresh ids: `DocumentStore` ids and socket ids are assumed fresh, which is why `Controller.CreateDocument` and `Session.SocketServer.Connect` require them.
- Database failures: only two are modelled. The socket save's failing step is the `SaveFault` parameter, and the final overwrite of `restoreVersion` is the `overwriteFails` flag. The other 500 paths caused by database errors are not modelled. Schema failures (title, role enum) are deterministic and are modelled.
- `getAllDocuments`: not modelled. It is a query with `populate` and no rule beyond the access predicates already modelled.
- Controller.UpdateDocument: only a supplied title is validated; the schema has no validator for content, so none is modelled.
- The markdown import conversion (Dashboard.jsx:111-120): it is a function parameter, because it depends on greedy multiline regular-expression semantics.
- The "updated this week" count and date formatting: not modelled, because they need date arithmetic and locale formatting.
- Presentation: JSX markup, styling, TipTap internals and the cursor-restore attempt are not modelled. Whether TipTap's `setContent(..., false)` fires `onUpdate` is library behaviour, so `onUpdate` is an explicit event.
- Routing and the client socket service (`src/services/socket.js`): not modelled, because they are wiring and null-guarded `emit`/`on` calls.
- Form field `onChange` setters: not modelled, because they are plain assignments to the form classes' fields.
- Unicode: strings are ASCII-modelled. `trim` and `\S` know only the six ASCII white-space characters, and case mapping changes only A–Z/a–z. `charCodeAt` is the character's code point, and `length` counts Dafny characters, not UTF-16 units.
- `AvatarView.AvatarGroup`: `max` is a natural number. A negative `max` passed to `slice` is not modelled.
- `Controller.AddCollaborator`: the e-mail is a string. The source's `User.findOne({ email: undefined })` for a missing e-mail is not modelled.
- `Controller.RestoreVersion`: the auto snapshot and the overwrite are one step each. The source's awaits between them are not separate states.
