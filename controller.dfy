/** The REST handlers of `server/src/controllers/document.controller.js`
    over the two collections: who may read, list, edit, delete and share a
    document, and what each handler writes and answers. */
module Controller {
  import opened Wrappers
  import opened Seqs
  import opened DocumentModel
  import opened Versions
  import opened Text

  /** What a handler sends back besides its status. */
  datatype Payload =
    | NoPayload
    | DocumentPayload(document: Document)
    | VersionsPayload(versions: seq<VersionRecord>)

  /** An HTTP answer: status code, the `success` flag, the `message` field
      when there is one, and the body's document or version list. */
  datatype Response = Response(status: nat, success: bool, message: Option<string>, payload: Payload)

  function Fail(status: nat, message: string): Response {
    Response(status, false, Some(message), NoPayload)
  }

  /** How many entries of `cs` hold user `u`. */
  function Entries(cs: seq<Collaborator>, u: UserId): nat {
    |Filter(cs, (c: Collaborator) => c.user == Some(u))|
  }

  /** `collaborators.some(c => c.user?.toString() === u)`. */
  predicate IsCollaborator(cs: seq<Collaborator>, u: UserId)
    ensures IsCollaborator(cs, u) <==> exists i :: 0 <= i < |cs| && cs[i].user == Some(u)
    decreases |cs|
  {
    if cs == [] then false
    else if cs[0].user == Some(u) then true
    else
      var found := IsCollaborator(cs[1..], u);
      assert forall i :: 0 < i < |cs| ==> cs[i] == cs[1..][i - 1];
      found
  }

  /** `collaborators.some(c => c.user?.toString() === u && c.role === 'editor')`. */
  predicate IsEditor(cs: seq<Collaborator>, u: UserId)
    ensures IsEditor(cs, u) <==> exists i :: 0 <= i < |cs| && cs[i] == Collaborator(Some(u), Editor)
    decreases |cs|
  {
    if cs == [] then false
    else if cs[0] == Collaborator(Some(u), Editor) then true
    else
      var found := IsEditor(cs[1..], u);
      assert forall i :: 0 < i < |cs| ==> cs[i] == cs[1..][i - 1];
      found
  }

  /** `hasAccess` of `getDocument`: owner, any collaborator, or public. */
  predicate CanRead(doc: Document, u: UserId) {
    doc.owner == u || IsCollaborator(doc.collaborators, u) || doc.isPublic
  }

  /** `hasAccess` of `getVersions`: owner or any collaborator; a public
      document grants nothing here. */
  predicate CanListVersions(doc: Document, u: UserId) {
    doc.owner == u || IsCollaborator(doc.collaborators, u)
  }

  /** `hasEditAccess` of `updateDocument` and `restoreVersion`. */
  predicate CanEdit(doc: Document, u: UserId) {
    doc.owner == u || IsEditor(doc.collaborators, u)
  }

  /** Each access level includes the next: edit, then list, then read. */
  lemma AccessLevelsNest(doc: Document, u: UserId)
    ensures CanEdit(doc, u) ==> CanListVersions(doc, u)
    ensures CanListVersions(doc, u) ==> CanRead(doc, u)
  {
    if IsEditor(doc.collaborators, u) {
      var i :| 0 <= i < |doc.collaborators| && doc.collaborators[i] == Collaborator(Some(u), Editor);
      assert doc.collaborators[i].user == Some(u);
    }
  }

  /** The users who may list versions are exactly those `allUsers` lists. */
  lemma ListersAreAllUsers(doc: Document, u: UserId)
    ensures CanListVersions(doc, u) <==> u in [doc.owner] + CollaboratorUsers(doc.collaborators)
  {
    AllUsersMembers(doc, u);
  }

  /** A collaborator whose only entries are viewer entries may read and list
      versions, but neither edit nor restore. */
  lemma ViewerCannotEdit(doc: Document, u: UserId)
    requires doc.owner != u
    requires Collaborator(Some(u), Viewer) in doc.collaborators
    requires Collaborator(Some(u), Editor) !in doc.collaborators
    ensures CanRead(doc, u) && CanListVersions(doc, u)
    ensures !CanEdit(doc, u)
  {
    var i :| 0 <= i < |doc.collaborators| && doc.collaborators[i] == Collaborator(Some(u), Viewer);
    assert doc.collaborators[i].user == Some(u);
  }

  /** Making a document public lets strangers read it and nothing more. */
  lemma PublicGrantsOnlyRead(doc: Document, u: UserId)
    requires doc.isPublic && doc.owner != u
    requires forall c :: c in doc.collaborators ==> c.user != Some(u)
    ensures CanRead(doc, u)
    ensures !CanListVersions(doc, u) && !CanEdit(doc, u)
  {
    AccessLevelsNest(doc, u);
  }

  /** The record `createDocument` inserts, or the schema error that makes
      `Document.create` throw. */
  function Created(title: Option<string>, content: Option<string>, u: UserId): (r: Result<Document, SchemaError>)
    ensures r.Success? <==> CastTitle(OrElse(title, DefaultTitle)).Success?
    ensures r.Success? ==> r.value.title == Trim(OrElse(title, DefaultTitle)) && 1 <= |r.value.title| <= TitleMaxLength
    ensures r.Success? ==> r.value.content == OrElse(content, "") && r.value.owner == u
    ensures r.Success? ==> r.value.collaborators == [] && !r.value.isPublic && r.value.lastEditedBy.None?
  {
    match CastTitle(OrElse(title, DefaultTitle))
    case Failure(e) => Failure(e)
    case Success(t) => Success(NewDocument(t, OrElse(content, ""), u))
  }

  /** Without a title (or with an empty one) the document is called
      `'Untitled Document'`, and creation cannot fail. */
  lemma CreatedUntitled(title: Option<string>, content: Option<string>, u: UserId)
    requires title.None? || title == Some("")
    ensures Created(title, content, u) == Success(NewDocument(DefaultTitle, OrElse(content, ""), u))
  {
    var given := OrElse(title, DefaultTitle);
    assert given == DefaultTitle;
    DefaultTitleValid();
    assert CastTitle(given) == Success(DefaultTitle);
  }

  /** The record `updateDocument` saves: only supplied fields change, and
      the editor is always recorded. */
  function Updated(doc: Document, u: UserId, title: Option<string>, content: Option<string>): (r: Result<Document, SchemaError>)
    ensures r.Success? <==> title.None? || CastTitle(title.value).Success?
    ensures r.Success? ==> r.value.title == (if title.None? then doc.title else Trim(title.value))
    ensures r.Success? ==> r.value.content == (if content.None? then doc.content else content.value)
    ensures r.Success? ==> r.value.owner == doc.owner && r.value.collaborators == doc.collaborators
    ensures r.Success? ==> r.value.isPublic == doc.isPublic && r.value.lastEditedBy == Some(u)
  {
    var withTitle :=
      if title.None? then Success(doc.title)
      else CastTitle(title.value);
    match withTitle
    case Failure(e) => Failure(e)
    case Success(t) =>
      Success(doc.(title := t, content := content.GetOr(doc.content), lastEditedBy := Some(u)))
  }

  /** The record `addCollaborator` saves: one entry appended at the end. */
  function WithCollaborator(doc: Document, v: UserId, role: Option<string>): (r: Result<Document, SchemaError>)
    ensures r.Success? <==> CastRole(role).Success?
    ensures r.Success? ==>
      r.value == doc.(collaborators := doc.collaborators + [Collaborator(Some(v), CastRole(role).value)])
  {
    match CastRole(role)
    case Failure(e) => Failure(e)
    case Success(rl) => Success(doc.(collaborators := doc.collaborators + [Collaborator(Some(v), rl)]))
  }

  /** Appending a user who had no entry gives that user exactly one entry. */
  lemma {:induction false} AddedOnce(cs: seq<Collaborator>, v: UserId, role: Role)
    requires !IsCollaborator(cs, v)
    ensures Entries(cs + [Collaborator(Some(v), role)], v) == 1
  {
    var holds := (c: Collaborator) => c.user == Some(v);
    FilterAppend(cs, [Collaborator(Some(v), role)], holds);
    forall c | c in cs ensures !holds(c) {
    }
    FilterDropsAll(cs, holds);
  }

  /** `getDocument`. */
  function GetDocument(db: DocumentStore, id: DocId, u: UserId): (r: Response)
    reads db
    ensures id !in db.documents ==> r == Fail(404, "Document not found")
    ensures id in db.documents && !CanRead(db.documents[id], u) ==> r == Fail(403, "Access denied")
    ensures r.success <==> id in db.documents && CanRead(db.documents[id], u)
    ensures r.success ==> r == Response(200, true, None, DocumentPayload(db.documents[id]))
  {
    if id !in db.documents then Fail(404, "Document not found")
    else if !CanRead(db.documents[id], u) then Fail(403, "Access denied")
    else Response(200, true, None, DocumentPayload(db.documents[id]))
  }

  /** The number of versions `getVersions` returns at most. */
  const VersionListLimit: nat := 20

  /** `getVersions`: at most 20 of the document's snapshots, newest first. */
  function GetVersions(db: DocumentStore, vs: VersionStore, id: DocId, u: UserId): (r: Response)
    reads db, vs
    requires vs.Valid()
    ensures id !in db.documents ==> r == Fail(404, "Document not found")
    ensures id in db.documents && !CanListVersions(db.documents[id], u) ==> r == Fail(403, "Access denied")
    ensures r.success <==> id in db.documents && CanListVersions(db.documents[id], u)
    ensures r.success ==> r.status == 200 && r.payload.VersionsPayload?
    ensures r.payload.VersionsPayload? ==>
      |r.payload.versions| <= VersionListLimit &&
      (forall x :: x in r.payload.versions ==> x in vs.records && x.document == id) &&
      (forall i, j :: 0 <= i < j < |r.payload.versions| ==>
         r.payload.versions[i].createdAt > r.payload.versions[j].createdAt)
    ensures r.success ==> r.payload.versions == vs.Newest(id, VersionListLimit)
    ensures r.success ==>
      |r.payload.versions| == (if |OfDocument(vs.records, id)| < VersionListLimit
                               then |OfDocument(vs.records, id)| else VersionListLimit)
    ensures r.success ==>
      forall x, y :: x in vs.records && x.document == id && x !in r.payload.versions && y in r.payload.versions ==>
        x.createdAt < y.createdAt
  {
    if id !in db.documents then Fail(404, "Document not found")
    else if !CanListVersions(db.documents[id], u) then Fail(403, "Access denied")
    else Response(200, true, None, VersionsPayload(vs.Newest(id, VersionListLimit)))
  }

  /** `createDocument`: the record under a fresh identifier, then its first
      `'manual'` snapshot. A title that fails the schema answers 500 and
      writes nothing. */
  method CreateDocument(db: DocumentStore, vs: VersionStore, newId: DocId,
                        title: Option<string>, content: Option<string>, u: UserId)
    returns (r: Response)
    requires vs.Valid() && newId !in db.documents
    modifies db, vs
    ensures vs.Valid()
    ensures Created(title, content, u).Failure? ==>
      r == Fail(500, "Failed to create document") &&
      db.documents == old(db.documents) && vs.records == old(vs.records) && vs.clock == old(vs.clock)
    ensures Created(title, content, u).Success? ==>
      var doc := Created(title, content, u).value;
      r == Response(201, true, None, DocumentPayload(doc)) &&
      db.documents == old(db.documents)[newId := doc] &&
      vs.records == old(vs.records) + [VersionRecord(old(vs.clock), newId, OrElse(content, ""), u,
                                                     NextVersionNumber(old(vs.records), newId),
                                                     Manual, old(vs.clock))] &&
      vs.clock == old(vs.clock) + 1
  {
    match Created(title, content, u)
    case Failure(_) =>
      r := Fail(500, "Failed to create document");
    case Success(doc) =>
      db.Put(newId, doc);
      var _ := vs.CreateVersion(newId, OrElse(content, ""), u, Manual);
      r := Response(201, true, None, DocumentPayload(doc));
  }

  /** `updateDocument`. */
  method UpdateDocument(db: DocumentStore, id: DocId, u: UserId, title: Option<string>, content: Option<string>)
    returns (r: Response)
    modifies db
    ensures id !in old(db.documents) ==> r == Fail(404, "Document not found")
    ensures id in old(db.documents) && !CanEdit(old(db.documents)[id], u) ==>
      r == Fail(403, "You do not have edit access")
    ensures id in old(db.documents) && CanEdit(old(db.documents)[id], u) &&
            Updated(old(db.documents)[id], u, title, content).Failure? ==>
      r == Fail(500, "Failed to update document")
    ensures r.success <==>
      id in old(db.documents) && CanEdit(old(db.documents)[id], u) &&
      Updated(old(db.documents)[id], u, title, content).Success?
    ensures r.success ==>
      var doc := Updated(old(db.documents)[id], u, title, content).value;
      r == Response(200, true, None, DocumentPayload(doc)) && db.documents == old(db.documents)[id := doc]
    ensures !r.success ==> db.documents == old(db.documents)
  {
    if id !in db.documents {
      return Fail(404, "Document not found");
    }
    var doc := db.documents[id];
    if !CanEdit(doc, u) {
      return Fail(403, "You do not have edit access");
    }
    match Updated(doc, u, title, content)
    case Failure(_) =>
      r := Fail(500, "Failed to update document");
    case Success(saved) =>
      db.Put(id, saved);
      r := Response(200, true, None, DocumentPayload(saved));
  }

  /** `deleteDocument`: owner only; every snapshot of the document goes
      first, then the record. */
  method DeleteDocument(db: DocumentStore, vs: VersionStore, id: DocId, u: UserId)
    returns (r: Response)
    requires vs.Valid()
    modifies db, vs
    ensures vs.Valid()
    ensures id !in old(db.documents) ==> r == Fail(404, "Document not found")
    ensures id in old(db.documents) && old(db.documents)[id].owner != u ==>
      r == Fail(403, "Only the owner can delete this document")
    ensures r.success <==> id in old(db.documents) && old(db.documents)[id].owner == u
    ensures r.success ==>
      r == Response(200, true, Some("Document deleted successfully"), NoPayload) &&
      db.documents == old(db.documents) - {id} &&
      vs.records == WithoutDocument(old(vs.records), id)
    ensures !r.success ==> db.documents == old(db.documents) && vs.records == old(vs.records)
    ensures vs.clock == old(vs.clock)
  {
    if id !in db.documents {
      return Fail(404, "Document not found");
    }
    if db.documents[id].owner != u {
      return Fail(403, "Only the owner can delete this document");
    }
    vs.DeleteForDocument(id);
    db.FindByIdAndDelete(id);
    r := Response(200, true, Some("Document deleted successfully"), NoPayload);
  }

  /** `restoreVersion`: a snapshot of the current content is appended
      first, then the content is overwritten with the version's. The
      version is looked up by identifier alone, so a version of another
      document is restored just the same. `overwriteFails` stands for the
      final `document.save()` failing, after the snapshot was written. */
  method RestoreVersion(db: DocumentStore, vs: VersionStore, id: DocId, versionId: nat, u: UserId,
                        overwriteFails: bool)
    returns (r: Response)
    requires vs.Valid()
    modifies db, vs
    ensures vs.Valid()
    ensures id !in old(db.documents) || FindId(old(vs.records), versionId).None? ==>
      r == Fail(404, "Document or version not found")
    ensures id in old(db.documents) && FindId(old(vs.records), versionId).Some? &&
            !CanEdit(old(db.documents)[id], u) ==>
      r == Fail(403, "You do not have edit access")
    ensures r.status == 404 || r.status == 403 ==>
      db.documents == old(db.documents) && vs.records == old(vs.records) && vs.clock == old(vs.clock)
    ensures id in old(db.documents) && FindId(old(vs.records), versionId).Some? &&
            CanEdit(old(db.documents)[id], u) ==>
      var doc := old(db.documents)[id];
      vs.records == old(vs.records) + [VersionRecord(old(vs.clock), id, doc.content, u,
                                                     NextVersionNumber(old(vs.records), id),
                                                     Auto, old(vs.clock))] &&
      vs.clock == old(vs.clock) + 1 &&
      (overwriteFails ==> r == Fail(500, "Failed to restore version") && db.documents == old(db.documents)) &&
      (!overwriteFails ==>
        var restored := doc.(content := FindId(old(vs.records), versionId).value.content, lastEditedBy := Some(u));
        db.documents == old(db.documents)[id := restored] &&
        r == Response(200, true, Some("Version restored successfully"), DocumentPayload(restored)))
  {
    var version := vs.FindById(versionId);
    if id !in db.documents || version.None? {
      return Fail(404, "Document or version not found");
    }
    var doc := db.documents[id];
    if !CanEdit(doc, u) {
      return Fail(403, "You do not have edit access");
    }
    var _ := vs.CreateVersion(id, doc.content, u, Auto);
    if overwriteFails {
      return Fail(500, "Failed to restore version");
    }
    var restored := doc.(content := version.value.content, lastEditedBy := Some(u));
    db.Put(id, restored);
    r := Response(200, true, Some("Version restored successfully"), DocumentPayload(restored));
  }

  /** `addCollaborator`: owner only; `directory` maps e-mail addresses to
      the users registered with them (`User.findOne({ email })`). */
  method AddCollaborator(db: DocumentStore, id: DocId, u: UserId, email: string, role: Option<string>,
                         directory: map<string, UserId>)
    returns (r: Response)
    modifies db
    ensures id !in old(db.documents) ==> r == Fail(404, "Document not found")
    ensures id in old(db.documents) && old(db.documents)[id].owner != u ==>
      r == Fail(403, "Only the owner can add collaborators")
    ensures id in old(db.documents) && old(db.documents)[id].owner == u && email !in directory ==>
      r == Fail(404, "User not found")
    ensures id in old(db.documents) && old(db.documents)[id].owner == u && email in directory &&
            IsCollaborator(old(db.documents)[id].collaborators, directory[email]) ==>
      r == Fail(400, "User is already a collaborator")
    ensures r.success <==>
      id in old(db.documents) && old(db.documents)[id].owner == u && email in directory &&
      !IsCollaborator(old(db.documents)[id].collaborators, directory[email]) && CastRole(role).Success?
    ensures r.success ==>
      var doc := WithCollaborator(old(db.documents)[id], directory[email], role).value;
      db.documents == old(db.documents)[id := doc] && r == Response(200, true, None, DocumentPayload(doc)) &&
      Entries(doc.collaborators, directory[email]) == 1
    ensures !r.success ==> db.documents == old(db.documents)
    ensures r.status == 500 ==> r == Fail(500, "Failed to add collaborator")
  {
    if id !in db.documents {
      return Fail(404, "Document not found");
    }
    var doc := db.documents[id];
    if doc.owner != u {
      return Fail(403, "Only the owner can add collaborators");
    }
    if email !in directory {
      return Fail(404, "User not found");
    }
    var v := directory[email];
    if IsCollaborator(doc.collaborators, v) {
      return Fail(400, "User is already a collaborator");
    }
    match WithCollaborator(doc, v, role)
    case Failure(_) =>
      r := Fail(500, "Failed to add collaborator");
    case Success(saved) =>
      AddedOnce(doc.collaborators, v, CastRole(role).value);
      db.Put(id, saved);
      r := Response(200, true, None, DocumentPayload(saved));
  }
}
