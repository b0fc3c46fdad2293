/** The document record of `server/src/models/Document.js`: its schema
    defaults and constraints, the `allUsers` virtual, and the collection
    that holds the records. */
module DocumentModel {
  import opened Wrappers
  import opened Seqs
  import opened Text

  type UserId = string
  type DocId = string

  /** The collaborator role enumeration `['viewer', 'editor']`. */
  datatype Role = Viewer | Editor

  const DefaultRole: Role := Editor
  const DefaultTitle: string := "Untitled Document"
  const TitleMaxLength: nat := 200

  /** One entry of `collaborators`; `user` is absent when the reference is
      empty (or, after population, when the user no longer exists). */
  datatype Collaborator = Collaborator(user: Option<UserId>, role: Role)

  datatype Document = Document(
    title: string,
    content: string,
    owner: UserId,
    collaborators: seq<Collaborator>,
    isPublic: bool,
    lastEditedBy: Option<UserId>)

  /** Why saving a record fails schema validation. */
  datatype SchemaError = TitleRequired | TitleTooLong | InvalidRole

  /** The title path of the schema: the `trim` setter runs first, then the
      `required` validator (an empty string fails it), then `maxlength`. */
  function CastTitle(title: string): (r: Result<string, SchemaError>)
    ensures r.Success? <==> !AllSpace(title) && |Trim(title)| <= TitleMaxLength
    ensures r.Success? ==> r.value == Trim(title) && 1 <= |r.value| <= TitleMaxLength
    ensures r == Failure(TitleRequired) <==> AllSpace(title)
  {
    var t := Trim(title);
    if t == "" then Failure(TitleRequired)
    else if |t| > TitleMaxLength then Failure(TitleTooLong)
    else Success(t)
  }

  /** The default title passes the schema unchanged. */
  lemma DefaultTitleValid()
    ensures CastTitle(DefaultTitle) == Success(DefaultTitle)
  {
    assert !IsSpace(DefaultTitle[0]) && !IsSpace(DefaultTitle[|DefaultTitle| - 1]);
    assert TrimStart(DefaultTitle) == DefaultTitle;
    assert TrimEnd(DefaultTitle) == DefaultTitle;
  }

  /** `role || 'editor'` followed by the role enumeration check. */
  function CastRole(role: Option<string>): (r: Result<Role, SchemaError>)
    ensures role.None? || role == Some("") || role == Some("editor") <==> r == Success(Editor)
    ensures r == Success(Viewer) <==> role == Some("viewer")
    ensures r.Failure? <==> role.Some? && role.value !in {"", "editor", "viewer"}
  {
    match role
    case None => Success(DefaultRole)
    case Some(s) =>
      if s == "" || s == "editor" then Success(Editor)
      else if s == "viewer" then Success(Viewer)
      else Failure(InvalidRole)
  }

  /** A freshly created record: no collaborators, private, never edited. */
  function NewDocument(title: string, content: string, owner: UserId): (d: Document)
    ensures d.title == title && d.content == content && d.owner == owner
    ensures d.collaborators == [] && !d.isPublic && d.lastEditedBy.None?
  {
    Document(title, content, owner, [], false, None)
  }

  predicate HasUser(c: Collaborator) {
    c.user.Some?
  }

  function UserOf(c: Collaborator): UserId {
    c.user.GetOr("")
  }

  /** The users of the collaborator entries that have one, in order. */
  function CollaboratorUsers(cs: seq<Collaborator>): seq<UserId> {
    Map(Filter(cs, HasUser), UserOf)
  }

  /** The `allUsers` virtual: the owner, then each collaborator's user in
      order, skipping entries without one. */
  method AllUsers(doc: Document) returns (users: seq<UserId>)
    ensures users == [doc.owner] + CollaboratorUsers(doc.collaborators)
    ensures |users| == 1 + |Filter(doc.collaborators, HasUser)|
  {
    var cs := doc.collaborators;
    users := [doc.owner];
    var i := 0;
    while i < |cs|
      invariant 0 <= i <= |cs|
      invariant users == [doc.owner] + CollaboratorUsers(cs[..i])
    {
      FilterAppend(cs[..i], [cs[i]], HasUser);
      assert cs[..i + 1] == cs[..i] + [cs[i]];
      if cs[i].user.Some? {
        users := users + [cs[i].user.value];
      }
      i := i + 1;
    }
    assert cs[..i] == cs;
  }

  /** A user is listed by `allUsers` exactly when it is the owner or the
      user of some collaborator entry. */
  lemma AllUsersMembers(doc: Document, u: UserId)
    ensures u in [doc.owner] + CollaboratorUsers(doc.collaborators) <==>
            u == doc.owner || exists i :: 0 <= i < |doc.collaborators| && doc.collaborators[i].user == Some(u)
  {
    var cs := doc.collaborators;
    var kept := Filter(cs, HasUser);
    if u in CollaboratorUsers(cs) {
      var k :| 0 <= k < |kept| && UserOf(kept[k]) == u;
      assert kept[k] in kept;
      var i :| 0 <= i < |cs| && cs[i] == kept[k];
      assert cs[i].user == Some(u);
    }
    if i :| 0 <= i < |cs| && cs[i].user == Some(u) {
      assert cs[i] in cs && HasUser(cs[i]);
      assert cs[i] in kept;
      var k :| 0 <= k < |kept| && kept[k] == cs[i];
      assert CollaboratorUsers(cs)[k] == u;
    }
  }

  /** The `documents` collection. */
  class DocumentStore {
    var documents: map<DocId, Document>

    constructor ()
      ensures documents == map[]
    {
      documents := map[];
    }

    /** `document.save()` / `Document.create(...)`: the record stored under `id`. */
    method Put(id: DocId, doc: Document)
      modifies this
      ensures documents == old(documents)[id := doc]
    {
      documents := documents[id := doc];
    }

    /** `Document.findByIdAndDelete(id)`. */
    method FindByIdAndDelete(id: DocId)
      modifies this
      ensures documents == old(documents) - {id}
    {
      documents := documents - {id};
    }

    /** `Document.findByIdAndUpdate(id, { content, lastEditedBy })`: no
        validators run, and an unknown id changes nothing. */
    method FindByIdAndUpdate(id: DocId, content: string, editor: UserId)
      modifies this
      ensures id in old(documents) ==>
        documents == old(documents)[id := old(documents)[id].(content := content, lastEditedBy := Some(editor))]
      ensures id !in old(documents) ==> documents == old(documents)
    {
      if id in documents {
        documents := documents[id := documents[id].(content := content, lastEditedBy := Some(editor))];
      }
    }
  }
}
