/** The collaborative editing page of `src/pages/Editor.jsx`: the save
    status machine with its two-second debounce, the one-shot suppression
    of the first `onUpdate` after a remote change, whatever triggers it,
    the typing indicator
    list, and the labels of the version history list.

    Timers and the editor's `onUpdate` callback are explicit events; what
    the page sends out (socket messages, the REST save, a toast) is
    returned as a list of effects. */
module EditorPage {
  import opened Wrappers
  import opened Seqs
  import opened Text
  import opened DocumentModel
  import opened Session

  datatype SaveStatus = Saved | Saving | Unsaved | Error

  /** One entry of `typingUsers`: the payload of a `user-typing` event. */
  datatype Typist = Typist(userId: UserId, userName: string)

  /** What a handler of the page sends out. */
  datatype Effect =
    | EmitTyping
    | EmitContentChange(content: string)
    | PutContent(content: string)
    | EmitSave(content: string)
    | ErrorToast(message: string)
    | ExpireTypingLater(userId: UserId)

  /** `disabled={saveStatus === 'saving' || saveStatus === 'saved'}`. */
  predicate SaveEnabled(status: SaveStatus): (enabled: bool)
    ensures enabled <==> status == Unsaved || status == Error
  {
    !(status == Saving || status == Saved)
  }

  /** The updater of `onUserTyping`: a user already listed leaves the list
      as it is, a new one is appended. */
  function AddTypist(typists: seq<Typist>, t: Typist): (r: seq<Typist>)
    ensures (exists i :: 0 <= i < |typists| && typists[i].userId == t.userId) ==> r == typists
    ensures (forall i :: 0 <= i < |typists| ==> typists[i].userId != t.userId) ==> r == typists + [t]
    decreases |typists|
  {
    if Listed(typists, t.userId) then typists else typists + [t]
  }

  /** `prev.find(u => u.userId === userId)` found something. */
  predicate Listed(typists: seq<Typist>, u: UserId)
    ensures Listed(typists, u) <==> exists i :: 0 <= i < |typists| && typists[i].userId == u
    decreases |typists|
  {
    if typists == [] then false
    else if typists[0].userId == u then true
    else
      var found := Listed(typists[1..], u);
      assert forall i :: 0 < i < |typists| ==> typists[i] == typists[1..][i - 1];
      found
  }

  function NotUser(u: UserId): Typist -> bool {
    (t: Typist) => t.userId != u
  }

  /** The updater of the typing timeout: every entry of that user goes. */
  function RemoveTypist(typists: seq<Typist>, u: UserId): (r: seq<Typist>)
    ensures forall t :: t in r <==> t in typists && t.userId != u
  {
    Filter(typists, NotUser(u))
  }

  /** No user is listed twice. */
  ghost predicate DistinctTypists(typists: seq<Typist>) {
    forall i, j :: 0 <= i < j < |typists| ==> typists[i].userId != typists[j].userId
  }

  lemma AddTypistKeepsDistinct(typists: seq<Typist>, t: Typist)
    requires DistinctTypists(typists)
    ensures DistinctTypists(AddTypist(typists, t))
    ensures Listed(AddTypist(typists, t), t.userId)
  {
    var r := AddTypist(typists, t);
    if !Listed(typists, t.userId) {
      assert r[|typists|] == t;
    }
  }

  lemma {:induction false} RemoveTypistKeepsDistinct(typists: seq<Typist>, u: UserId)
    requires DistinctTypists(typists)
    ensures DistinctTypists(RemoveTypist(typists, u))
    ensures !Listed(RemoveTypist(typists, u), u)
  {
    FilterPairwise(typists, NotUser(u), DifferentUser);
    var r := RemoveTypist(typists, u);
    assert Pairwise(typists, DifferentUser) by {
      forall i, j | 0 <= i < j < |typists| ensures DifferentUser(typists[i], typists[j]) {
      }
    }
    assert forall i, j :: 0 <= i < j < |r| ==> DifferentUser(r[i], r[j]);
    forall i | 0 <= i < |r| ensures r[i].userId != u {
      assert r[i] in r;
    }
  }

  predicate DifferentUser(a: Typist, b: Typist) {
    a.userId != b.userId
  }

  /** The label of entry `index` of a version list of `count` entries. */
  function VersionLabel(index: nat, count: nat): (caption: string)
    requires index < count
    ensures index == 0 ==> caption == "Current Version"
    ensures index > 0 ==> caption == "Version " + NatToString(count - index)
  {
    if index == 0 then "Current Version" else "Version " + NatToString(count - index)
  }

  /** Only the first entry lacks a Restore button. */
  predicate ShowsRestore(index: nat) {
    index != 0
  }

  /** Different entries of a list get different labels, and the labels
      count down to `Version 1` at the oldest entry shown. */
  lemma VersionLabelsDistinct(i: nat, j: nat, count: nat)
    requires i < count && j < count && i != j
    ensures VersionLabel(i, count) != VersionLabel(j, count)
  {
    if i > 0 && j > 0 {
      var a := VersionLabel(i, count);
      var b := VersionLabel(j, count);
      if a == b {
        assert a[8..] == NatToString(count - i);
        assert b[8..] == NatToString(count - j);
        NatToStringInjective(count - i, count - j);
      }
    } else {
      var other := if i == 0 then j else i;
      assert VersionLabel(other, count)[0] == 'V';
      assert "Current Version"[0] == 'C';
    }
  }

  lemma OldestShownIsVersionOne(count: nat)
    requires count >= 2
    ensures VersionLabel(count - 1, count) == "Version 1"
    ensures !ShowsRestore(0) && ShowsRestore(count - 1)
  {
    assert NatToString(1) == "1";
  }

  /** The page's state for one open document. */
  class EditorSession {
    /** `user._id` of the signed-in user. */
    const self: UserId
    var content: string
    var saveStatus: SaveStatus
    /** `isRemoteUpdate.current`. */
    var isRemoteUpdate: bool
    /** The content the pending `saveTimeoutRef` timer will save, if any. */
    var pendingSave: Option<string>
    /** The contents of REST saves started and not yet settled. */
    var inFlight: seq<string>
    var typingUsers: seq<Typist>
    var activeUsers: seq<Participant>

    ghost predicate Valid()
      reads this
    {
      DistinctTypists(typingUsers) && forall t :: t in typingUsers ==> t.userId != self
    }

    constructor (self: UserId, content: string)
      ensures Valid() && this.self == self && this.content == content
      ensures saveStatus == Saved && !isRemoteUpdate && pendingSave.None? && inFlight == []
      ensures typingUsers == [] && activeUsers == []
    {
      this.self := self;
      this.content := content;
      saveStatus := Saved;
      isRemoteUpdate := false;
      pendingSave := None;
      inFlight := [];
      typingUsers := [];
      activeUsers := [];
    }

    /** `handleContentChange`: the page is unsaved, typing and the content
        go out, and the debounce timer restarts with the new content. */
    method HandleContentChange(c: string) returns (effects: seq<Effect>)
      requires Valid()
      modifies this
      ensures Valid()
      ensures saveStatus == Unsaved && pendingSave == Some(c)
      ensures effects == [EmitTyping, EmitContentChange(c)]
      ensures content == old(content) && isRemoteUpdate == old(isRemoteUpdate) && inFlight == old(inFlight)
      ensures typingUsers == old(typingUsers) && activeUsers == old(activeUsers)
    {
      saveStatus := Unsaved;
      effects := [EmitTyping, EmitContentChange(c)];
      pendingSave := Some(c);
    }

    /** The editor's `onUpdate`, after its content became `html`: the first
        update after a remote change, whatever triggers it, is swallowed;
        any other is a local edit. */
    method OnUpdate(html: string) returns (effects: seq<Effect>)
      requires Valid()
      modifies this
      ensures Valid() && content == html && !isRemoteUpdate
      ensures old(isRemoteUpdate) ==>
        effects == [] && saveStatus == old(saveStatus) && pendingSave == old(pendingSave)
      ensures !old(isRemoteUpdate) ==>
        effects == [EmitTyping, EmitContentChange(html)] && saveStatus == Unsaved && pendingSave == Some(html)
      ensures inFlight == old(inFlight) && typingUsers == old(typingUsers) && activeUsers == old(activeUsers)
    {
      content := html;
      if isRemoteUpdate {
        isRemoteUpdate := false;
        return [];
      }
      effects := HandleContentChange(html);
    }

    /** `saveDocument`, up to the awaited REST request. */
    method SaveDocument(c: string) returns (effects: seq<Effect>)
      requires Valid()
      modifies this
      ensures Valid()
      ensures saveStatus == Saving && inFlight == old(inFlight) + [c] && effects == [PutContent(c)]
      ensures content == old(content) && isRemoteUpdate == old(isRemoteUpdate) && pendingSave == old(pendingSave)
      ensures typingUsers == old(typingUsers) && activeUsers == old(activeUsers)
    {
      saveStatus := Saving;
      inFlight := inFlight + [c];
      effects := [PutContent(c)];
    }

    /** The debounce timer fires and saves the content it was set with: the
        content of the latest local edit. */
    method SaveTimerFires() returns (effects: seq<Effect>)
      requires Valid() && pendingSave.Some?
      modifies this
      ensures Valid() && pendingSave.None?
      ensures saveStatus == Saving && inFlight == old(inFlight) + [old(pendingSave).value]
      ensures effects == [PutContent(old(pendingSave).value)]
      ensures content == old(content) && isRemoteUpdate == old(isRemoteUpdate)
      ensures typingUsers == old(typingUsers) && activeUsers == old(activeUsers)
    {
      var c := pendingSave.value;
      pendingSave := None;
      effects := SaveDocument(c);
    }

    /** The REST request of save `i` settles: on success the socket save
        follows with the same content and the page is saved; on failure the
        page shows the error and a toast, and no socket save is sent. */
    method PutSettled(i: nat, ok: bool) returns (effects: seq<Effect>)
      requires Valid() && i < |inFlight|
      modifies this
      ensures Valid()
      ensures inFlight == old(inFlight)[..i] + old(inFlight)[i + 1..]
      ensures ok ==> saveStatus == Saved && effects == [EmitSave(old(inFlight)[i])]
      ensures !ok ==> saveStatus == Error && effects == [ErrorToast("Failed to save")]
      ensures content == old(content) && isRemoteUpdate == old(isRemoteUpdate) && pendingSave == old(pendingSave)
      ensures typingUsers == old(typingUsers) && activeUsers == old(activeUsers)
    {
      var c := inFlight[i];
      inFlight := inFlight[..i] + inFlight[i + 1..];
      if ok {
        saveStatus := Saved;
        effects := [EmitSave(c)];
      } else {
        saveStatus := Error;
        effects := [ErrorToast("Failed to save")];
      }
    }

    /** The Save button: a click does something only while it is enabled,
        and saves what the editor holds then. The pending timer keeps
        running. */
    method ClickSave() returns (effects: seq<Effect>)
      requires Valid()
      modifies this
      ensures Valid()
      ensures !SaveEnabled(old(saveStatus)) ==>
        effects == [] && saveStatus == old(saveStatus) && inFlight == old(inFlight)
      ensures SaveEnabled(old(saveStatus)) ==>
        effects == [PutContent(content)] && saveStatus == Saving && inFlight == old(inFlight) + [content]
      ensures content == old(content) && isRemoteUpdate == old(isRemoteUpdate) && pendingSave == old(pendingSave)
      ensures typingUsers == old(typingUsers) && activeUsers == old(activeUsers)
    {
      if !SaveEnabled(saveStatus) {
        return [];
      }
      effects := SaveDocument(content);
    }

    /** `onContentChange`: a change from another user replaces the content
        and arms the suppression of the next `onUpdate`; the user's own
        echo is ignored. */
    method OnRemoteContentChange(c: string, from: UserId)
      requires Valid()
      modifies this
      ensures Valid()
      ensures from == self ==> content == old(content) && isRemoteUpdate == old(isRemoteUpdate)
      ensures from != self ==> content == c && isRemoteUpdate
      ensures saveStatus == old(saveStatus) && pendingSave == old(pendingSave) && inFlight == old(inFlight)
      ensures typingUsers == old(typingUsers) && activeUsers == old(activeUsers)
    {
      if from != self {
        isRemoteUpdate := true;
        content := c;
      }
    }

    /** `onUserTyping`: another user is listed once, with an expiry two
        seconds later; the user's own typing is ignored. */
    method OnUserTyping(t: Typist) returns (effects: seq<Effect>)
      requires Valid()
      modifies this
      ensures Valid()
      ensures t.userId == self ==> typingUsers == old(typingUsers) && effects == []
      ensures t.userId != self ==>
        typingUsers == AddTypist(old(typingUsers), t) && effects == [ExpireTypingLater(t.userId)]
      ensures saveStatus == old(saveStatus) && content == old(content) && isRemoteUpdate == old(isRemoteUpdate)
      ensures pendingSave == old(pendingSave) && inFlight == old(inFlight) && activeUsers == old(activeUsers)
    {
      if t.userId == self {
        return [];
      }
      AddTypistKeepsDistinct(typingUsers, t);
      typingUsers := AddTypist(typingUsers, t);
      effects := [ExpireTypingLater(t.userId)];
    }

    /** A typing expiry fires: that user is no longer listed. */
    method OnTypingExpired(u: UserId)
      requires Valid()
      modifies this
      ensures Valid() && typingUsers == RemoveTypist(old(typingUsers), u)
      ensures saveStatus == old(saveStatus) && content == old(content) && isRemoteUpdate == old(isRemoteUpdate)
      ensures pendingSave == old(pendingSave) && inFlight == old(inFlight) && activeUsers == old(activeUsers)
    {
      RemoveTypistKeepsDistinct(typingUsers, u);
      typingUsers := RemoveTypist(typingUsers, u);
    }

    /** `onDocumentSaved`: whoever saved, the page shows saved, even with a
        local edit still waiting for its timer. */
    method OnDocumentSaved()
      requires Valid()
      modifies this
      ensures Valid() && saveStatus == Saved
      ensures content == old(content) && isRemoteUpdate == old(isRemoteUpdate) && pendingSave == old(pendingSave)
      ensures inFlight == old(inFlight) && typingUsers == old(typingUsers) && activeUsers == old(activeUsers)
    {
      saveStatus := Saved;
    }

    /** `onUserJoined` and `onUserLeft`: the list is replaced by the
        server's. */
    method OnPresence(users: seq<Participant>)
      requires Valid()
      modifies this
      ensures Valid() && activeUsers == users
      ensures saveStatus == old(saveStatus) && content == old(content) && isRemoteUpdate == old(isRemoteUpdate)
      ensures pendingSave == old(pendingSave) && inFlight == old(inFlight) && typingUsers == old(typingUsers)
    {
      activeUsers := users;
    }
  }
}
