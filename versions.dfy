/** The snapshot store of `server/src/models/DocumentVersion.js`: version
    records, `createVersion` (maximum-plus-one numbering) and
    `cleanupOldVersions` (keep the newest N by creation time).

    Creation timestamps and record identifiers are both drawn from a
    logical clock that the store advances on every insertion, so the
    records are held in creation order and "newest first by `createdAt`"
    is the reverse of that order. */
module Versions {
  import opened Wrappers
  import opened Seqs
  import opened DocumentModel

  /** The `snapshotType` enumeration `['auto', 'manual']`. */
  datatype SnapshotType = Auto | Manual

  datatype VersionRecord = VersionRecord(
    id: nat,
    document: DocId,
    content: string,
    createdBy: UserId,
    versionNumber: nat,
    snapshotType: SnapshotType,
    createdAt: nat)

  /** The default `keepCount` of `cleanupOldVersions`. */
  const DefaultKeepCount: nat := 50

  function BelongsTo(d: DocId): VersionRecord -> bool {
    (r: VersionRecord) => r.document == d
  }

  function NotBelongsTo(d: DocId): VersionRecord -> bool {
    (r: VersionRecord) => r.document != d
  }

  function NumberOf(r: VersionRecord): nat {
    r.versionNumber
  }

  /** The records of document `d`, oldest first. */
  function OfDocument(records: seq<VersionRecord>, d: DocId): seq<VersionRecord> {
    Filter(records, BelongsTo(d))
  }

  /** The version numbers of document `d`, in creation order. */
  function Numbers(records: seq<VersionRecord>, d: DocId): seq<nat> {
    Map(OfDocument(records, d), NumberOf)
  }

  /** The largest element, if any. */
  function MaxOf(xs: seq<nat>): (m: Option<nat>)
    ensures m.None? <==> xs == []
    ensures m.Some? ==> m.value in xs && forall x :: x in xs ==> x <= m.value
    decreases |xs|
  {
    if xs == [] then None
    else
      var front := xs[..|xs| - 1];
      var last := xs[|xs| - 1];
      assert xs == front + [last];
      match MaxOf(front)
      case None => Some(last)
      case Some(m) => if m < last then Some(last) else Some(m)
  }

  /** `findOne({ document }).sort({ versionNumber: -1 })`: the largest
      version number of document `d`, if it has any record. */
  function Latest(records: seq<VersionRecord>, d: DocId): Option<nat> {
    MaxOf(Numbers(records, d))
  }

  /** The number `createVersion` gives the next record of `d`: one more
      than the largest number `d` has, and 1 when it has none. */
  function NextVersionNumber(records: seq<VersionRecord>, d: DocId): (n: nat)
    ensures n >= 1
    ensures forall r :: r in records && r.document == d ==> r.versionNumber < n
    ensures OfDocument(records, d) == [] ==> n == 1
    ensures OfDocument(records, d) != [] ==>
      exists r :: r in records && r.document == d && r.versionNumber + 1 == n
  {
    var ns := Numbers(records, d);
    var ofd := OfDocument(records, d);
    assert forall r :: r in records && r.document == d ==> r in ofd && NumberOf(r) in ns by {
      forall r | r in records && r.document == d ensures r in ofd && NumberOf(r) in ns {
        assert BelongsTo(d)(r);
        var k :| 0 <= k < |ofd| && ofd[k] == r;
        assert ns[k] == NumberOf(r);
      }
    }
    match Latest(records, d)
    case None => 1
    case Some(m) =>
      var k :| 0 <= k < |ns| && ns[k] == m;
      assert ofd[k] in ofd;
      m + 1
  }

  /** Records are held in creation order: identifiers and timestamps
      increase along the sequence, and so do the version numbers of each
      document. */
  predicate Before(a: VersionRecord, b: VersionRecord) {
    a.id < b.id && a.createdAt < b.createdAt &&
    (a.document == b.document ==> a.versionNumber < b.versionNumber)
  }

  /** The records of `d`, newest `createdAt` first. */
  function NewestFirst(records: seq<VersionRecord>, d: DocId): seq<VersionRecord> {
    Reverse(OfDocument(records, d))
  }

  /** `find({ document }).sort({ createdAt: -1 }).skip(keepCount)`: the
      records `cleanupOldVersions` selects for deletion. */
  function Doomed(records: seq<VersionRecord>, d: DocId, keepCount: nat): seq<VersionRecord> {
    var newest := NewestFirst(records, d);
    if keepCount < |newest| then newest[keepCount..] else []
  }

  function IdsOf(rs: seq<VersionRecord>): set<nat> {
    set r | r in rs :: r.id
  }

  function IdNotIn(ids: set<nat>): VersionRecord -> bool {
    (r: VersionRecord) => r.id !in ids
  }

  /** The store after `cleanupOldVersions(d, keepCount)`: when anything was
      selected, `deleteMany({ _id: { $in: ids } })` removes it. */
  function Trimmed(records: seq<VersionRecord>, d: DocId, keepCount: nat): (r: seq<VersionRecord>)
    ensures |OfDocument(records, d)| <= keepCount ==> r == records
  {
    var doomed := Doomed(records, d, keepCount);
    if |doomed| > 0 then Filter(records, IdNotIn(IdsOf(doomed))) else records
  }

  /** The store after `deleteMany({ document: d })`. */
  function WithoutDocument(records: seq<VersionRecord>, d: DocId): seq<VersionRecord> {
    Filter(records, NotBelongsTo(d))
  }

  /** The record with identifier `id`, if any (`findById`). */
  function FindId(records: seq<VersionRecord>, id: nat): (r: Option<VersionRecord>)
    ensures r.Some? ==> r.value in records && r.value.id == id
    ensures r.None? ==> forall x :: x in records ==> x.id != id
    decreases |records|
  {
    if records == [] then None
    else if records[0].id == id then Some(records[0])
    else FindId(records[1..], id)
  }

  /** The `versions` collection. */
  class VersionStore {
    var records: seq<VersionRecord>
    var clock: nat

    ghost predicate Valid()
      reads this
    {
      Pairwise(records, Before) &&
      forall r :: r in records ==> r.id < clock && r.createdAt < clock && r.versionNumber >= 1
    }

    constructor ()
      ensures Valid() && records == [] && clock == 0
    {
      records := [];
      clock := 0;
    }

    /** `createVersion(documentId, content, userId, type = 'auto')`. */
    method CreateVersion(d: DocId, content: string, userId: UserId, snapshotType: SnapshotType := Auto)
      returns (v: VersionRecord)
      requires Valid()
      modifies this
      ensures Valid()
      ensures v == VersionRecord(old(clock), d, content, userId, NextVersionNumber(old(records), d),
                                 snapshotType, old(clock))
      ensures records == old(records) + [v] && clock == old(clock) + 1
    {
      var number := NextVersionNumber(records, d);
      v := VersionRecord(clock, d, content, userId, number, snapshotType, clock);
      SnocPairwise(records, v, Before);
      records := records + [v];
      clock := clock + 1;
    }

    /** `cleanupOldVersions(documentId, keepCount = 50)`. */
    method CleanupOldVersions(d: DocId, keepCount: nat := DefaultKeepCount)
      requires Valid()
      modifies this
      ensures Valid()
      ensures records == Trimmed(old(records), d, keepCount) && clock == old(clock)
    {
      var doomed := Doomed(records, d, keepCount);
      if |doomed| > 0 {
        FilterPairwise(records, IdNotIn(IdsOf(doomed)), Before);
        records := Filter(records, IdNotIn(IdsOf(doomed)));
      }
    }

    /** `DocumentVersion.deleteMany({ document: d })`. */
    method DeleteForDocument(d: DocId)
      requires Valid()
      modifies this
      ensures Valid()
      ensures records == WithoutDocument(old(records), d) && clock == old(clock)
    {
      FilterPairwise(records, NotBelongsTo(d), Before);
      records := Filter(records, NotBelongsTo(d));
    }

    /** `DocumentVersion.findById(id)`. */
    function FindById(id: nat): (r: Option<VersionRecord>)
      reads this
      ensures r.Some? ==> r.value in records && r.value.id == id
      ensures r.None? ==> forall x :: x in records ==> x.id != id
    {
      FindId(records, id)
    }

    /** `find({ document: d }).sort({ createdAt: -1 }).limit(limit)`. */
    function Newest(d: DocId, limit: nat): (r: seq<VersionRecord>)
      reads this
      requires Valid()
      ensures |r| == if limit < |OfDocument(records, d)| then limit else |OfDocument(records, d)|
      ensures forall x :: x in r ==> x in records && x.document == d
      ensures forall i, j :: 0 <= i < j < |r| ==> r[i].createdAt > r[j].createdAt
      ensures forall x :: x in records && x.document == d && x !in r ==>
                forall y :: y in r ==> x.createdAt < y.createdAt
    {
      NewestFirstMembers(records, d);
      NewestFirstDescending(records, d);
      NewestCutsOlder(records, d, limit);
      Take(NewestFirst(records, d), limit)
    }
  }

  /** `NewestFirst` lists exactly the records of `d`. */
  lemma NewestFirstMembers(records: seq<VersionRecord>, d: DocId)
    ensures forall x :: x in NewestFirst(records, d) <==> x in records && x.document == d
  {
    var ofd := OfDocument(records, d);
    var nf := NewestFirst(records, d);
    forall x ensures x in nf <==> x in records && x.document == d {
      if x in nf {
        var i :| 0 <= i < |nf| && nf[i] == x;
        assert ofd[|ofd| - 1 - i] == x;
      }
      if x in records && x.document == d {
        assert BelongsTo(d)(x);
        var i :| 0 <= i < |ofd| && ofd[i] == x;
        assert nf[|ofd| - 1 - i] == x;
      }
    }
  }

  /** In a store held in creation order, `NewestFirst` is strictly newest
      first. */
  lemma NewestFirstDescending(records: seq<VersionRecord>, d: DocId)
    requires Pairwise(records, Before)
    ensures forall i, j :: 0 <= i < j < |NewestFirst(records, d)| ==>
              NewestFirst(records, d)[i].createdAt > NewestFirst(records, d)[j].createdAt
  {
    var ofd := OfDocument(records, d);
    var nf := NewestFirst(records, d);
    FilterPairwise(records, BelongsTo(d), Before);
    forall i, j | 0 <= i < j < |nf| ensures nf[i].createdAt > nf[j].createdAt {
      assert Before(ofd[|ofd| - 1 - j], ofd[|ofd| - 1 - i]);
    }
  }

  /** Every record of `d` that a limit cuts off is older than every record
      it keeps. */
  lemma NewestCutsOlder(records: seq<VersionRecord>, d: DocId, limit: nat)
    requires Pairwise(records, Before)
    ensures forall x, y ::
              (x in records && x.document == d && x !in Take(NewestFirst(records, d), limit) &&
               y in Take(NewestFirst(records, d), limit)) ==> x.createdAt < y.createdAt
  {
    var nf := NewestFirst(records, d);
    var t := Take(nf, limit);
    NewestFirstMembers(records, d);
    NewestFirstDescending(records, d);
    forall x, y | x in records && x.document == d && x !in t && y in t
      ensures x.createdAt < y.createdAt
    {
      var j :| 0 <= j < |t| && t[j] == y;
      assert x in nf;
      var i :| 0 <= i < |nf| && nf[i] == x;
      assert nf[j] == y;
    }
  }

  /** Identifiers grow along a store held in creation order, so records
      with the same identifier are the same record. */
  lemma IdsUnique(records: seq<VersionRecord>, x: VersionRecord, y: VersionRecord)
    requires Pairwise(records, Before)
    requires x in records && y in records && x.id == y.id
    ensures x == y
  {
    var i :| 0 <= i < |records| && records[i] == x;
    var j :| 0 <= j < |records| && records[j] == y;
  }

  /** Within one document, version numbers grow with creation order, so no
      two records of a document share a number. */
  lemma NumbersIncrease(records: seq<VersionRecord>, d: DocId)
    requires Pairwise(records, Before)
    ensures forall i, j :: 0 <= i < j < |Numbers(records, d)| ==> Numbers(records, d)[i] < Numbers(records, d)[j]
  {
    var ofd := OfDocument(records, d);
    FilterPairwise(records, BelongsTo(d), Before);
    var ns := Numbers(records, d);
    forall i, j | 0 <= i < j < |ns| ensures ns[i] < ns[j] {
      assert ns[i] == NumberOf(ofd[i]) && ns[j] == NumberOf(ofd[j]);
      assert ofd[i] in ofd && ofd[j] in ofd;
      assert Before(ofd[i], ofd[j]);
    }
  }

  /** In such a store the next number is one more than that of the
      document's newest record. */
  lemma NextFollowsNewest(records: seq<VersionRecord>, d: DocId)
    requires Pairwise(records, Before)
    requires OfDocument(records, d) != []
    ensures NextVersionNumber(records, d) ==
            OfDocument(records, d)[|OfDocument(records, d)| - 1].versionNumber + 1
  {
    var ofd := OfDocument(records, d);
    var k := |ofd| - 1;
    var n := NextVersionNumber(records, d);
    FilterPairwise(records, BelongsTo(d), Before);
    assert ofd[k] in ofd;
    assert ofd[k].versionNumber < n;
    var r :| r in records && r.document == d && r.versionNumber + 1 == n;
    assert BelongsTo(d)(r);
    var i :| 0 <= i < |ofd| && ofd[i] == r;
    assert i == k;
  }

  /** The numbers 1, 2, ..., n. */
  function Range(n: nat): (r: seq<nat>)
    ensures |r| == n && forall i :: 0 <= i < n ==> r[i] == i + 1
  {
    seq(n, i requires 0 <= i < n => i + 1)
  }

  /** Appending a record of another document leaves `d`'s numbering as it
      was. */
  lemma OtherDocumentKeepsNumbers(records: seq<VersionRecord>, v: VersionRecord, d: DocId)
    requires v.document != d
    ensures Numbers(records + [v], d) == Numbers(records, d)
    ensures NextVersionNumber(records + [v], d) == NextVersionNumber(records, d)
  {
    FilterAppend(records, [v], BelongsTo(d));
    assert Filter([v], BelongsTo(d)) == [];
    assert OfDocument(records + [v], d) == OfDocument(records, d);
  }

  /** A record of `d` appended to the store extends `d`'s numbers by its
      own. */
  lemma NumbersAppend(records: seq<VersionRecord>, v: VersionRecord, d: DocId)
    requires v.document == d
    ensures Numbers(records + [v], d) == Numbers(records, d) + [v.versionNumber]
  {
    FilterAppend(records, [v], BelongsTo(d));
    assert Filter([v], BelongsTo(d)) == [v];
    assert OfDocument(records + [v], d) == OfDocument(records, d) + [v];
  }

  /** When `d`'s numbers are 1..n, the next one is n+1. */
  lemma NextAfterRange(records: seq<VersionRecord>, d: DocId, n: nat)
    requires Numbers(records, d) == Range(n)
    ensures NextVersionNumber(records, d) == n + 1
  {
    var ofd := OfDocument(records, d);
    var ns := Numbers(records, d);
    var next := NextVersionNumber(records, d);
    assert |ns| == |ofd|;
    if n > 0 {
      assert ofd[n - 1].versionNumber == ns[n - 1] == n;
      assert ofd[n - 1] in ofd;
      var r :| r in records && r.document == d && r.versionNumber + 1 == next;
      assert BelongsTo(d)(r);
      var i :| 0 <= i < |ofd| && ofd[i] == r;
      assert ns[i] == r.versionNumber;
    }
  }

  /** Snapshots created one after another without cleanup are numbered
      1, 2, 3, ...: if `d`'s numbers are 1..n, the next record created for
      `d` makes them 1..n+1. */
  lemma SequentialNumbering(records: seq<VersionRecord>, v: VersionRecord, d: DocId, n: nat)
    requires Numbers(records, d) == Range(n)
    requires v.document == d && v.versionNumber == NextVersionNumber(records, d)
    ensures v.versionNumber == n + 1
    ensures Numbers(records + [v], d) == Range(n + 1)
  {
    NextAfterRange(records, d, n);
    NumbersAppend(records, v, d);
    assert Range(n) + [n + 1] == Range(n + 1);
  }

  /** What cleanup selects is the oldest records of the document, all but
      the newest `keepCount`. */
  lemma DoomedAreOldest(records: seq<VersionRecord>, d: DocId, keepCount: nat)
    requires keepCount < |OfDocument(records, d)|
    ensures var ofd := OfDocument(records, d);
            IdsOf(Doomed(records, d, keepCount)) == IdsOf(ofd[..|ofd| - keepCount])
  {
    var ofd := OfDocument(records, d);
    var n := |ofd|;
    var cut := n - keepCount;
    var doomed := Doomed(records, d, keepCount);
    forall x | x in doomed ensures x in ofd[..cut] {
      var i :| 0 <= i < |doomed| && doomed[i] == x;
      assert x == ofd[n - 1 - (keepCount + i)];
      assert ofd[..cut][n - 1 - (keepCount + i)] == x;
    }
    forall x | x in ofd[..cut] ensures x in doomed {
      var i :| 0 <= i < cut && ofd[..cut][i] == x;
      assert doomed[n - 1 - i - keepCount] == x;
    }
  }

  /** Removing the identifiers of a prefix of records in creation order
      leaves exactly the rest. */
  lemma {:induction false} DropPrefixIds(xs: seq<VersionRecord>, cut: nat)
    requires Pairwise(xs, Before) && cut <= |xs|
    ensures Filter(xs, IdNotIn(IdsOf(xs[..cut]))) == xs[cut..]
  {
    var ids := IdsOf(xs[..cut]);
    assert xs == xs[..cut] + xs[cut..];
    FilterAppend(xs[..cut], xs[cut..], IdNotIn(ids));
    FilterDropsAll(xs[..cut], IdNotIn(ids));
    forall x | x in xs[cut..] ensures IdNotIn(ids)(x) {
      var j :| 0 <= j < |xs| - cut && xs[cut..][j] == x;
      forall i | 0 <= i < cut ensures xs[i].id != x.id {
        assert Before(xs[i], xs[cut + j]);
      }
    }
    FilterKeepsAll(xs[cut..], IdNotIn(ids));
  }

  /** Cleanup keeps exactly the newest `keepCount` snapshots of the
      document (all of them when there are no more). */
  lemma TrimKeepsNewest(records: seq<VersionRecord>, d: DocId, keepCount: nat)
    requires Pairwise(records, Before)
    ensures var ofd := OfDocument(records, d);
            var kept := if keepCount < |ofd| then keepCount else |ofd|;
            OfDocument(Trimmed(records, d, keepCount), d) == ofd[|ofd| - kept..]
  {
    var ofd := OfDocument(records, d);
    if keepCount < |ofd| {
      var cut := |ofd| - keepCount;
      var ids := IdsOf(Doomed(records, d, keepCount));
      DoomedAreOldest(records, d, keepCount);
      assert ids == IdsOf(ofd[..cut]);
      assert Trimmed(records, d, keepCount) == Filter(records, IdNotIn(ids));
      FilterCommutes(records, IdNotIn(ids), BelongsTo(d));
      FilterPairwise(records, BelongsTo(d), Before);
      DropPrefixIds(ofd, cut);
      assert OfDocument(Trimmed(records, d, keepCount), d) == Filter(ofd, IdNotIn(ids));
    }
  }

  /** Cleanup of one document deletes nothing of any other. */
  lemma TrimLeavesOthers(records: seq<VersionRecord>, d: DocId, keepCount: nat, e: DocId)
    requires Pairwise(records, Before)
    requires e != d
    ensures OfDocument(Trimmed(records, d, keepCount), e) == OfDocument(records, e)
  {
    var doomed := Doomed(records, d, keepCount);
    if |doomed| > 0 {
      var ids := IdsOf(doomed);
      NewestFirstMembers(records, d);
      FilterCommutes(records, IdNotIn(ids), BelongsTo(e));
      forall x | x in OfDocument(records, e) ensures IdNotIn(ids)(x) {
        if x.id in ids {
          var y :| y in doomed && y.id == x.id;
          assert y in NewestFirst(records, d);
          IdsUnique(records, x, y);
        }
      }
      FilterKeepsAll(OfDocument(records, e), IdNotIn(ids));
    }
  }

  /** Running cleanup again right away deletes nothing more. */
  lemma TrimIdempotent(records: seq<VersionRecord>, d: DocId, keepCount: nat)
    requires Pairwise(records, Before)
    ensures Trimmed(Trimmed(records, d, keepCount), d, keepCount) == Trimmed(records, d, keepCount)
  {
    TrimKeepsNewest(records, d, keepCount);
  }

  /** As long as cleanup keeps at least one snapshot, the numbering carries
      on where it was: the next snapshot gets the number it would have got
      without the cleanup. */
  lemma TrimKeepsNumbering(records: seq<VersionRecord>, d: DocId, keepCount: nat)
    requires Pairwise(records, Before)
    requires keepCount >= 1
    ensures NextVersionNumber(Trimmed(records, d, keepCount), d) == NextVersionNumber(records, d)
  {
    var ofd := OfDocument(records, d);
    if ofd != [] && keepCount < |ofd| {
      var t := Trimmed(records, d, keepCount);
      TrimKeepsNewest(records, d, keepCount);
      FilterPairwise(records, IdNotIn(IdsOf(Doomed(records, d, keepCount))), Before);
      NextFollowsNewest(records, d);
      NextFollowsNewest(t, d);
    }
  }

  /** Deleting a document's snapshots removes all of them, restarts its
      numbering at 1 and leaves every other document's snapshots alone. */
  lemma DeleteForDocumentEffect(records: seq<VersionRecord>, d: DocId, e: DocId)
    requires e != d
    ensures OfDocument(WithoutDocument(records, d), d) == []
    ensures NextVersionNumber(WithoutDocument(records, d), d) == 1
    ensures OfDocument(WithoutDocument(records, d), e) == OfDocument(records, e)
  {
    var rest := WithoutDocument(records, d);
    forall x | x in rest ensures !BelongsTo(d)(x) {
    }
    FilterDropsAll(rest, BelongsTo(d));
    FilterCommutes(records, NotBelongsTo(d), BelongsTo(e));
    FilterKeepsAll(OfDocument(records, e), NotBelongsTo(d));
  }
}
