/** The notification list of `src/context/ToastContext.jsx`. The list is
    replaced, never mutated, by the two updaters, so each is a function from
    the previous list to the next one. `Date.now()` is a parameter. */
module Toasts {
  import opened Seqs

  datatype ToastType = Success | Error | Warning | Info

  datatype Toast = Toast(id: nat, message: string, kind: ToastType)

  /** `addToast(message, type = 'info')`: one toast, stamped with the
      current millisecond, goes at the end. */
  function AddToast(prev: seq<Toast>, now: nat, message: string, kind: ToastType := Info): (r: seq<Toast>)
    ensures |r| == |prev| + 1
    ensures r[..|prev|] == prev
    ensures r[|prev|] == Toast(now, message, kind)
  {
    prev + [Toast(now, message, kind)]
  }

  function OtherId(id: nat): Toast -> bool {
    (t: Toast) => t.id != id
  }

  /** `removeToast(id)`: every toast with that id goes, the others keep
      their order. */
  function RemoveToast(prev: seq<Toast>, id: nat): (r: seq<Toast>)
    ensures forall t :: t in r <==> t in prev && t.id != id
    ensures |r| <= |prev|
  {
    Filter(prev, OtherId(id))
  }

  /** The four helpers of the context value. */
  function ShowSuccess(prev: seq<Toast>, now: nat, message: string): (r: seq<Toast>)
    ensures r == prev + [Toast(now, message, Success)]
  {
    AddToast(prev, now, message, Success)
  }

  function ShowError(prev: seq<Toast>, now: nat, message: string): (r: seq<Toast>)
    ensures r == prev + [Toast(now, message, Error)]
  {
    AddToast(prev, now, message, Error)
  }

  function ShowWarning(prev: seq<Toast>, now: nat, message: string): (r: seq<Toast>)
    ensures r == prev + [Toast(now, message, Warning)]
  {
    AddToast(prev, now, message, Warning)
  }

  function ShowInfo(prev: seq<Toast>, now: nat, message: string): (r: seq<Toast>)
    ensures r == prev + [Toast(now, message, Info)]
  {
    AddToast(prev, now, message)
  }

  /** Removing an id nobody has changes nothing. */
  lemma RemoveAbsent(prev: seq<Toast>, id: nat)
    requires forall t :: t in prev ==> t.id != id
    ensures RemoveToast(prev, id) == prev
  {
    FilterKeepsAll(prev, OtherId(id));
  }

  /** Removing twice is removing once. */
  lemma RemoveTwice(prev: seq<Toast>, id: nat)
    ensures RemoveToast(RemoveToast(prev, id), id) == RemoveToast(prev, id)
  {
    FilterIdempotent(prev, OtherId(id));
  }

  /** Closing a toast undoes its addition when its millisecond was not
      used before. */
  lemma RemoveUndoesAdd(prev: seq<Toast>, now: nat, message: string, kind: ToastType)
    requires forall t :: t in prev ==> t.id != now
    ensures RemoveToast(AddToast(prev, now, message, kind), now) == prev
  {
    var added := Toast(now, message, kind);
    FilterAppend(prev, [added], OtherId(now));
    RemoveAbsent(prev, now);
    assert Filter([added], OtherId(now)) == [];
  }

  /** Removing one toast leaves the toasts of other ids in place: adding
      and removing commute across different ids. */
  lemma RemoveOtherKeepsAdded(prev: seq<Toast>, now: nat, message: string, kind: ToastType, id: nat)
    requires id != now
    ensures RemoveToast(AddToast(prev, now, message, kind), id) == AddToast(RemoveToast(prev, id), now, message, kind)
  {
    var added := Toast(now, message, kind);
    FilterAppend(prev, [added], OtherId(id));
    assert Filter([added], OtherId(id)) == [added];
  }

  /** Two toasts added in the same millisecond share their id, and closing
      either one removes both. */
  lemma SameMillisecondRemovesBoth(prev: seq<Toast>, now: nat, m1: string, k1: ToastType, m2: string, k2: ToastType)
    ensures var both := AddToast(AddToast(prev, now, m1, k1), now, m2, k2);
      both[|prev|].id == both[|prev| + 1].id
    ensures RemoveToast(AddToast(AddToast(prev, now, m1, k1), now, m2, k2), now) == RemoveToast(prev, now)
  {
    var t1 := Toast(now, m1, k1);
    var t2 := Toast(now, m2, k2);
    assert AddToast(AddToast(prev, now, m1, k1), now, m2, k2) == prev + [t1, t2];
    FilterAppend(prev, [t1, t2], OtherId(now));
    assert Filter([t1, t2], OtherId(now)) == [];
  }
}
