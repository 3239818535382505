/**
 * FavoriteCache.swift: the set of favorited school ids, kept as a list of
 * strings in the one UserDefaults slot named "favorited-school-ids".
 */
module FavoriteCache {
  import opened Wrappers

  /** The UserDefaults key of the slot. */
  const CacheKey: string := "favorited-school-ids"

  /**
   * What the slot holds: nothing, a list of strings, or a value of some
   * other type (which the `as? [String]` cast rejects).
   */
  datatype Slot = Unset | Ids(ids: seq<string>) | Foreign

  /** The slot read through `as? [String]`. */
  function StoredIds(slot: Slot): (r: Option<seq<string>>)
    ensures r.Some? <==> slot.Ids?
  {
    if slot.Ids? then Some(slot.ids) else None
  }

  /** `isFavorited(schoolId:)`: a nil id is never a favorite, whatever the slot holds. */
  predicate IsFavorited(slot: Slot, schoolId: Option<string>)
    // `contains(where: { $0 == id })`: some stored entry equals the id
    ensures IsFavorited(slot, schoolId) <==>
      schoolId.Some? && slot.Ids? && exists i :: 0 <= i < |slot.ids| && slot.ids[i] == schoolId.value
  {
    match schoolId
    case None => false
    case Some(id) => StoredIds(slot).Some? && id in StoredIds(slot).value
  }

  predicate NoDuplicates(ids: seq<string>)
  {
    forall i, j :: 0 <= i < j < |ids| ==> ids[i] != ids[j]
  }

  /** Every list the slot holds is free of duplicates (unset and foreign slots trivially). */
  predicate SlotHasNoDuplicates(slot: Slot)
  {
    slot.Ids? ==> NoDuplicates(slot.ids)
  }

  /** `ids.filter({$0 != id})` */
  function Without(ids: seq<string>, id: string): (r: seq<string>)
    ensures forall x :: x in r <==> x in ids && x != id
    ensures |r| <= |ids|
    ensures id !in ids ==> r == ids
    ensures NoDuplicates(ids) ==> NoDuplicates(r)
  {
    if ids == [] then []
    else if ids[0] == id then Without(ids[1..], id)
    else
      var rest := Without(ids[1..], id);
      assert forall k :: 0 <= k < |ids[1..]| ==> ids[1..][k] == ids[k + 1];
      assert NoDuplicates(ids) ==> NoDuplicates(ids[1..]) && ids[0] !in rest;
      assert forall k :: 0 < k < |[ids[0]] + rest| ==> ([ids[0]] + rest)[k] == rest[k - 1];
      [ids[0]] + rest
  }

  /** The filter keeps the order of what it keeps: it distributes over concatenation. */
  lemma {:induction false} WithoutAppend(a: seq<string>, b: seq<string>, id: string)
    ensures Without(a + b, id) == Without(a, id) + Without(b, id)
  {
    if a == [] {
      assert a + b == b;
    } else {
      assert (a + b)[1..] == a[1..] + b;
      WithoutAppend(a[1..], b, id);
    }
  }

  /** The new slot and the `(success, isFavorited)` pair `update` hands its completion. */
  datatype UpdateReport = UpdateReport(slot: Slot, success: bool, isFavorited: bool)

  /** `update(schoolId:completion:)` as a function of the slot before the call. */
  function Toggle(slot: Slot, schoolId: Option<string>): (r: UpdateReport)
    // a nil id: reports (false, false) and leaves the slot alone
    ensures schoolId.None? ==> r == UpdateReport(slot, false, false)
    // any id: succeeds, flips its membership and reports the new membership
    ensures schoolId.Some? ==> r.success
    ensures schoolId.Some? ==> r.isFavorited == IsFavorited(r.slot, schoolId)
    ensures schoolId.Some? ==> r.isFavorited == !IsFavorited(slot, schoolId)
    ensures schoolId.Some? ==> r.slot.Ids?
    // no other id changes membership
    ensures forall other :: Some(other) != schoolId ==>
      IsFavorited(r.slot, Some(other)) == IsFavorited(slot, Some(other))
  {
    match schoolId
    case None => UpdateReport(slot, false, false)
    case Some(id) =>
      match StoredIds(slot)
      case Some(ids) =>
        if id in ids then UpdateReport(Ids(Without(ids, id)), true, false)
        else UpdateReport(Ids(ids + [id]), true, true)
      case None => UpdateReport(Ids([id]), true, true)
  }

  /** With an unset (or unreadable) slot, `update` writes exactly `[id]` and reports (true, true). */
  lemma ToggleUnset(slot: Slot, id: string)
    requires StoredIds(slot).None?
    ensures Toggle(slot, Some(id)) == UpdateReport(Ids([id]), true, true)
  {
  }

  /** An id already present is removed everywhere; the others stay in order. */
  lemma {:induction false} TogglePresent(ids: seq<string>, id: string)
    requires id in ids
    ensures Toggle(Ids(ids), Some(id)) == UpdateReport(Ids(Without(ids, id)), true, false)
    ensures id !in Toggle(Ids(ids), Some(id)).slot.ids
  {
  }

  /** An id missing from an existing list is appended at its end. */
  lemma ToggleAbsent(ids: seq<string>, id: string)
    requires id !in ids
    ensures Toggle(Ids(ids), Some(id)) == UpdateReport(Ids(ids + [id]), true, true)
  {
  }

  /** Two updates of an id missing from an existing list restore that list exactly. */
  lemma {:induction false} ToggleTwiceRestores(ids: seq<string>, id: string)
    requires id !in ids
    ensures Toggle(Toggle(Ids(ids), Some(id)).slot, Some(id)) == UpdateReport(Ids(ids), true, false)
  {
    WithoutAppend(ids, [id], id);
    assert Without([id], id) == [];
    assert ids + [] == ids;
  }

  /** From an unset slot two updates leave the empty list, not an unset slot. */
  lemma ToggleTwiceFromUnset(id: string)
    ensures Toggle(Toggle(Unset, Some(id)).slot, Some(id)).slot == Ids([])
  {
    assert Without([id], id) == [];
  }

  /** Two updates of an id that is present move it to the end, dropping its duplicates. */
  lemma ToggleTwiceMovesToEnd(ids: seq<string>, id: string)
    requires id in ids
    ensures Toggle(Toggle(Ids(ids), Some(id)).slot, Some(id)).slot == Ids(Without(ids, id) + [id])
  {
  }

  /** Lists written only by `update` never contain duplicates. */
  lemma ToggleKeepsNoDuplicates(slot: Slot, schoolId: Option<string>)
    requires SlotHasNoDuplicates(slot)
    ensures SlotHasNoDuplicates(Toggle(slot, schoolId).slot)
  {
    if schoolId.Some? && slot.Ids? && schoolId.value !in slot.ids {
      var ids := slot.ids + [schoolId.value];
      assert forall i :: 0 <= i < |slot.ids| ==> ids[i] == slot.ids[i];
    }
  }

  /**
   * UserDefaults.standard, restricted to the key this class uses. Both
   * operations are conceptually static in the source: one store per process.
   */
  class FavoriteStore {
    var slot: Slot

    constructor (initial: Slot)
      ensures slot == initial
    {
      slot := initial;
    }

    /** `update(schoolId:completion:)`; the completion's two arguments are the results. */
    method Update(schoolId: Option<string>) returns (success: bool, isFavorited: bool)
      modifies this
      ensures UpdateReport(slot, success, isFavorited) == Toggle(old(slot), schoolId)
      ensures schoolId.None? ==> slot == old(slot)
    {
      match schoolId {
        case None =>
          success, isFavorited := false, false;
        case Some(id) =>
          match StoredIds(slot) {
            case Some(stored) =>
              var ids := stored;
              if id in ids {
                ids := Without(ids, id);
                slot := Ids(ids);
                success, isFavorited := true, false;
              } else {
                ids := ids + [id];
                slot := Ids(ids);
                success, isFavorited := true, true;
              }
            case None =>
              slot := Ids([id]);
              success, isFavorited := true, true;
          }
      }
    }
  }
}
