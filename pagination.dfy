/**
 * iOS+Extension.swift: the pagination values every UIViewController carries
 * as associated objects, and `UICollectionView.lastSection`.
 */
module Pagination {
  import opened Wrappers

  /** A value stored as an associated object. */
  datatype AssociatedValue = BoolValue(b: bool) | IntValue(i: int)

  // The association keys (the `Pagination` struct): three distinct slots.
  const IsLoadingDataKey: string := "isLoadingData"
  const LimitKey: string := "limit"
  const OffsetKey: string := "skip"

  // What the getters return for a slot that was never set.
  const DefaultIsLoadingData: bool := false
  const DefaultLimit: int := 50
  const DefaultOffset: int := 0

  /** A page request `fetchSchools(offset:limit:)` is called with. */
  datatype PageRequest = PageRequest(offset: int, limit: int)

  /** What a fetch completion receives: `(items, nil)` or an error. */
  datatype FetchOutcome<T> = Fetched(items: Option<seq<T>>) | FetchFailed {
    /** The items a successful completion carries, `items ?? []`. */
    function Page(): seq<T>
    {
      if Fetched? then items.GetOr([]) else []
    }
  }

  /** `IndexPath(item:section:)` */
  datatype IndexPath = IndexPath(item: int, section: int)

  /** `UICollectionView.lastSection`: the index of the last section. */
  function LastSection(numberOfSections: int): (r: int)
    ensures r < numberOfSections
    ensures numberOfSections > 0 ==> 0 <= r && r + 1 == numberOfSections
    // an empty collection view has no last section: the index is -1
    ensures numberOfSections == 0 ==> r == -1
  {
    numberOfSections - 1
  }

  /** The associated objects of one view controller. */
  class ViewControllerSlots {
    var associated: map<string, AssociatedValue>

    /** A view controller starts with no associated objects. */
    constructor ()
      ensures associated == map[]
      ensures !IsLoadingData() && Limit() == 50 && Offset() == 0
    {
      associated := map[];
    }

    /** `isLoadingData`: the stored Bool, or false. */
    predicate IsLoadingData()
      reads this
      ensures IsLoadingDataKey !in associated ==> !IsLoadingData()
    {
      if IsLoadingDataKey in associated && associated[IsLoadingDataKey].BoolValue?
      then associated[IsLoadingDataKey].b
      else DefaultIsLoadingData
    }

    /** `limit`: the stored Int, or 50. */
    function Limit(): (r: int)
      reads this
      ensures LimitKey !in associated ==> r == 50
    {
      if LimitKey in associated && associated[LimitKey].IntValue?
      then associated[LimitKey].i
      else DefaultLimit
    }

    /** `offset`: the stored Int, or 0. */
    function Offset(): (r: int)
      reads this
      ensures OffsetKey !in associated ==> r == 0
    {
      if OffsetKey in associated && associated[OffsetKey].IntValue?
      then associated[OffsetKey].i
      else DefaultOffset
    }

    method SetIsLoadingData(value: bool)
      modifies this
      ensures associated == old(associated)[IsLoadingDataKey := BoolValue(value)]
      ensures IsLoadingData() == value
      ensures Limit() == old(Limit()) && Offset() == old(Offset())
    {
      associated := associated[IsLoadingDataKey := BoolValue(value)];
    }

    method SetLimit(value: int)
      modifies this
      ensures associated == old(associated)[LimitKey := IntValue(value)]
      ensures Limit() == value
      ensures IsLoadingData() == old(IsLoadingData()) && Offset() == old(Offset())
    {
      associated := associated[LimitKey := IntValue(value)];
    }

    method SetOffset(value: int)
      modifies this
      ensures associated == old(associated)[OffsetKey := IntValue(value)]
      ensures Offset() == value
      ensures IsLoadingData() == old(IsLoadingData()) && Limit() == old(Limit())
    {
      associated := associated[OffsetKey := IntValue(value)];
    }
  }
}
