/**
 * SchoolsViewController.swift and SchoolsViewController+Delegate.swift: the
 * paginated list of schools.
 *
 * Every fetch is split in two steps: the method that issues the request
 * (returning the request it issues) and the completion handler, which takes
 * the fetch outcome as a parameter and runs as one step.
 */
module SchoolsScreen {
  import opened Wrappers
  import opened Pagination
  import opened SchoolModel

  /** The list has no `numberOfSections` override, so it has one section. */
  const NumberOfSections: int := 1

  /** `firstIndex(where: {$0.id == id})`: Optional equality, so a nil id matches a nil id. */
  function FirstIndexWithId(schools: seq<School>, id: Option<string>): (r: Option<nat>)
    ensures r.Some? ==> r.value < |schools| && schools[r.value].id == id
    ensures r.Some? ==> forall k :: 0 <= k < r.value ==> schools[k].id != id
    ensures r.None? ==> forall k :: 0 <= k < |schools| ==> schools[k].id != id
  {
    if schools == [] then None
    else if schools[0].id == id then Some(0)
    else match FirstIndexWithId(schools[1..], id)
      case None => None
      case Some(i) => Some(i + 1)
  }

  /**
   * The list after `schoolSATDetailViewControllerFavoriteChanged`: the school
   * replaces the first one with its id, provided that row's cell is visible.
   */
  function Patched(schools: seq<School>, school: Option<School>, visibleItems: set<int>): (r: seq<School>)
    ensures |r| == |schools|
    ensures school.None? ==> r == schools
    ensures forall k :: 0 <= k < |schools| && r[k] != schools[k] ==>
      school.Some? && FirstIndexWithId(schools, school.value.id) == Some(k) && k in visibleItems && r[k] == school.value
  {
    match school
    case None => schools
    case Some(s) =>
      match FirstIndexWithId(schools, s.id)
      case Some(i) => if i in visibleItems then schools[i := s] else schools
      case None => schools
  }

  /** When the first school with that id has a visible cell, exactly that element is replaced. */
  lemma PatchReplacesFirstMatch(schools: seq<School>, school: School, visibleItems: set<int>, i: nat)
    requires i < |schools| && schools[i].id == school.id && i in visibleItems
    requires forall k :: 0 <= k < i ==> schools[k].id != school.id
    ensures Patched(schools, Some(school), visibleItems) == schools[i := school]
  {
  }

  /** No school with that id, or a cell out of view: the list is unchanged. */
  lemma PatchWithoutVisibleMatch(schools: seq<School>, school: School, visibleItems: set<int>)
    requires forall k :: 0 <= k < |schools| && schools[k].id == school.id ==> k !in visibleItems
    ensures Patched(schools, Some(school), visibleItems) == schools
  {
  }

  /**
   * Id matching is Optional equality: a school whose id is nil replaces the
   * first school whose id is nil.
   */
  lemma PatchMatchesNilIds(schools: seq<School>, school: School, visibleItems: set<int>, i: nat)
    requires school.id.None?
    requires i < |schools| && schools[i].id.None? && i in visibleItems
    requires forall k :: 0 <= k < i ==> schools[k].id.Some?
    ensures Patched(schools, Some(school), visibleItems)[i] == school
  {
    PatchReplacesFirstMatch(schools, school, visibleItems, i);
  }

  /**
   * Patching in a school taken from the list itself changes nothing when no
   * earlier school shares its id: the record carries no favorite state.
   */
  lemma PatchWithListedSchool(schools: seq<School>, j: nat, visibleItems: set<int>)
    requires j < |schools|
    requires forall k :: 0 <= k < j ==> schools[k].id != schools[j].id
    ensures Patched(schools, Some(schools[j]), visibleItems) == schools
  {
    if j in visibleItems {
      PatchReplacesFirstMatch(schools, schools[j], visibleItems, j);
    }
  }

  /**
   * The list is not deduplicated: when an earlier school shares the id of
   * `schools[j]`, patching in `schools[j]` overwrites the first such school.
   */
  lemma PatchWithDuplicateIdOverwritesFirst(schools: seq<School>, j: nat, visibleItems: set<int>, i: nat)
    requires i < j < |schools| && schools[i].id == schools[j].id && i in visibleItems
    requires forall k :: 0 <= k < i ==> schools[k].id != schools[j].id
    ensures Patched(schools, Some(schools[j]), visibleItems) == schools[i := schools[j]]
  {
    PatchReplacesFirstMatch(schools, schools[j], visibleItems, i);
  }

  /** The index paths a load-more inserts: the new items' positions, after the old ones. */
  function InsertedIndexPaths(oldCount: int, count: nat): (r: seq<IndexPath>)
    ensures |r| == count
    ensures forall k :: 0 <= k < count ==> r[k] == IndexPath(oldCount + k, 0)
  {
    seq(count, k => IndexPath(oldCount + k, LastSection(NumberOfSections)))
  }

  class SchoolsViewController {
    var schools: seq<School>
    const pagination: ViewControllerSlots

    constructor ()
      ensures schools == [] && fresh(pagination) && pagination.associated == map[]
    {
      schools := [];
      pagination := new ViewControllerSlots();
    }

    /** `viewDidLoad`: offset 0 and page size 20, then the first load. */
    method ViewDidLoad() returns (request: PageRequest)
      modifies pagination
      ensures request == PageRequest(0, 20)
      ensures pagination.IsLoadingData() && pagination.Offset() == 0 && pagination.Limit() == 20
    {
      pagination.SetOffset(0);
      pagination.SetLimit(20);
      request := LoadInitialData();
    }

    /** `loadInitialData`: marks a load in flight, resets the offset and requests the first page. */
    method LoadInitialData() returns (request: PageRequest)
      modifies pagination
      ensures request == PageRequest(0, old(pagination.Limit()))
      ensures pagination.IsLoadingData() && pagination.Offset() == 0
      ensures pagination.Limit() == old(pagination.Limit())
    {
      pagination.SetIsLoadingData(true);
      pagination.SetOffset(0);
      request := PageRequest(pagination.Offset(), pagination.Limit());
    }

    /**
     * The completion of `loadInitialData`'s fetch. Success replaces the list
     * and sets the offset to its length; failure keeps the list and the
     * (reset) offset.
     */
    method InitialSchoolsFetched(outcome: FetchOutcome<School>)
      modifies this, pagination
      ensures !pagination.IsLoadingData() && pagination.Limit() == old(pagination.Limit())
      ensures outcome.Fetched? ==> schools == outcome.Page() && pagination.Offset() == |schools|
      ensures outcome.FetchFailed? ==> schools == old(schools) && pagination.Offset() == old(pagination.Offset())
    {
      if outcome.Fetched? {
        pagination.SetIsLoadingData(false);
        schools := outcome.items.GetOr([]);
        pagination.SetOffset(|schools|);
      } else {
        pagination.SetIsLoadingData(false);
      }
    }

    /**
     * `loadMoreDataIfNecessary`: requests the next page when the scroll reached
     * the end, no load is in flight and the footer view exists. It changes no
     * state at all: in particular it never sets `isLoadingData`.
     */
    method LoadMoreDataIfNecessary(atEndOfScroll: bool, footerPresent: bool) returns (request: Option<PageRequest>)
      ensures request.Some? <==> atEndOfScroll && !pagination.IsLoadingData() && footerPresent
      ensures request.Some? ==> request.value == PageRequest(pagination.Offset(), pagination.Limit())
    {
      if !(atEndOfScroll && !pagination.IsLoadingData()) {
        return None;
      }
      if !footerPresent {
        return None;
      }
      request := Some(PageRequest(pagination.Offset(), pagination.Limit()));
    }

    /**
     * The completion of a load-more fetch. A non-empty page appended to a
     * non-empty list advances the offset by its length and inserts exactly
     * the new positions; everything else leaves list and offset alone.
     */
    method MoreSchoolsFetched(outcome: FetchOutcome<School>) returns (inserted: seq<IndexPath>)
      modifies this, pagination
      ensures !pagination.IsLoadingData() && pagination.Limit() == old(pagination.Limit())
      ensures if outcome.Fetched? && old(schools) != [] && outcome.Page() != []
        then schools == old(schools) + outcome.Page()
          && pagination.Offset() == old(pagination.Offset()) + |outcome.Page()|
          && inserted == InsertedIndexPaths(|old(schools)|, |outcome.Page()|)
        else schools == old(schools) && pagination.Offset() == old(pagination.Offset()) && inserted == []
      ensures old(pagination.Offset()) == |old(schools)| ==> pagination.Offset() == |schools|
    {
      if outcome.Fetched? {
        pagination.SetIsLoadingData(false);
        if schools == [] || outcome.items.None? || outcome.items.value == [] {
          return [];
        }
        var objects := outcome.items.value;
        inserted := InsertedIndexPaths(|schools|, |objects|);
        schools := schools + objects;
        pagination.SetOffset(pagination.Offset() + |objects|);
      } else {
        pagination.SetIsLoadingData(false);
        inserted := [];
      }
    }

    /** `emptyDataSetShouldBeForced`: the empty state shows exactly when there are no schools. */
    predicate EmptyDataSetShouldBeForced()
      reads this
      ensures EmptyDataSetShouldBeForced() <==> |schools| == 0
    {
      schools == []
    }

    /** `numberOfItemsInSection`: one cell per loaded school. */
    function NumberOfItemsInSection(section: int): (r: int)
      reads this
      ensures r == |schools|
    {
      |schools|
    }

    /** `didSelectItemAt`: the school whose detail screen is presented, if the index is in range. */
    method DidSelectItemAt(item: int) returns (presented: Option<School>)
      ensures presented.Some? <==> 0 <= item < |schools|
      ensures presented.Some? ==> presented.value == schools[item]
    {
      if !(0 <= item < |schools|) {
        return None;
      }
      presented := Some(schools[item]);
    }

    /** The empty state's "Try Again" button reloads from the start. */
    method EmptyDataSetDidTapButton() returns (request: PageRequest)
      modifies pagination
      ensures request == PageRequest(0, old(pagination.Limit()))
      ensures pagination.IsLoadingData() && pagination.Offset() == 0
      ensures pagination.Limit() == old(pagination.Limit())
    {
      request := LoadInitialData();
    }

    /** Every scroll event tries to load more. */
    method ScrollViewDidScroll(atEndOfScroll: bool, footerPresent: bool) returns (request: Option<PageRequest>)
      ensures request.Some? <==> atEndOfScroll && !pagination.IsLoadingData() && footerPresent
      ensures request.Some? ==> request.value == PageRequest(pagination.Offset(), pagination.Limit())
    {
      request := LoadMoreDataIfNecessary(atEndOfScroll, footerPresent);
    }

    /**
     * `schoolSATDetailViewControllerFavoriteChanged`: patches the changed school
     * into the list and names the row it reloads.
     */
    method SchoolSATDetailViewControllerFavoriteChanged(school: Option<School>, visibleItems: set<int>)
      returns (reloaded: Option<nat>)
      modifies this
      ensures schools == Patched(old(schools), school, visibleItems)
      ensures reloaded.Some? ==> school.Some? && reloaded.value < |schools| && schools[reloaded.value] == school.value
      ensures reloaded.None? ==> schools == old(schools)
      // the row reloaded is the first one holding a school with that id
      ensures reloaded.Some? ==> reloaded == FirstIndexWithId(old(schools), school.value.id)
      // a row is reloaded exactly when the first school with that id is on screen
      ensures reloaded.Some? <==>
        school.Some? && FirstIndexWithId(old(schools), school.value.id).Some? &&
        FirstIndexWithId(old(schools), school.value.id).value in visibleItems
    {
      reloaded := None;
      if school.Some? {
        var i := FirstIndexWithId(schools, school.value.id);
        if i.Some? && i.value in visibleItems {
          schools := schools[i.value := school.value];
          reloaded := i;
        }
      }
    }
  }

  /**
   * A pull-to-refresh that fails after a successful first load leaves the
   * old list on screen with the offset reset to 0.
   */
  method FailedRefreshKeepsStaleOffset(page: seq<School>) returns (offset: int, count: int)
    requires page != []
    ensures offset == 0 && count == |page|
    ensures offset != count
  {
    var vc := new SchoolsViewController();
    var _ := vc.ViewDidLoad();
    vc.InitialSchoolsFetched(Fetched(Some(page)));
    var _ := vc.LoadInitialData();
    vc.InitialSchoolsFetched(FetchFailed);
    offset, count := vc.pagination.Offset(), |vc.schools|;
  }

  /**
   * Because a load-more never marks itself in flight, a second scroll event
   * before its completion requests the very same page again.
   */
  method LoadMoreRequestsOverlap(page: seq<School>) returns (first: Option<PageRequest>, second: Option<PageRequest>)
    ensures first == Some(PageRequest(|page|, 20))
    ensures second == first
  {
    var vc := new SchoolsViewController();
    var _ := vc.ViewDidLoad();
    vc.InitialSchoolsFetched(Fetched(Some(page)));
    first := vc.ScrollViewDidScroll(true, true);
    second := vc.ScrollViewDidScroll(true, true);
  }

  /**
   * A first page of ten, then an empty page: ten schools, offset 10, and the
   * second request asked for offset 10.
   */
  method EndOfData(page: seq<School>) returns (count: int, offset: int, next: Option<PageRequest>)
    requires |page| == 10
    ensures count == 10 && offset == 10
    ensures next == Some(PageRequest(10, 20))
  {
    var vc := new SchoolsViewController();
    var _ := vc.ViewDidLoad();
    vc.InitialSchoolsFetched(Fetched(Some(page)));
    next := vc.ScrollViewDidScroll(true, true);
    var inserted := vc.MoreSchoolsFetched(Fetched(Some([])));
    count, offset := |vc.schools|, vc.pagination.Offset();
  }
}
