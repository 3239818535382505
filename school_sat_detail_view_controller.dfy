/** SchoolSATDetailViewController.swift: one school and its SAT records. */
module SchoolSATDetailScreen {
  import opened Wrappers
  import opened Pagination
  import opened SchoolModel
  import opened SchoolSATDetailModel
  import SchoolsScreen

  /** `SchoolSection`, with its raw values as section titles. */
  datatype SchoolSection = SchoolInfo | Details {
    function RawValue(): string
    {
      match this
      case SchoolInfo => "School"
      case Details => "SAT Details"
    }
  }

  /** `SchoolSection.allCases`, in declaration order. */
  const SchoolSections: seq<SchoolSection> := [SchoolInfo, Details]

  datatype ElementKind = SectionHeader | SectionFooter

  datatype TextAlignment = Left | Center

  /** What `updateContent(labelAttributedString:textAlignment:)` puts in a supplementary view. */
  datatype HeaderContent = HeaderContent(title: string, alignment: TextAlignment)

  const DetailsUnavailableTitle: string := "SAT Details Not Available..."

  class SchoolSATDetailViewController {
    var school: Option<School>
    var delegate: SchoolsScreen.SchoolsViewController?
    var schoolSATDetails: seq<SchoolSATDetail>
    const pagination: ViewControllerSlots

    /** `init(school:delegate:)` */
    constructor (school: Option<School>, delegate: SchoolsScreen.SchoolsViewController?)
      ensures this.school == school && this.delegate == delegate && schoolSATDetails == []
      ensures fresh(pagination) && pagination.associated == map[]
    {
      this.school := school;
      this.delegate := delegate;
      schoolSATDetails := [];
      pagination := new ViewControllerSlots();
    }

    /** `viewDidLoad`: offset 0 and limit 10, then the first load. */
    method ViewDidLoad() returns (request: Option<School>)
      modifies pagination
      ensures request == school
      ensures pagination.IsLoadingData() && pagination.Offset() == 0 && pagination.Limit() == 10
    {
      pagination.SetOffset(0);
      pagination.SetLimit(10);
      request := LoadData();
    }

    /**
     * `loadData`: marks a load in flight, with no guard against one already
     * running, and requests the SAT records of `school`.
     */
    method LoadData() returns (request: Option<School>)
      modifies pagination
      ensures request == school
      ensures pagination.IsLoadingData()
      ensures pagination.Offset() == old(pagination.Offset()) && pagination.Limit() == old(pagination.Limit())
    {
      pagination.SetIsLoadingData(true);
      request := school;
    }

    /** The completion of `loadData`'s fetch. */
    method SATDetailsFetched(outcome: FetchOutcome<SchoolSATDetail>)
      modifies this`schoolSATDetails, pagination
      ensures !pagination.IsLoadingData() && pagination.Limit() == old(pagination.Limit())
      ensures outcome.Fetched? ==>
        schoolSATDetails == outcome.Page() && pagination.Offset() == |schoolSATDetails|
      ensures outcome.FetchFailed? ==>
        schoolSATDetails == old(schoolSATDetails) && pagination.Offset() == old(pagination.Offset())
    {
      if outcome.Fetched? {
        schoolSATDetails := outcome.items.GetOr([]);
        pagination.SetIsLoadingData(false);
        pagination.SetOffset(|schoolSATDetails|);
      } else {
        pagination.SetIsLoadingData(false);
      }
    }

    /** `numberOfSections`: one per `SchoolSection` case. */
    function NumberOfSections(): (r: int)
      ensures r == 2
    {
      |SchoolSections|
    }

    /** `numberOfItemsInSection`: the school section shows one cell, the details section one per record. */
    function NumberOfItemsInSection(section: int): (r: int)
      requires 0 <= section < |SchoolSections|
      reads this
      ensures SchoolSections[section] == SchoolInfo ==> r == 1
      ensures SchoolSections[section] == Details ==> r == |schoolSATDetails|
    {
      match SchoolSections[section]
      case SchoolInfo => 1
      case Details => |schoolSATDetails|
    }

    /** `referenceSizeForFooterInSection` is non-zero: only under the last section, and only with records. */
    predicate HasFooter(section: int)
      reads this
      ensures HasFooter(section) <==>
        0 <= section < |SchoolSections| && SchoolSections[section] == Details && schoolSATDetails != []
    {
      section == LastSection(NumberOfSections()) && schoolSATDetails != []
    }

    /** `viewForSupplementaryElementOfKind`: the header text and alignment; footers get no content. */
    function SupplementaryContent(kind: ElementKind, section: int): (r: Option<HeaderContent>)
      requires 0 <= section < |SchoolSections|
      reads this
      ensures kind == SectionFooter ==> r.None?
      ensures kind == SectionHeader && SchoolSections[section] == SchoolInfo ==>
        r == Some(HeaderContent("School", Left))
      ensures kind == SectionHeader && SchoolSections[section] == Details ==>
        r == Some(if schoolSATDetails == []
                  then HeaderContent("SAT Details Not Available...", Center)
                  else HeaderContent("SAT Details", Left))
    {
      var title := SchoolSections[section].RawValue();
      if kind == SectionHeader && SchoolSections[section] == SchoolInfo then
        Some(HeaderContent(title, Left))
      else if kind == SectionHeader && SchoolSections[section] == Details then
        var isDetailsNonExistant := schoolSATDetails == [];
        Some(HeaderContent(if isDetailsNonExistant then DetailsUnavailableTitle else title,
                           if isDetailsNonExistant then Center else Left))
      else
        None
    }

    /**
     * `schoolCellFavoritedSchool`: forwards the school, unchanged, to this
     * screen's delegate, the list screen, which patches it into its list.
     */
    method SchoolCellFavoritedSchool(school: Option<School>, visibleItems: set<int>)
      modifies if delegate == null then {} else {delegate}
      ensures delegate != null ==>
        delegate.schools == SchoolsScreen.Patched(old(delegate.schools), school, visibleItems)
    {
      if delegate != null {
        var _ := delegate.SchoolSATDetailViewControllerFavoriteChanged(school, visibleItems);
      }
    }
  }
}
