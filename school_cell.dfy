/**
 * SchoolCell.swift: the list cell showing one school, its favorite button,
 * and the toggle it triggers.
 */
module SchoolCellView {
  import opened Wrappers
  import opened DisplayText
  import opened SchoolModel
  import FavoriteCache
  import Color
  import SchoolsScreen
  import SchoolSATDetailScreen

  /** The favorite button's look: its system image name and its tint. */
  datatype ButtonStyle = ButtonStyle(iconName: string, tint: Color.Hex)

  /** The look of the button for a school that is, or is not, a favorite. */
  function FavoriteButton(isFavorited: bool): (r: ButtonStyle)
    ensures r.iconName == "heart.fill" <==> isFavorited
    ensures r.tint == Color.Infrared <==> isFavorited
    ensures !isFavorited ==> r == ButtonStyle("heart", Color.Black)
  {
    if isFavorited then ButtonStyle("heart.fill", Color.Infrared) else ButtonStyle("heart", Color.Black)
  }

  /** The button's look never confuses the two states. */
  lemma FavoriteButtonIsInjective(a: bool, b: bool)
    ensures FavoriteButton(a) == FavoriteButton(b) <==> a == b
  {
  }

  /** How the label wraps: its line limit (0 means unlimited), tail truncation, and the truncation token. */
  datatype LabelLayout = LabelLayout(numberOfLines: nat, truncatesTail: bool, truncationToken: Option<string>)

  function Layout(shouldTruncateText: bool): (r: LabelLayout)
    ensures shouldTruncateText ==> r.numberOfLines == 6 && r.truncatesTail && r.truncationToken == Some("...more")
    ensures !shouldTruncateText ==> r.numberOfLines == 0 && !r.truncatesTail && r.truncationToken.None?
  {
    if shouldTruncateText then LabelLayout(6, true, Some("...more")) else LabelLayout(0, false, None)
  }

  /** `school?.id`: absent when the school is. */
  function SchoolId(school: Option<School>): (r: Option<string>)
    ensures r.Some? <==> school.Some? && school.value.id.Some?
    ensures r.Some? ==> r.value == school.value.id.value
  {
    match school
    case None => None
    case Some(s) => s.id
  }

  /** `school?.isFavorite == true` */
  predicate IsFavoriteOrFalse(school: Option<School>, slot: FavoriteCache.Slot)
    ensures IsFavoriteOrFalse(school, slot) <==>
      school.Some? && school.value.id.Some? && slot.Ids? && school.value.id.value in slot.ids
  {
    school.Some? && IsFavorite(school.value, slot)
  }

  /** The label's fields in display order: name, then nta, website, phone number and overview, each on a new line. */
  function SchoolSegments(s: School): (r: seq<Segment>)
    ensures |r| == 5
  {
    [Segment("", s.name, ""), Segment("\n", s.nta, ""), Segment("\n", s.website, ""),
     Segment("\n", s.phoneNumber, ""), Segment("\n", s.description, "")]
  }

  /** The label's plain text for an optional school: nothing at all for no school. */
  function SchoolCellText(school: Option<School>): (r: string)
    ensures school.None? ==> r == ""
  {
    match school
    case None => ""
    case Some(s) => Compose(SchoolSegments(s))
  }

  /** A present field on a line of its own, or nothing. */
  function Line(field: Option<string>): string
  {
    if field.Some? then "\n" + field.value else ""
  }

  /** Appending a present field on a new line appends its line. */
  lemma AppendLine(text: string, field: Option<string>)
    ensures field.Some? ==> text + ("\n" + field.value) == text + Line(field)
    ensures field.None? ==> text == text + Line(field)
  {
    if field.None? {
      assert text + "" == text;
    }
  }

  /** The label text, spelled out field by field. */
  lemma SchoolCellTextSpelledOut(s: School)
    ensures SchoolCellText(Some(s)) ==
      s.name.GetOr("") + Line(s.nta) + Line(s.website) + Line(s.phoneNumber) + Line(s.description)
  {
    var a, b, c, d, e := Segment("", s.name, ""), Segment("\n", s.nta, ""), Segment("\n", s.website, ""),
      Segment("\n", s.phoneNumber, ""), Segment("\n", s.description, "");
    assert SchoolSegments(s) == [a, b, c, d, e];
    ComposeFive(a, b, c, d, e);
    assert SchoolCellText(Some(s)) == Rendered(a) + Rendered(b) + Rendered(c) + Rendered(d) + Rendered(e);
    RenderedLine(s.name);
    RenderedLine(s.nta);
    RenderedLine(s.website);
    RenderedLine(s.phoneNumber);
    RenderedLine(s.description);
  }

  lemma RenderedLine(field: Option<string>)
    ensures Rendered(Segment("\n", field, "")) == Line(field)
    ensures Rendered(Segment("", field, "")) == field.GetOr("")
  {
    if field.Some? {
      assert "\n" + field.value + "" == "\n" + field.value;
      assert "" + field.value + "" == field.value;
    }
  }

  /** The text is empty exactly when the name is absent or empty and the four other shown fields are absent. */
  lemma SchoolCellTextEmptyIff(s: School)
    ensures SchoolCellText(Some(s)) == "" <==>
      (s.name.None? || s.name == Some("")) && s.nta.None? && s.website.None? &&
      s.phoneNumber.None? && s.description.None?
  {
    SchoolCellTextSpelledOut(s);
  }

  /** With no name but some later field present, the text starts on a new line. */
  lemma SchoolCellTextStartsWithNewline(s: School)
    requires s.name.None?
    requires s.nta.Some? || s.website.Some? || s.phoneNumber.Some? || s.description.Some?
    ensures |SchoolCellText(Some(s))| > 0 && SchoolCellText(Some(s))[0] == '\n'
  {
    var segs := SchoolSegments(s);
    var rest := segs[1..];
    var k := if s.nta.Some? then 0 else if s.website.Some? then 1 else if s.phoneNumber.Some? then 2 else 3;
    ComposeStartsWithNewline(rest, k);
    ComposeAppend([segs[0]], rest);
    assert segs == [segs[0]] + rest;
    assert Compose([segs[0]]) == "" by {
      assert [segs[0]][..0] == [];
    }
  }

  /** The email, borough and id are never shown. */
  lemma SchoolCellTextIgnoresHiddenFields(s: School, id: Option<string>, email: Option<string>, borough: Option<string>)
    ensures SchoolCellText(Some(s)) == SchoolCellText(Some(s.(id := id, email := email, borough := borough)))
  {
    assert SchoolSegments(s) == SchoolSegments(s.(id := id, email := email, borough := borough));
  }

  /** The appends `updateContent` makes to the label's text, one per present field. */
  method LabelText(school: Option<School>) returns (text: string)
    ensures text == SchoolCellText(school)
  {
    text := "";
    if school.Some? {
      var s := school.value;
      if s.name.Some? {
        text := text + s.name.value;
      }
      assert text == s.name.GetOr("");
      AppendLine(text, s.nta);
      if s.nta.Some? {
        text := text + ("\n" + s.nta.value);
      }
      assert text == s.name.GetOr("") + Line(s.nta);
      AppendLine(text, s.website);
      if s.website.Some? {
        text := text + ("\n" + s.website.value);
      }
      assert text == s.name.GetOr("") + Line(s.nta) + Line(s.website);
      AppendLine(text, s.phoneNumber);
      if s.phoneNumber.Some? {
        text := text + ("\n" + s.phoneNumber.value);
      }
      assert text == s.name.GetOr("") + Line(s.nta) + Line(s.website) + Line(s.phoneNumber);
      AppendLine(text, s.description);
      if s.description.Some? {
        text := text + ("\n" + s.description.value);
      }
      SchoolCellTextSpelledOut(s);
    }
  }

  class SchoolCell {
    var school: Option<School>
    var delegate: SchoolSATDetailScreen.SchoolSATDetailViewController?
    var iconName: string
    /** The button's tint; absent until something sets it. */
    var tint: Option<Color.Hex>
    var labelText: string
    /** The label's wrapping; absent until the first `updateContent`. */
    var layout: Option<LabelLayout>

    /** `init(frame:)` and `setup`: an empty heart, no school, no delegate. */
    constructor ()
      ensures school.None? && delegate == null && iconName == "heart" && tint.None?
      ensures labelText == "" && layout.None?
    {
      school := None;
      delegate := null;
      iconName := "heart";
      tint := None;
      labelText := "";
      layout := None;
    }

    /** `prepareForReuse`: only the button is reset, to the look of a school that is not a favorite. */
    method PrepareForReuse()
      modifies this`iconName, this`tint
      ensures tint.Some? && ButtonStyle(iconName, tint.value) == FavoriteButton(false)
    {
      iconName := "heart";
      tint := Some(Color.Black);
    }

    /** `traitCollectionDidChange`: on a change of interface style, re-tint the button from the stored favorites. */
    method TraitCollectionDidChange(styleChanged: bool, favorites: FavoriteCache.Slot)
      modifies this`tint
      ensures styleChanged ==> tint == Some(FavoriteButton(IsFavoriteOrFalse(school, favorites)).tint)
      ensures !styleChanged ==> tint == old(tint)
    {
      if styleChanged {
        tint := Some(if IsFavoriteOrFalse(school, favorites) then Color.Infrared else Color.Black);
      }
    }

    /**
     * `updateContent(school:shouldTruncateText:delegate:)`. The favorites
     * are read from the stored slot, which is passed in.
     */
    method UpdateContent(school: Option<School>, shouldTruncateText: bool,
                         delegate: SchoolSATDetailScreen.SchoolSATDetailViewController?,
                         favorites: FavoriteCache.Slot)
      modifies this
      ensures this.school == school && this.delegate == delegate
      ensures tint.Some? && ButtonStyle(iconName, tint.value) == FavoriteButton(IsFavoriteOrFalse(school, favorites))
      ensures labelText == SchoolCellText(school)
      ensures layout == Some(Layout(shouldTruncateText))
    {
      this.school := school;
      this.delegate := delegate;
      var isFavorited := IsFavoriteOrFalse(school, favorites);
      iconName := if isFavorited then "heart.fill" else "heart";
      tint := Some(if isFavorited then Color.Infrared else Color.Black);

      var text := LabelText(school);

      if shouldTruncateText {
        layout := Some(LabelLayout(6, true, Some("...more")));
      } else {
        layout := Some(LabelLayout(0, false, None));
      }
      labelText := text;
    }

    /**
     * `favoriteSchool`: toggles this cell's school in the store. Only on
     * success is the delegate told and the button redrawn from the reported
     * state; a school without an id therefore never reaches the delegate.
     */
    method FavoriteSchool(store: FavoriteCache.FavoriteStore, visibleItems: set<int>)
      returns (success: bool, isFavorited: bool)
      modifies this`iconName, this`tint, store
      modifies if delegate != null && delegate.delegate != null then {delegate.delegate} else {}
      ensures FavoriteCache.UpdateReport(store.slot, success, isFavorited) ==
        FavoriteCache.Toggle(old(store.slot), SchoolId(school))
      ensures SchoolId(school).None? ==> !success
      ensures success ==> tint.Some? && ButtonStyle(iconName, tint.value) == FavoriteButton(isFavorited)
      ensures success ==> isFavorited == IsFavoriteOrFalse(school, store.slot)
      ensures !success ==> iconName == old(iconName) && tint == old(tint)
      ensures delegate != null && delegate.delegate != null ==>
        delegate.delegate.schools ==
          (if success then SchoolsScreen.Patched(old(delegate.delegate.schools), school, visibleItems)
           else old(delegate.delegate.schools))
    {
      success, isFavorited := store.Update(SchoolId(school));
      if success {
        if delegate != null {
          delegate.SchoolCellFavoritedSchool(school, visibleItems);
        }
        iconName := if isFavorited then "heart.fill" else "heart";
        tint := Some(if isFavorited then Color.Infrared else Color.Black);
      }
    }
  }

  /** SchoolsViewController's `cellForItemAt`: the row's school, truncated, with no delegate. */
  method ConfigureListCell(screen: SchoolsScreen.SchoolsViewController, cell: SchoolCell, item: int,
                           favorites: FavoriteCache.Slot)
    requires 0 <= item < |screen.schools|
    modifies cell
    ensures cell.school == Some(screen.schools[item]) && cell.delegate == null
    ensures cell.labelText == SchoolCellText(Some(screen.schools[item]))
    ensures cell.layout == Some(Layout(true))
  {
    cell.UpdateContent(Some(screen.schools[item]), true, null, favorites);
  }

  /**
   * SchoolSATDetailViewController's `cellForItemAt` for its school section:
   * the screen's school, not truncated, with the screen as delegate.
   */
  method ConfigureDetailScreenCell(screen: SchoolSATDetailScreen.SchoolSATDetailViewController, cell: SchoolCell,
                                   favorites: FavoriteCache.Slot)
    modifies cell
    ensures cell.school == screen.school && cell.delegate == screen
    ensures cell.labelText == SchoolCellText(screen.school)
    ensures cell.layout == Some(Layout(false))
    ensures cell.tint.Some? && ButtonStyle(cell.iconName, cell.tint.value) == FavoriteButton(IsFavoriteOrFalse(screen.school, favorites))
  {
    cell.UpdateContent(screen.school, false, screen, favorites);
  }
}
