# NYC Schools, modelled in Dafny

A model of the core of the iOS app *NYC Schools*. The app lists New York City
high schools page by page, shows a school's SAT results on a detail screen,
and lets the user mark schools as favorites, which are kept on the device.

The model covers these parts of the app:

- **Favorites**: the list of favorited school ids kept in one UserDefaults slot, and the toggle that adds or removes an id.
- **Records**: the two records, `School` and `SchoolSATDetail`, every property an optional string. It also covers how their synthesized Codable conformance maps JSON keys to properties.
- **Pagination**: the `offset`, `limit` and `isLoadingData` values every view controller carries as associated objects.
- **List screen**: its first load, load-more, pull-to-refresh, selection, and how it patches a school whose favorite state changed.
- **Detail screen**: its sections, headers, footer and load, and how a favorite is forwarded back to the list screen.
- **Cells**: the plain text each of the two cells composes from the optional fields, the favorite button's icon and tint, and the label's truncation.
- **Colours**: the hex colour table, its dark-mode swap, the clean-up of hex strings, the 64-bit hex scan, the RGB channel split and the alpha rule.

One module stands for each source file:

| module | file | flavour |
|---|---|---|
| `Wrappers` | (support) | `Option` |
| `Json` | (support) | what Codable does with an optional String property |
| `FavoriteCache` | FavoriteCache.swift | functions, plus a class for the stored slot |
| `SchoolModel`, `SchoolSATDetailModel` | School.swift, SchoolSATDetail.swift | datatypes and functions |
| `Pagination` | iOS+Extension.swift | a class holding the associated-object map |
| `SchoolsScreen` | SchoolsViewController.swift and its +Delegate extension | a class |
| `SchoolSATDetailScreen` | SchoolSATDetailViewController.swift | a class |
| `DisplayText` | (support) | the segment-by-segment text both cells build |
| `SchoolCellView`, `SchoolSATDetailCellView` | SchoolCell.swift, SchoolSATDetailCell.swift | functions for the text, a heap-free `LabelText` method that appends it, and classes that store it |
| `Color` | Color.swift | functions |

Each asynchronous fetch is modelled in two steps. The method that starts the
fetch returns the request it issues. A separate method takes the fetch's
outcome and plays the completion handler. A scenario is then a sequence of
method calls. The three scenario methods at the end of `SchoolsScreen` are
written this way.

The delegates are concrete classes. The school cell's delegate is the detail
screen, and the detail screen's delegate is the list screen; these are the
only conformers in the app. Which rows are on screen is passed in as a set
of visible item indices. Whether a scroll reached the end, and whether the
footer view exists, are passed in as booleans.

Three behaviours of the code worth noting:

- `loadMoreDataIfNecessary` never sets `isLoadingData` to true. So two scroll events before the first completion both issue the same page request; `SchoolsScreen.LoadMoreRequestsOverlap` proves this.
- A load-more page is appended only when the list is already non-empty.
- A failed refresh keeps the stale list while the offset has been reset to 0; `SchoolsScreen.FailedRefreshKeepsStaleOffset` proves this.

## Model

| member | source | states |
|---|---|---|
| FavoriteCache.StoredIds | 20210930-JoshuaChoi-NYCSchools/Classes/FavoriteCache/FavoriteCache.swift:27 | the `as? [String]` read yields a list exactly when the slot holds a list of strings |
| FavoriteCache.IsFavorited | 20210930-JoshuaChoi-NYCSchools/Classes/FavoriteCache/FavoriteCache.swift:22-33 | an id is a favorite exactly when it is not nil, the slot holds a list of strings, and some entry of that list is the same code-point sequence as it |
| FavoriteCache.Without | 20210930-JoshuaChoi-NYCSchools/Classes/FavoriteCache/FavoriteCache.swift:47 | the filter keeps exactly the ids other than the given one, never grows, returns the list unchanged when the id is absent, and keeps a duplicate-free list duplicate-free |
| FavoriteCache.WithoutAppend | 20210930-JoshuaChoi-NYCSchools/Classes/FavoriteCache/FavoriteCache.swift:47 | the filter keeps order: filtering a concatenation is concatenating the filtered parts |
| FavoriteCache.Toggle | 20210930-JoshuaChoi-NYCSchools/Classes/FavoriteCache/FavoriteCache.swift:37-62 | a nil id reports (false, false) and leaves the slot alone. Any other id succeeds, flips its own membership, reports the new membership and leaves a list in the slot. No other id changes membership |
| FavoriteCache.ToggleUnset | 20210930-JoshuaChoi-NYCSchools/Classes/FavoriteCache/FavoriteCache.swift:57-60 | with no readable list stored, the update writes exactly `[id]` and reports (true, true) |
| FavoriteCache.TogglePresent | 20210930-JoshuaChoi-NYCSchools/Classes/FavoriteCache/FavoriteCache.swift:45-49 | a present id is removed, every occurrence of it, and the report is (true, false) |
| FavoriteCache.ToggleAbsent | 20210930-JoshuaChoi-NYCSchools/Classes/FavoriteCache/FavoriteCache.swift:50-55 | an absent id is appended at the end and the report is (true, true) |
| FavoriteCache.ToggleTwiceRestores | 20210930-JoshuaChoi-NYCSchools/Classes/FavoriteCache/FavoriteCache.swift:43-55 | two updates of an id missing from a stored list give back that exact list |
| FavoriteCache.ToggleTwiceFromUnset | 20210930-JoshuaChoi-NYCSchools/Classes/FavoriteCache/FavoriteCache.swift:57-60 | from an unset slot, two updates leave an empty list, not an unset slot |
| FavoriteCache.ToggleTwiceMovesToEnd | 20210930-JoshuaChoi-NYCSchools/Classes/FavoriteCache/FavoriteCache.swift:45-55 | two updates of a present id move it to the end of the list, with its duplicates dropped |
| FavoriteCache.ToggleKeepsNoDuplicates | 20210930-JoshuaChoi-NYCSchools/Classes/FavoriteCache/FavoriteCache.swift:43-60 | lists written only by the update never hold an id twice |
| FavoriteCache.FavoriteStore.constructor | 20210930-JoshuaChoi-NYCSchools/Classes/FavoriteCache/FavoriteCache.swift:19 | the store starts with the given slot contents |
| FavoriteCache.FavoriteStore.Update | 20210930-JoshuaChoi-NYCSchools/Classes/FavoriteCache/FavoriteCache.swift:37-62 | the stored slot and the two completion values are exactly those of `Toggle` on the old slot; a nil id changes nothing |
| Json.DecodeIfPresent | 20210930-JoshuaChoi-NYCSchools/Models/School.swift:19-26 | decoding an optional string property fails exactly on a non-string, non-null value, naming the key. A missing key or a null gives nil; a string gives that string |
| Json.EncodeIfPresent | 20210930-JoshuaChoi-NYCSchools/Models/School.swift:19-26 | encoding a present value writes it as a string under its key; a nil value writes nothing; no other key changes |
| Json.FirstMismatch | 20210930-JoshuaChoi-NYCSchools/Models/School.swift:19-26 | a listed key whose value has the wrong type, with no mismatched key before it; none exactly when no key is mismatched |
| Json.DecodeEach | 20210930-JoshuaChoi-NYCSchools/Models/School.swift:19-26 | decoding the keys in order succeeds exactly when none is mismatched. Otherwise it fails on the first mismatched key. On success each value is the string under its key |
| Json.DecodeEachIgnoresOtherKeys | 20210930-JoshuaChoi-NYCSchools/Models/School.swift:37-44 | the decoded result depends only on the listed keys |
| Json.EncodeEach | 20210930-JoshuaChoi-NYCSchools/Models/School.swift:19-26 | each present value is written under its key and each absent one leaves its key out; the keys already there are kept |
| SchoolModel.CodingKeysAreDistinct | 20210930-JoshuaChoi-NYCSchools/Models/School.swift:37-44 | no two properties of `School` share a JSON key |
| SchoolModel.Decode | 20210930-JoshuaChoi-NYCSchools/Models/School.swift:37-44 | decoding fails only on a mistyped value, naming the first such key in CodingKeys order (phone_number before school_email); otherwise each property holds the string under its renamed key (id from "dbn", name from "school_name", description from "overview_paragraph", email from "school_email", phoneNumber from "phone_number") |
| SchoolModel.Encode | 20210930-JoshuaChoi-NYCSchools/Models/School.swift:37-44 | encoding writes only strings, only under the coding keys, each present property under its renamed key |
| SchoolModel.DecodeEncode | 20210930-JoshuaChoi-NYCSchools/Models/School.swift:15 | decoding an encoded school gives it back |
| SchoolModel.EncodeDecode | 20210930-JoshuaChoi-NYCSchools/Models/School.swift:15 | re-encoding a decoded object gives back exactly its strings under the coding keys (nulls, mistyped values dropped, other keys dropped) |
| SchoolModel.PhoneNumberIsDecodedBeforeEmail | 20210930-JoshuaChoi-NYCSchools/Models/School.swift:37-44 | with both `school_email` and `phone_number` mistyped, the error names `phone_number`, whose case is declared first |
| SchoolModel.DecodeIgnoresOtherKeys | 20210930-JoshuaChoi-NYCSchools/Models/School.swift:37-44 | keys outside the rename table never affect decoding |
| SchoolModel.IsFavorite | 20210930-JoshuaChoi-NYCSchools/Models/School.swift:30-34 | a school is a favorite exactly when it has an id and the stored list holds that id |
| SchoolSATDetailModel.CodingKeysAreDistinct | 20210930-JoshuaChoi-NYCSchools/Models/SchoolSATDetail.swift:27-34 | no two properties of `SchoolSATDetail` share a JSON key |
| SchoolSATDetailModel.Decode | 20210930-JoshuaChoi-NYCSchools/Models/SchoolSATDetail.swift:27-34 | as for schools, with the six SAT keys. Counts and scores are kept as the verbatim strings, and a number under "sat_math_avg_score" fails decoding |
| SchoolSATDetailModel.Encode | 20210930-JoshuaChoi-NYCSchools/Models/SchoolSATDetail.swift:27-34 | encoding writes only strings, each present property under its renamed key |
| SchoolSATDetailModel.DecodeEncode | 20210930-JoshuaChoi-NYCSchools/Models/SchoolSATDetail.swift:15 | decoding an encoded record gives it back |
| SchoolSATDetailModel.EncodeDecode | 20210930-JoshuaChoi-NYCSchools/Models/SchoolSATDetail.swift:15 | re-encoding a decoded object gives back exactly its strings under the coding keys |
| SchoolSATDetailModel.DecodeIgnoresOtherKeys | 20210930-JoshuaChoi-NYCSchools/Models/SchoolSATDetail.swift:27-34 | keys outside the rename table never affect decoding |
| Pagination.LastSection | 20210930-JoshuaChoi-NYCSchools/Extensions/iOS+Extension.swift:70-74 | the last section's index is one less than the number of sections, and -1 for no sections |
| Pagination.ViewControllerSlots.constructor | 20210930-JoshuaChoi-NYCSchools/Extensions/iOS+Extension.swift:161-193 | a fresh view controller has no associated objects, so it reads as not loading, limit 50, offset 0 |
| Pagination.ViewControllerSlots.IsLoadingData | 20210930-JoshuaChoi-NYCSchools/Extensions/iOS+Extension.swift:166-168 | an unset flag reads as false |
| Pagination.ViewControllerSlots.Limit | 20210930-JoshuaChoi-NYCSchools/Extensions/iOS+Extension.swift:177-180 | an unset limit reads as 50 |
| Pagination.ViewControllerSlots.Offset | 20210930-JoshuaChoi-NYCSchools/Extensions/iOS+Extension.swift:189-192 | an unset offset reads as 0 |
| Pagination.ViewControllerSlots.SetIsLoadingData | 20210930-JoshuaChoi-NYCSchools/Extensions/iOS+Extension.swift:162-164 | the flag reads back as set; limit and offset are unchanged |
| Pagination.ViewControllerSlots.SetLimit | 20210930-JoshuaChoi-NYCSchools/Extensions/iOS+Extension.swift:173-175 | the limit reads back as set; flag and offset are unchanged |
| Pagination.ViewControllerSlots.SetOffset | 20210930-JoshuaChoi-NYCSchools/Extensions/iOS+Extension.swift:185-187 | the offset reads back as set; flag and limit are unchanged |
| SchoolsScreen.FirstIndexWithId | 20210930-JoshuaChoi-NYCSchools/Views/ViewControllers/SchoolsViewController/SchoolsViewController+Delegate.swift:103 | the first index whose optional id is the same as the given one (both nil, or the same code-point sequence); none when nothing matches |
| SchoolsScreen.Patched | 20210930-JoshuaChoi-NYCSchools/Views/ViewControllers/SchoolsViewController/SchoolsViewController+Delegate.swift:100-106 | the patch keeps the length, changes nothing for a nil school, and changes at most the first element with that id, and only if its cell is visible |
| SchoolsScreen.PatchReplacesFirstMatch | 20210930-JoshuaChoi-NYCSchools/Views/ViewControllers/SchoolsViewController/SchoolsViewController+Delegate.swift:102-106 | when the first school with that id is visible, exactly that element is replaced |
| SchoolsScreen.PatchWithoutVisibleMatch | 20210930-JoshuaChoi-NYCSchools/Views/ViewControllers/SchoolsViewController/SchoolsViewController+Delegate.swift:102-104 | with no visible school of that id the list is unchanged |
| SchoolsScreen.PatchMatchesNilIds | 20210930-JoshuaChoi-NYCSchools/Views/ViewControllers/SchoolsViewController/SchoolsViewController+Delegate.swift:103 | a school with a nil id replaces the first school whose id is nil |
| SchoolsScreen.PatchWithListedSchool | 20210930-JoshuaChoi-NYCSchools/Views/ViewControllers/SchoolsViewController/SchoolsViewController+Delegate.swift:100-106 | patching in a school taken from the list, when no earlier school shares its id, changes nothing |
| SchoolsScreen.PatchWithDuplicateIdOverwritesFirst | 20210930-JoshuaChoi-NYCSchools/Views/ViewControllers/SchoolsViewController/SchoolsViewController+Delegate.swift:100-106 | the list is not deduplicated: patching in a listed school whose id an earlier visible school shares overwrites that earlier school |
| SchoolsScreen.InsertedIndexPaths | 20210930-JoshuaChoi-NYCSchools/Views/ViewControllers/SchoolsViewController/SchoolsViewController.swift:179-181 | the inserted index paths are the new items' positions after the old ones, in the last (only) section |
| SchoolsScreen.SchoolsViewController.constructor | 20210930-JoshuaChoi-NYCSchools/Views/ViewControllers/SchoolsViewController/SchoolsViewController.swift:22 | the screen starts with no schools and no pagination values |
| SchoolsScreen.SchoolsViewController.ViewDidLoad | 20210930-JoshuaChoi-NYCSchools/Views/ViewControllers/SchoolsViewController/SchoolsViewController.swift:47-82 | the screen sets offset 0 and limit 20, then issues the first load: request (0, 20), marked in flight |
| SchoolsScreen.SchoolsViewController.LoadInitialData | 20210930-JoshuaChoi-NYCSchools/Views/ViewControllers/SchoolsViewController/SchoolsViewController.swift:104-115 | marks a load in flight, resets the offset and requests (0, limit) |
| SchoolsScreen.SchoolsViewController.InitialSchoolsFetched | 20210930-JoshuaChoi-NYCSchools/Views/ViewControllers/SchoolsViewController/SchoolsViewController.swift:115-146 | success replaces the list with the page (nil as empty) and sets the offset to its length; failure keeps the list and offset; either way the load is no longer in flight |
| SchoolsScreen.SchoolsViewController.LoadMoreDataIfNecessary | 20210930-JoshuaChoi-NYCSchools/Views/ViewControllers/SchoolsViewController/SchoolsViewController.swift:151-165 | a request is issued exactly when the scroll reached the end, no load is in flight and the footer exists; it asks for (offset, limit) and changes no state |
| SchoolsScreen.SchoolsViewController.MoreSchoolsFetched | 20210930-JoshuaChoi-NYCSchools/Views/ViewControllers/SchoolsViewController/SchoolsViewController.swift:165-206 | a non-empty page on a non-empty list is appended, advances the offset by its length and inserts exactly the new positions; anything else keeps list and offset; an offset equal to the list length stays so |
| SchoolsScreen.SchoolsViewController.EmptyDataSetShouldBeForced | 20210930-JoshuaChoi-NYCSchools/Views/ViewControllers/SchoolsViewController/SchoolsViewController+Delegate.swift:16-18 | the empty state shows exactly when there are no schools |
| SchoolsScreen.SchoolsViewController.NumberOfItemsInSection | 20210930-JoshuaChoi-NYCSchools/Views/ViewControllers/SchoolsViewController/SchoolsViewController+Delegate.swift:52-54 | one item per loaded school |
| SchoolsScreen.SchoolsViewController.DidSelectItemAt | 20210930-JoshuaChoi-NYCSchools/Views/ViewControllers/SchoolsViewController/SchoolsViewController+Delegate.swift:81-93 | a detail screen is presented exactly for an index in range, with that row's school |
| SchoolsScreen.SchoolsViewController.EmptyDataSetDidTapButton | 20210930-JoshuaChoi-NYCSchools/Views/ViewControllers/SchoolsViewController/SchoolsViewController+Delegate.swift:32-35 | the retry button does what `loadInitialData` does |
| SchoolsScreen.SchoolsViewController.ScrollViewDidScroll | 20210930-JoshuaChoi-NYCSchools/Views/ViewControllers/SchoolsViewController/SchoolsViewController+Delegate.swift:43-45 | every scroll does what `loadMoreDataIfNecessary` does |
| SchoolsScreen.SchoolsViewController.SchoolSATDetailViewControllerFavoriteChanged | 20210930-JoshuaChoi-NYCSchools/Views/ViewControllers/SchoolsViewController/SchoolsViewController+Delegate.swift:100-115 | the list becomes the patched list; a row is reloaded exactly when the first school with that id is visible; that row holds the new school; no reload means no change |
| SchoolsScreen.FailedRefreshKeepsStaleOffset | 20210930-JoshuaChoi-NYCSchools/Views/ViewControllers/SchoolsViewController/SchoolsViewController.swift:104-146 | load, then a failed refresh: the old list stays while the offset reads 0 |
| SchoolsScreen.LoadMoreRequestsOverlap | 20210930-JoshuaChoi-NYCSchools/Views/ViewControllers/SchoolsViewController/SchoolsViewController.swift:151-165 | after a first page, two scroll events before any completion both request (page length, 20) |
| SchoolsScreen.EndOfData | 20210930-JoshuaChoi-NYCSchools/Views/ViewControllers/SchoolsViewController/SchoolsViewController.swift:165-176 | a page of ten then an empty page: ten schools, offset 10, and the second request asked for offset 10 |
| SchoolSATDetailScreen.SchoolSATDetailViewController.constructor | 20210930-JoshuaChoi-NYCSchools/Views/ViewControllers/SchoolSATDetailViewController/SchoolSATDetailViewController.swift:64-70 | the screen keeps the school and delegate and starts with no SAT records |
| SchoolSATDetailScreen.SchoolSATDetailViewController.ViewDidLoad | 20210930-JoshuaChoi-NYCSchools/Views/ViewControllers/SchoolSATDetailViewController/SchoolSATDetailViewController.swift:93-136 | sets offset 0 and limit 10, then loads: the request is for the screen's school, marked in flight |
| SchoolSATDetailScreen.SchoolSATDetailViewController.LoadData | 20210930-JoshuaChoi-NYCSchools/Views/ViewControllers/SchoolSATDetailViewController/SchoolSATDetailViewController.swift:163-171 | marks a load in flight, with no guard, and requests the screen's school's records |
| SchoolSATDetailScreen.SchoolSATDetailViewController.SATDetailsFetched | 20210930-JoshuaChoi-NYCSchools/Views/ViewControllers/SchoolSATDetailViewController/SchoolSATDetailViewController.swift:171-203 | success keeps the records (nil as none) and sets the offset to their count; failure keeps both; either way the load is no longer in flight |
| SchoolSATDetailScreen.SchoolSATDetailViewController.NumberOfSections | 20210930-JoshuaChoi-NYCSchools/Views/ViewControllers/SchoolSATDetailViewController/SchoolSATDetailViewController.swift:210-212 | two sections, one per `SchoolSection` case |
| SchoolSATDetailScreen.SchoolSATDetailViewController.NumberOfItemsInSection | 20210930-JoshuaChoi-NYCSchools/Views/ViewControllers/SchoolSATDetailViewController/SchoolSATDetailViewController.swift:215-222 | the school section has one item; the details section one per record |
| SchoolSATDetailScreen.SchoolSATDetailViewController.HasFooter | 20210930-JoshuaChoi-NYCSchools/Views/ViewControllers/SchoolSATDetailViewController/SchoolSATDetailViewController.swift:248-251 | a footer exists exactly for the last section and only when there are records |
| SchoolSATDetailScreen.SchoolSATDetailViewController.SupplementaryContent | 20210930-JoshuaChoi-NYCSchools/Views/ViewControllers/SchoolSATDetailViewController/SchoolSATDetailViewController.swift:253-271 | footers get no content. The school header reads "School", left-aligned. The details header reads "SAT Details", left-aligned, or "SAT Details Not Available..." centred when there are no records |
| SchoolSATDetailScreen.SchoolSATDetailViewController.SchoolCellFavoritedSchool | 20210930-JoshuaChoi-NYCSchools/Views/ViewControllers/SchoolSATDetailViewController/SchoolSATDetailViewController.swift:293-296 | a favorite change is forwarded unchanged to the list screen, which patches its list |
| Color.AllCasesEnumeratesHex | 20210930-JoshuaChoi-NYCSchools/Style/Color.swift:16-26 | `allCases` lists each of the nine colours exactly once |
| Color.RawValuesAreDistinctSixDigitHex | 20210930-JoshuaChoi-NYCSchools/Style/Color.swift:16-26 | every raw value is six upper-case hex digits, and no two colours share one |
| Color.ResolvedHex | 20210930-JoshuaChoi-NYCSchools/Style/Color.swift:52-62 | the colour actually used is never Clear; accent, blue, light gray and infrared never change; outside dark mode (or without adoption) only Clear changes, to White |
| Color.DarkModeTable | 20210930-JoshuaChoi-NYCSchools/Style/Color.swift:52-62 | in dark mode white and clear become "000000", black "FFFFFF", gainsboro "2E2D30", dark gray "E5E5EA"; Clear's own "E0E0E0" is never used |
| Color.DarkSwapIsInvolution | 20210930-JoshuaChoi-NYCSchools/Style/Color.swift:52-62 | swapping twice gives back every colour other than Clear |
| Color.TrimLeading | 20210930-JoshuaChoi-NYCSchools/Style/Color.swift:65 | the result is a suffix of the input, every character dropped is whitespace or a newline, and the result does not start with one |
| Color.TrimTrailing | 20210930-JoshuaChoi-NYCSchools/Style/Color.swift:65 | the result is a prefix of the input, every character dropped is whitespace or a newline, and the result does not end with one |
| Color.RemoveHashes | 20210930-JoshuaChoi-NYCSchools/Style/Color.swift:65 | the result holds the same set of characters as the input minus '#'; an input without '#' is returned unchanged; a single '#' gives "" and any other single character is kept |
| Color.RemoveHashesAppend | 20210930-JoshuaChoi-NYCSchools/Style/Color.swift:65 | removing hashes distributes over concatenation, so with the single-character cases it keeps every other character, in order and with repeats |
| Color.Uppercased | 20210930-JoshuaChoi-NYCSchools/Style/Color.swift:65 | same length; each lower-case ASCII letter becomes its capital and every other character is kept |
| Color.Normalized | 20210930-JoshuaChoi-NYCSchools/Style/Color.swift:65 | after trimming, removing hashes and upper-casing, no '#' and no lower-case ASCII letter is left |
| Color.UpperHexIsNormalized | 20210930-JoshuaChoi-NYCSchools/Style/Color.swift:65 | trimming, removing hashes and upper-casing leave an upper-case hex string unchanged |
| Color.UpperHexKeepsHashesAndCase | 20210930-JoshuaChoi-NYCSchools/Style/Color.swift:65 | an upper-case hex string has no hash to remove and no letter to upper-case |
| Color.ResolvedIsNormalized | 20210930-JoshuaChoi-NYCSchools/Style/Color.swift:49-65 | the clean-up never changes the raw value `init` starts from |
| Color.LeadingHexValueBound | 20210930-JoshuaChoi-NYCSchools/Style/Color.swift:67-68 | the value of a run of n hex digits is below 16 to the n |
| Color.HexNumberLeadingDigit | 20210930-JoshuaChoi-NYCSchools/Style/Color.swift:67-68 | in the number a hex string denotes, the first digit weighs 16 to the power of the digits after it |
| Color.InfraredNumber | 20210930-JoshuaChoi-NYCSchools/Style/Color.swift:25 | "FF0055" denotes 0xFF0055: digits are read most significant first |
| Color.LeadingHexValueIsHexNumber | 20210930-JoshuaChoi-NYCSchools/Style/Color.swift:67-68 | scanning a whole hex string onto an accumulator shifts it by 16 per digit and adds the number the string denotes |
| Color.WholeHexScan | 20210930-JoshuaChoi-NYCSchools/Style/Color.swift:67-68 | scanning a hex string of at most 16 digits from 0 gives the number it denotes, which fits 64 bits |
| Color.ScanHexInt64 | 20210930-JoshuaChoi-NYCSchools/Style/Color.swift:67-68 | a string of at most 16 hex digits scans to exactly the number it denotes; at most six characters scan to a value below 2 to the 24 |
| Color.SplitChannels | 20210930-JoshuaChoi-NYCSchools/Style/Color.swift:71-74 | each channel is at most 0xFF, and for a 24-bit value the three channels recombine to it |
| Color.Alpha | 20210930-JoshuaChoi-NYCSchools/Style/Color.swift:75 | alpha lies in [0, 1]: 0 for Clear, the given value when it is in range, else 1 |
| Color.MakeColor | 20210930-JoshuaChoi-NYCSchools/Style/Color.swift:47-77 | the channels recombine to the scanned raw value of the resolved colour, and the alpha is the one `Alpha` picks for the colour |
| Color.ResolvedRawValueFacts | 20210930-JoshuaChoi-NYCSchools/Style/Color.swift:49-68 | the resolved raw value needs no clean-up and is six hex digits denoting a number below 2 to the 24 |
| Color.MakeColorDenotesRawValue | 20210930-JoshuaChoi-NYCSchools/Style/Color.swift:47-77 | the three channels recombine to exactly the number the resolved raw value denotes |
| Color.AllHexColors | 20210930-JoshuaChoi-NYCSchools/Style/Color.swift:34-41 | one colour per case, in declaration order, with alpha 1 and dark-mode adoption on |
| DisplayText.Rendered | 20210930-JoshuaChoi-NYCSchools/Views/SchoolCell.swift:159-162 | an absent field contributes nothing |
| DisplayText.ComposeAppend | 20210930-JoshuaChoi-NYCSchools/Views/SchoolCell.swift:153-174 | composing two runs of segments is concatenating their texts |
| DisplayText.ComposeEmptyIff | 20210930-JoshuaChoi-NYCSchools/Views/SchoolCell.swift:153-174 | the composed text is empty exactly when every segment contributes nothing |
| DisplayText.ComposeStartsWithNewline | 20210930-JoshuaChoi-NYCSchools/Views/SchoolCell.swift:159-174 | when every prefix starts with a newline and some field is present, the text starts with a newline |
| DisplayText.ComposeFive | 20210930-JoshuaChoi-NYCSchools/Views/SchoolCell.swift:153-174 | five segments compose to their five contributions in order |
| SchoolCellView.FavoriteButton | 20210930-JoshuaChoi-NYCSchools/Views/SchoolCell.swift:147-150 | the icon is "heart.fill" and the tint Infrared exactly for a favorite; otherwise "heart" in Black |
| SchoolCellView.FavoriteButtonIsInjective | 20210930-JoshuaChoi-NYCSchools/Views/SchoolCell.swift:147-150 | the button never shows the two states the same way |
| SchoolCellView.Layout | 20210930-JoshuaChoi-NYCSchools/Views/SchoolCell.swift:180-182 | truncating means six lines, tail truncation and the token "...more"; otherwise unlimited lines, word wrap and no token |
| SchoolCellView.SchoolId | 20210930-JoshuaChoi-NYCSchools/Views/SchoolCell.swift:120 | `school?.id` is present exactly when the school and its id are |
| SchoolCellView.IsFavoriteOrFalse | 20210930-JoshuaChoi-NYCSchools/Views/SchoolCell.swift:147 | `school?.isFavorite == true` holds exactly when there is a school, it has an id, and the stored list holds that id |
| SchoolCellView.SchoolCellText | 20210930-JoshuaChoi-NYCSchools/Views/SchoolCell.swift:153-174 | no school shows no text |
| SchoolCellView.SchoolCellTextSpelledOut | 20210930-JoshuaChoi-NYCSchools/Views/SchoolCell.swift:153-174 | the text is the name, then nta, website, phone number and description, each present one on a new line |
| SchoolCellView.SchoolCellTextEmptyIff | 20210930-JoshuaChoi-NYCSchools/Views/SchoolCell.swift:153-174 | the text is empty exactly when the name is absent or empty and the four other shown fields are absent |
| SchoolCellView.SchoolCellTextStartsWithNewline | 20210930-JoshuaChoi-NYCSchools/Views/SchoolCell.swift:156-174 | with no name but some later field present, the text starts with a newline |
| SchoolCellView.SchoolCellTextIgnoresHiddenFields | 20210930-JoshuaChoi-NYCSchools/Views/SchoolCell.swift:156-174 | email, borough and id never affect the text |
| SchoolCellView.LabelText | 20210930-JoshuaChoi-NYCSchools/Views/SchoolCell.swift:153-174 | the successive appends build exactly the composed text |
| SchoolCellView.SchoolCell.constructor | 20210930-JoshuaChoi-NYCSchools/Views/SchoolCell.swift:85 | a new cell shows an empty heart, has no school, no delegate and no text |
| SchoolCellView.SchoolCell.PrepareForReuse | 20210930-JoshuaChoi-NYCSchools/Views/SchoolCell.swift:89-95 | reuse resets the button to the not-favorite look and nothing else |
| SchoolCellView.SchoolCell.TraitCollectionDidChange | 20210930-JoshuaChoi-NYCSchools/Views/SchoolCell.swift:98-109 | a change of interface style re-tints the button from the stored favorites; no change leaves it |
| SchoolCellView.SchoolCell.UpdateContent | 20210930-JoshuaChoi-NYCSchools/Views/SchoolCell.swift:139-184 | the cell keeps the school and delegate, shows the button for the stored favorite state, the composed text and the chosen layout |
| SchoolCellView.SchoolCell.FavoriteSchool | 20210930-JoshuaChoi-NYCSchools/Views/SchoolCell.swift:114-132 | the store changes as `Toggle` on the school's id. A nil id never succeeds. Only on success is the list screen patched and the button redrawn from the reported state, which is the new stored state |
| SchoolCellView.ConfigureListCell | 20210930-JoshuaChoi-NYCSchools/Views/ViewControllers/SchoolsViewController/SchoolsViewController+Delegate.swift:74-79 | a list row's cell shows that row's school, truncated, with no delegate |
| SchoolCellView.ConfigureDetailScreenCell | 20210930-JoshuaChoi-NYCSchools/Views/ViewControllers/SchoolSATDetailViewController/SchoolSATDetailViewController.swift:273-279 | the detail screen's school cell shows its school untruncated, with the screen as delegate |
| SchoolSATDetailCellView.DetailText | 20210930-JoshuaChoi-NYCSchools/Views/UICollectionViewCell/SchoolSATDetailCell/SchoolSATDetailCell.swift:93-119 | no record shows no text |
| SchoolSATDetailCellView.DetailTextSpelledOut | 20210930-JoshuaChoi-NYCSchools/Views/UICollectionViewCell/SchoolSATDetailCell/SchoolSATDetailCell.swift:96-119 | the text is the name, then "\nNumber of Test Takers: " + count + " People", then the math, reading and writing scores each as its label + score + " out of 800", each only when present |
| SchoolSATDetailCellView.DetailTextEmptyIff | 20210930-JoshuaChoi-NYCSchools/Views/UICollectionViewCell/SchoolSATDetailCell/SchoolSATDetailCell.swift:93-119 | the text is empty exactly when the name is absent or empty and every count and score is absent |
| SchoolSATDetailCellView.DetailTextIgnoresId | 20210930-JoshuaChoi-NYCSchools/Views/UICollectionViewCell/SchoolSATDetailCell/SchoolSATDetailCell.swift:96-118 | the id never affects the text |
| SchoolSATDetailCellView.MathPrecedesReading | 20210930-JoshuaChoi-NYCSchools/Views/UICollectionViewCell/SchoolSATDetailCell/SchoolSATDetailCell.swift:104-113 | the math line comes right before the reading line, unlike the declaration order of the record |
| SchoolSATDetailCellView.LabelText | 20210930-JoshuaChoi-NYCSchools/Views/UICollectionViewCell/SchoolSATDetailCell/SchoolSATDetailCell.swift:93-119 | the successive appends of label, then value and unit build exactly the composed text |
| SchoolSATDetailCellView.SchoolSATDetailCell.constructor | 20210930-JoshuaChoi-NYCSchools/Views/UICollectionViewCell/SchoolSATDetailCell/SchoolSATDetailCell.swift:40-48 | a new cell has no record and no text |
| SchoolSATDetailCellView.SchoolSATDetailCell.UpdateContent | 20210930-JoshuaChoi-NYCSchools/Views/UICollectionViewCell/SchoolSATDetailCell/SchoolSATDetailCell.swift:88-126 | the cell keeps the record and shows its composed text |
| SchoolSATDetailCellView.ConfigureDetailsCell | 20210930-JoshuaChoi-NYCSchools/Views/ViewControllers/SchoolSATDetailViewController/SchoolSATDetailViewController.swift:280-284 | a details row's cell shows that row's record |

## Left out

- Networking (the `Service.shared` singleton of `Service.swift`, called as `fetchSchools(offset:limit:)` and `fetchSchoolSATDetails(school:)`): a fetch's outcome is a parameter of the completion method. The URL, the query parameters and the JSON parsing of the response array are not part of this model.
- Asynchrony and threads: every completion runs as one step. The list's load-more completion appends inside `DispatchQueue.main.async`; the model appends at once.
- UIKit layout, geometry, fonts, attributed-string colours, `applyParagraphStyle`, `resetAttributedStringForegroundColors`, haptics, navigation transitions, `LinearRefresher` and the footer's animation: view plumbing with no state the model tracks.
- The division of each channel by 255.0 in `Color`: floating point. The model stops at the integer channels.
- Color.IsWhitespaceOrNewline: covers the ASCII and Latin-1 members of `.whitespacesAndNewlines` only, and `uppercased()` only the ASCII letters. Both are exact on the hex strings the app uses.
- Color.ScanHexInt64: does not model the scanner's acceptance of an optional "0x" prefix or leading whitespace; the normalised strings it is given have neither.
- SchoolsScreen.SchoolsViewController.SchoolSATDetailViewControllerFavoriteChanged: the redraw of the visible cell (`updateContent(school:)` and the row reload) is not modelled; the visible rows are a parameter.
- FavoriteCache.IsFavorited, FavoriteCache.Without, SchoolsScreen.FirstIndexWithId: ids are compared as code-point sequences, not by the Unicode canonical equivalence of Swift's `String` `==`; the two agree on the ASCII DBN ids the app receives.
- SchoolsScreen.SchoolsViewController.DidSelectItemAt: returns the school that the presented detail screen is built with, not the screen itself.
- Swift `Int` is 64 bits wide; offsets and limits are unbounded integers here, since a page count can never come near the bound.
- Color.Alpha: a NaN alpha (which fails both comparisons and so becomes 1.0) does not arise with `real`.
- `traitCollectionDidChange` of both screens and of the SAT cell only re-apply colours: not modelled. The school cell's version is modelled.
