# Organ donation demo site: hospital console and donor form

This project models the two components of the organ-donation demo site that
carry logic, and proves properties of the model.

- **Hospital console** (`src/components/HospitalDashboard.jsx`). The console
  holds a fixed list of four waiting patients and a fixed list of three
  available donors. It offers a free-text search and an organ selector, where
  `All` is the wildcard. The table shows the patients for whom both hold:
  - some searched field (name, id, organ, location, blood type), lowercased,
    contains the lowercased query;
  - the selector is `All` or names the patient's organ.

  The selector lists `All` and then each patient organ once. Under the table,
  the first two rows are previewed. Each previewed patient is shown with the
  donors of the same blood type who offer the patient's organ. This part of
  the source is pure, so it is modelled with functions and lemmas (module
  `Hospital`). The query and the selector value are parameters.
- **Donor registration form** (`src/components/DonorDashboard.jsx`). The form
  record has a name, a blood type, a list of selected organs, a location and a
  consent flag. A separate `submitted` flag goes with it. The pure parts are
  `Donor.IsValid` (the validity test that enables the submit button) and
  `Donor.Toggle` (the organ button's list update). The component's state is
  the class `Donor.DonorDashboard`. Its fields are `form` and `submitted`, and
  its methods are the field setters, `ToggleOrgan` and `OnSubmit`.

Two support modules model the JavaScript built-ins these components call:
- `Seqs`: `Array.prototype.filter` and the first-occurrence de-duplication
  done by `[...new Set(xs)]`. `Seqs.IndexOf` (first position) is a
  specification helper that states the de-duplicated order; the components do
  not call `indexOf`.
- `Text`: `String.prototype.trim`, `toLowerCase`, `includes`, and the
  `length` of a string.

`trim` strips exactly the ECMAScript WhiteSpace and LineTerminator code
points. A string's `length` counts UTF-16 code units (`Text.Utf16Length`), so
a character above U+FFFF counts twice. `toLowerCase` is modelled on ASCII
letters only. All the fixed patient and donor data is ASCII, so the concrete
results below are exact.

Three points of the donor form's code worth noting:
- The organ selection is an ordered list: a new organ is appended, a selected
  one is filtered out. `Donor.ToggleSymmetricDifference` gives the set view,
  and the other toggle lemmas state the list behaviour.
- The name and location rule compares the length of the *trimmed* text, in
  code units: a single emoji is long enough (`Donor.AstralNameValid`).
- Validity also requires a non-empty blood type (`!!form.bloodType`).

## Model

| member | source | states |
|---|---|---|
| `Seqs.Filter` | src/components/HospitalDashboard.jsx:31 | `filter` never returns more elements than its input |
| `Seqs.FilterMembership` | src/components/HospitalDashboard.jsx:31-38 | soundness and completeness: an element is in the filtered list iff it is in the input and satisfies the predicate |
| `Seqs.FilterIsSubsequence` | src/components/HospitalDashboard.jsx:31-38 | the filtered list is an order-preserving subsequence of the input |
| `Seqs.FilterCount` | src/components/DonorDashboard.jsx:30 | filtering keeps every copy of an accepted value and no copy of a rejected one |
| `Seqs.FilterNoDuplicates` | src/components/DonorDashboard.jsx:30 | filtering a repeat-free list gives a repeat-free list |
| `Seqs.Distinct` | src/components/HospitalDashboard.jsx:28 | `[...new Set(xs)]` has no duplicates and has exactly the elements of `xs` |
| `Seqs.DistinctFirstOccurrenceOrder` | src/components/HospitalDashboard.jsx:28 | de-duplicated entries appear in the order of their first occurrence in the input |
| `Seqs.DistinctIsSubsequence` | src/components/HospitalDashboard.jsx:28 | the de-duplicated list is a subsequence of the input |
| `Text.Trim` | src/components/DonorDashboard.jsx:19-20 | `s.trim()`: never longer than `s`; characterized by `Text.TrimSlice` |
| `Text.TrimStart` | src/components/DonorDashboard.jsx:19-20 | the leading part `trim` drops is all white space, and what remains is a suffix that starts with a non-space |
| `Text.TrimEnd` | src/components/DonorDashboard.jsx:19-20 | the trailing part `trim` drops is all white space, and what remains is a prefix that ends with a non-space |
| `Text.TrimSlice` | src/components/DonorDashboard.jsx:19-20 | `trim(s)` is a slice `s[a..b]`; everything outside it is white space, and a non-empty result starts and ends with a non-space |
| `Text.Utf16Length` | src/components/DonorDashboard.jsx:19-20 | `length` lies between the number of characters and twice it, and equals it iff no character is above U+FFFF |
| `Text.TrimLongerThanOne` | src/components/DonorDashboard.jsx:19-20 | `trim(s).length > 1` iff `s` holds two non-space characters or one non-space character above U+FFFF (both directions) |
| `Text.ToLower` | src/components/HospitalDashboard.jsx:34 | ASCII `toLowerCase`: same length, and no ASCII capital remains; `Text.ToLowerOccurrence` gives where each lowercase letter comes from |
| `Text.Includes` | src/components/HospitalDashboard.jsx:34 | `s.includes(sub)`: `sub` occurs as a contiguous block, so it is no longer than `s`; see `Text.EmptyIncluded` and `Text.IncludesCharacters` |
| `Text.ToLowerOccurrence` | src/components/HospitalDashboard.jsx:34 | a lowercase letter appears in the ASCII `ToLower(s)` only if `s` holds it in one case or the other |
| `Text.EmptyIncluded` | src/components/HospitalDashboard.jsx:33-34 | the empty query is included in every string |
| `Text.IncludesCharacters` | src/components/HospitalDashboard.jsx:34 | if `s.includes(sub)`, every character of `sub` occurs in `s` |
| `Text.NotIncludedForMissingLetter` | src/components/HospitalDashboard.jsx:34 | a query letter missing from a field in both cases means the field, lowercased by the ASCII `ToLower`, does not include the query |
| `Hospital.MockPatients` | src/components/HospitalDashboard.jsx:4-9 | the four waiting patients P-101 to P-104, field for field (a constant) |
| `Hospital.MockDonors` | src/components/HospitalDashboard.jsx:11-15 | the three available donors D-2201 to D-2203, field for field (a constant) |
| `Hospital.AllOrgans` | src/components/HospitalDashboard.jsx:26-36 | the selector's wildcard `All`: its initial value, its first option and the value that disables the organ test (a constant) |
| `Hospital.SearchFields` | src/components/HospitalDashboard.jsx:33 | the searched fields: name, id, organ, location, blood type; urgency is not searched (a definition) |
| `Hospital.MatchesQuery` | src/components/HospitalDashboard.jsx:32-35 | the search test: a query longer than every searched field never matches; `Hospital.FilteredPatientsSpec` states the test in full |
| `Hospital.MatchesOrgan` | src/components/HospitalDashboard.jsx:36 | the organ test: the selector is `All` or equals the patient's organ (a definition, used by `Hospital.FilteredPatientsSpec`) |
| `Hospital.FilteredPatients` | src/components/HospitalDashboard.jsx:30-38 | `filteredPatients`: never more rows than patients; characterized by `Hospital.FilteredPatientsSpec` |
| `Hospital.FilteredPatientsSpec` | src/components/HospitalDashboard.jsx:30-38 | the table is an order-preserving subsequence of the patient list; each row passes the organ test and has a searched field containing the lowercased query; every patient passing both tests is a row |
| `Hospital.FilteredMockPatientsAtMostFour` | src/components/HospitalDashboard.jsx:4-9 | with the fixed data the table is a subsequence of the four patients, so it has at most four rows |
| `Hospital.EmptySearchShowsAll` | src/components/HospitalDashboard.jsx:25-38 | an empty query with `All` shows every patient, unchanged and in order |
| `Hospital.MumbaiMatchesArjun` | src/components/HospitalDashboard.jsx:5 | P-101's location `Mumbai` matches the query `mumbai` |
| `Hospital.MumbaiMissesOthers` | src/components/HospitalDashboard.jsx:6-8 | no searched field of P-102, P-103 or P-104 contains `mumbai` |
| `Hospital.QueryMissesPatient` | src/components/HospitalDashboard.jsx:33-35 | if none of a patient's searched fields holds some letter of the query in either case, the search (with the ASCII `ToLower`) misses that patient |
| `Hospital.MumbaiSearch` | src/components/HospitalDashboard.jsx:30-38 | the query `mumbai` with `All` gives exactly [P-101] |
| `Hospital.LiverFilter` | src/components/HospitalDashboard.jsx:30-38 | the empty query with `Liver` gives exactly [P-102] |
| `Hospital.Compatible` | src/components/HospitalDashboard.jsx:42-44 | the compatibility test: same blood-type string and the donor lists the patient's organ (a definition, used by `Hospital.CompatibleDonorsSpec`) |
| `Hospital.CompatibleDonors` | src/components/HospitalDashboard.jsx:41-45 | `compatibleDonors`: never more donors than listed; characterized by `Hospital.CompatibleDonorsSpec` |
| `Hospital.CompatibleDonorsSpec` | src/components/HospitalDashboard.jsx:41-45 | the compatible donors are, in donor-list order, exactly the donors with the patient's blood-type string that list the patient's organ |
| `Hospital.ArjunMatchesRiya` | src/components/HospitalDashboard.jsx:11-15 | for P-101 the compatible donors are exactly [D-2201] |
| `Hospital.PatientOrgans` | src/components/HospitalDashboard.jsx:28 | `mockPatients.map((p) => p.organ)`: one organ per patient, in list order |
| `Hospital.OrganOptions` | src/components/HospitalDashboard.jsx:28 | the selector options: `All` first, at most one entry per patient after it; characterized by `Hospital.OrganOptionsContents`, `OrganOptionsOrder` and `OrganOptionsNoDuplicates` |
| `Hospital.OrganOptionsContents` | src/components/HospitalDashboard.jsx:28 | the selector starts with `All`, then offers every patient organ and nothing else |
| `Hospital.OrganOptionsOrder` | src/components/HospitalDashboard.jsx:28 | the organs after `All` are listed in the order of their first appearance among the patients |
| `Hospital.OrganOptionsNoDuplicates` | src/components/HospitalDashboard.jsx:28 | the selector has no duplicate entry iff no patient's organ is the string `All` |
| `Hospital.RepeatFreeOptionsExcludeWildcard` | src/components/HospitalDashboard.jsx:28 | if the selector repeats no entry, no patient's organ is the string `All` |
| `Hospital.WildcardFreeOrgansGiveRepeatFreeOptions` | src/components/HospitalDashboard.jsx:28 | if no patient's organ is the string `All`, the selector repeats no entry |
| `Hospital.MockOrganOptions` | src/components/HospitalDashboard.jsx:28 | with the fixed data the selector is All, Heart, Liver, Kidneys, Corneas |
| `Hospital.Preview` | src/components/HospitalDashboard.jsx:127 | `slice(0, 2)` is the prefix of length min(2, number of rows) |
| `Hospital.MatchPreview` | src/components/HospitalDashboard.jsx:127-144 | the matching preview: at most two entries; characterized by `Hospital.MatchPreviewSpec` |
| `Hospital.MatchPreviewSpec` | src/components/HospitalDashboard.jsx:127-144 | the preview has as many entries as the table up to two (so a one-row table previews that row); they are the first rows, in order; each is shown with its `compatibleDonors` list, which holds exactly the compatible donors in donor-list order |
| `Hospital.PreviewOfTwo` | src/components/HospitalDashboard.jsx:127-144 | a table with two or more rows previews exactly its first two rows, each with its compatible donors |
| `Hospital.MiaMatchesLuis` | src/components/HospitalDashboard.jsx:11-15 | for P-102 the compatible donors are exactly [D-2203] |
| `Hospital.InitialPreview` | src/components/HospitalDashboard.jsx:127-144 | with the initial inputs, the preview is P-101 with [D-2201] and P-102 with [D-2203] |
| `Donor.IsValid` | src/components/DonorDashboard.jsx:17-25 | `isValid`: a valid form has a non-blank name and location; characterized in both directions by `Donor.IsValidCharacterized` |
| `Donor.IsValidCharacterized` | src/components/DonorDashboard.jsx:17-25 | the form is valid iff name and location each hold two non-space characters or one non-space character above U+FFFF, some organ is selected, a blood type is set, and consent is given |
| `Donor.BloodTypes` | src/components/DonorDashboard.jsx:4 | the eight blood types the selector offers, in order (a constant) |
| `Donor.OrganCatalog` | src/components/DonorDashboard.jsx:5 | the six organs the toggle buttons offer, in order (a constant) |
| `Donor.InitialForm` | src/components/DonorDashboard.jsx:8-14 | the initial record: empty name and location, blood type `O+`, no organs, no consent (a constant; `Donor.InitialFormInvalid` states its properties) |
| `Donor.InitialFormInvalid` | src/components/DonorDashboard.jsx:8-14 | the initial form is not valid, and its blood type `O+` is one of the offered types |
| `Donor.ValidExample` | src/components/DonorDashboard.jsx:17-25 | name `Jo`, location `NY`, organ Heart and consent give a valid form |
| `Donor.AstralNameValid` | src/components/DonorDashboard.jsx:17-25 | a name of one emoji (two code units), location `NY`, organ Heart and consent give a valid form |
| `Donor.OneLetterNameInvalid` | src/components/DonorDashboard.jsx:19 | a one-letter name blocks submission, with any number of spaces before it and any number after it |
| `Donor.Toggle` | src/components/DonorDashboard.jsx:29-30 | `toggleOrgan`'s list update: grows by at most one; characterized by `Donor.ToggleRemovesSelected` and `Donor.ToggleAppendsUnselected` |
| `Donor.ToggleRemovesSelected` | src/components/DonorDashboard.jsx:29-30 | toggling a selected organ removes every copy of it; the other organs keep their multiplicities and their order |
| `Donor.ToggleAppendsUnselected` | src/components/DonorDashboard.jsx:29-30 | toggling an unselected organ appends it at the end |
| `Donor.ToggleSymmetricDifference` | src/components/DonorDashboard.jsx:27-31 | as a set, the new selection is the symmetric difference of the old one with the toggled organ |
| `Donor.ToggleTwiceRestores` | src/components/DonorDashboard.jsx:27-31 | toggling an unselected organ twice restores the original list exactly |
| `Donor.ToggleKeepsNoDuplicates` | src/components/DonorDashboard.jsx:27-31 | a repeat-free selection stays repeat-free |
| `Donor.ToggleWithinCatalog` | src/components/DonorDashboard.jsx:99-105 | toggling catalog organs (the only ones the buttons offer) selects only catalog organs |
| `Donor.DonorDashboard.constructor` | src/components/DonorDashboard.jsx:8-15 | the component starts with the initial form and `submitted` false |
| `Donor.DonorDashboard.FromControls` | src/components/DonorDashboard.jsx:69-105 | what the controls can produce: a listed blood type and a repeat-free selection of catalog organs (a definition; the constructor establishes it, and each handler keeps it for the inputs the controls can produce) |
| `Donor.DonorDashboard.SetName` | src/components/DonorDashboard.jsx:58 | only the name changes |
| `Donor.DonorDashboard.SetBloodType` | src/components/DonorDashboard.jsx:71 | only the blood type changes |
| `Donor.DonorDashboard.SetLocation` | src/components/DonorDashboard.jsx:88 | only the location changes |
| `Donor.DonorDashboard.SetConsent` | src/components/DonorDashboard.jsx:124 | only the consent flag changes |
| `Donor.DonorDashboard.ToggleOrgan` | src/components/DonorDashboard.jsx:27-32 | the organ list becomes the toggled list; name, blood type, location, consent and `submitted` are unchanged; a repeat-free catalog selection stays one |
| `Donor.DonorDashboard.OnSubmit` | src/components/DonorDashboard.jsx:34-38 | the form is unchanged; a valid form sets `submitted`; an invalid form leaves `submitted` as it was; `submitted` is never cleared |

## Left out

- Text.ToLower: lowercases ASCII letters only. JavaScript's full Unicode case mapping (for example of accented capitals) is not modelled. All the fixed data is ASCII.
- The hospital console's `query` and `filterOrgan` state and its setters become parameters of the pure functions. React's `useMemo` caching, `setState` batching and `e.preventDefault()` are framework mechanics, and the model states the transitions directly.
- Strings are sequences of Unicode scalar values, so a lone surrogate code unit cannot be represented. `trim` and `length` are exact for every other string.
- `String(val)` in the search is the identity here, because every searched field is already a string.
- All JSX markup, styling classes, the `urgencyColor` map, the icons, the static donor list, the static alert panel and the donor status-tracker checkmarks are presentation only.
- `src/components/TransparencyDashboard.jsx` is not part of this model. Its chart is floating-point coordinate arithmetic, its counters use locale-dependent formatting, and its flow diagram is static.
- `src/components/Hero.jsx` embeds a third-party 3D scene from a remote URL and static links. `src/App.jsx` only composes the page and reads the current year from the clock. Neither holds logic to model.
