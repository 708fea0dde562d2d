# Beneficiary registry — a Dafny model

This project models the core of a Laravel and React application that a
charity uses to register beneficiaries (pupils). Each beneficiary has a
profile photo and a list of supporting documents. The application also
schedules events and shows statistics dashboards.

The model covers the server side and the front-end helpers.

Server side:
- **Beneficiaries** (`beneficiary.dfy`): the record shape and the `$fillable`
  mass-assignment filter from the Eloquent model. It also states the
  migration's table invariants: a unique `beneficiary_number` and parallel
  document path and name lists.
- **Validation** (`validation.dfy`): the form request. It covers
  `prepareForValidation` trimming and `rules()` as a predicate. The errors
  are a list of field names.
- **Registry** (`registry.dfy`): the beneficiary controller's `store`,
  `update` and `destroy`, as a class that holds the table, the asset store
  and the next id. Its methods change the table and the stored paths in
  place. Whether each file write and the database write succeed is passed
  in, so every failure path is modelled. An update writes only what
  `validated()` returns: a nullable column whose key the request leaves out
  keeps its stored value. The `index` search filter is also here.
- **Statistics** (`statistics.dfy`): the statistics page's counts,
  rounded percentages, age brackets, guardian types and top-5 lists.
- **Events** (`events.dfy`): the event controller over an event table, with
  enum validation.
- **Dashboard** (`dashboard.dfy`): the dashboard's counts and the
  `/api/analytics/monthly` twelve-slot series.

Front end:
- **BeneficiaryForm** (`form.dfy`): initial document previews, adding and
  removing selected documents, the required-field check and the routing of
  server errors into notifications.
- **BeneficiaryView** (`view.dfy`): age calculation and download names.
- **BeneficiaryTable** (`datatable.dfy`): the global filter, the bulk-delete
  selection and the pager guards.
- **EventsPage** (`eventsui.dfy`): the next-upcoming list, the status tabs,
  the same-day list, calendar marking and status badges.
- **Navigation** (`nav.dfy`): the active-link predicate.

Helper modules:
- `wrappers.dfy`: Option and Result.
- `strings.dfy`: PHP and JS trimming, ASCII case mapping, substrings and
  decimal rendering.
- `seqs.dfy`: filtering, counting, grouping and insertion sort.
- `dates.dfy`: calendar dates, whole-year ages, MySQL's `TIMESTAMPDIFF` in years and month abbreviations.

Inputs the source takes from the environment are parameters. These are the
clock (`t`, `now`, today's date, the current year), the success of each file
store and of the database write, the nullable keys an update request
leaves out, `JSON.parse`, the blob URLs and identifiers
made for picked files, and the calendar mapping of a `created_at` timestamp.

The create path has no rollback. When a document store fails, the profile
image and the earlier documents stay on disk with no row referring to them
(`Registry.StoreFailureLeavesFiles`).

The table's text columns compare under a case-insensitive collation. The
model folds case (ASCII letters) wherever the database compares text: the
uniqueness rule and index on `beneficiary_number`, the `GROUP BY` of
addresses and occupations, and the `COUNT(DISTINCT ...)` of parent names.

## Model

| member | source | states |
|---|---|---|
| Beneficiaries.MassAssign | app/Models/Beneficiary.php:9-30 | mass assignment keeps exactly the input keys that are fillable, with their values, and nothing else |
| Beneficiaries.FillableShape | app/Models/Beneficiary.php:9-30 | there are 20 fillable attributes; `id`, `profile_image` and `supporting_documents` are never mass-assigned |
| Beneficiaries.NewRecord | app/Models/Beneficiary.php:38-41 | a new row carries the given fields; a row created without document data gets empty path and name lists, and one without an image gets null image columns |
| Beneficiaries.NumberFreeIgnoresSelf | app/Http/Requests/BeneficiaryFormRequest.php:27-37 | a row's own number passes the update-time uniqueness rule exactly when no other row shares it up to case, and it never passes the create-time rule |
| Beneficiaries.CaseVariantTaken | app/Http/Requests/BeneficiaryFormRequest.php:36 | a stored number in upper or lower case is taken for every row but its owner, since the rule compares case-insensitively |
| Validation.TrimAsWritten | app/Http/Requests/BeneficiaryFormRequest.php:87-92 | the as-written trim always yields a present value, the trim of the input with null read as "" |
| Validation.PrepareAsWrittenTurnsNullIntoEmpty | app/Http/Requests/BeneficiaryFormRequest.php:86-93 | as written, absent father, mother and guardian names reach validation as "", which the optional-name rule accepts |
| Validation.TrimInput | app/Http/Requests/BeneficiaryFormRequest.php:87-92 | trimming keeps absence, and a present value becomes its PHP trim |
| Validation.PrepareKeepsAbsence | app/Http/Requests/BeneficiaryFormRequest.php:84-94 | preparation keeps absent names absent, trims present ones and leaves the untrimmed fields unchanged |
| Validation.PrepareAgreesWhenPresent | app/Http/Requests/BeneficiaryFormRequest.php:84-94 | when every trimmed field is present, the corrected preparation and the as-written one agree |
| Validation.PrepareIdempotent | app/Http/Requests/BeneficiaryFormRequest.php:84-94 | preparing an already prepared request changes nothing |
| Validation.BlankIffTrimsToEmpty | app/Http/Requests/BeneficiaryFormRequest.php:30-41 | a value counts as blank for `required` exactly when it trims to "" |
| Validation.Report | app/Http/Requests/BeneficiaryFormRequest.php:29-53 | a rule reports nothing exactly when it holds, and otherwise reports its field |
| Validation.DocumentErrors | app/Http/Requests/BeneficiaryFormRequest.php:52 | the document errors are empty exactly when every document passes its rule, with at most one error per document |
| Validation.ErrorsEmptyIffPasses | app/Http/Requests/BeneficiaryFormRequest.php:29-53 | the error list is empty exactly when every rule holds |
| Validation.RequiredErrors | app/Http/Requests/BeneficiaryFormRequest.php:30-41 | the seven required fields report nothing exactly when all their rules hold |
| Validation.OptionalErrors | app/Http/Requests/BeneficiaryFormRequest.php:42-51 | the optional fields and the image report nothing exactly when all their rules hold |
| Validation.Validate | app/Http/Requests/BeneficiaryFormRequest.php:24-94 | success exactly when the prepared request passes every rule, and then the validated fields: the request's own values, with the names and number trimmed and absent parent or guardian names kept absent, meeting every rule; otherwise all failing fields |
| Validation.ToFieldsShape | app/Http/Requests/BeneficiaryFormRequest.php:29-53 | the fields built from a passing request satisfy every rule: names of letters and spaces, bounded lengths, the gender enum and a free number |
| Validation.TrimmedShape | app/Http/Requests/BeneficiaryFormRequest.php:87-92 | a trimmed value has no edge whitespace, and trimming it again changes nothing |
| Validation.RejectsDigitInFirstName | app/Http/Requests/BeneficiaryFormRequest.php:30 | a first name containing a digit after trimming is rejected, and `first_name` is among the errors |
| Validation.RejectsOtherGender | app/Http/Requests/BeneficiaryFormRequest.php:39 | a gender other than Male or Female is rejected under `gender` |
| Validation.RejectsLargeImage | app/Http/Requests/BeneficiaryFormRequest.php:51 | a profile image over 2048 KB is rejected under `profile_image` |
| Validation.RejectsLargeDocument | app/Http/Requests/BeneficiaryFormRequest.php:52 | document i over 5120 KB is rejected under `supporting_documents.i` |
| Validation.DocumentErrorReported | app/Http/Requests/BeneficiaryFormRequest.php:52 | a failing document's indexed name is in the full error list |
| Validation.DocumentErrorAt | app/Http/Requests/BeneficiaryFormRequest.php:52 | a failing document is reported under its own position in the submission |
| Validation.UpdateKeepsOwnNumber | app/Http/Requests/BeneficiaryFormRequest.php:27-37 | with unique numbers, a record may keep its own number on update but could not be created again with it |
| Registry.DocumentPaths | app/Http/Controllers/BeneficiaryController.php:99-112 | one path per submitted document, in order, each under the beneficiary's folder and named after its own file |
| Registry.DocumentNames | app/Http/Controllers/BeneficiaryController.php:99-112 | one name per submitted document, in order, each its own original file name |
| Registry.UpdatedRow | app/Http/Controllers/BeneficiaryController.php:217-282 | an updated row keeps its id and creation time and takes the merged fields; the image columns change only when an image is sent, and the document lists only when documents are sent; parallel lists stay parallel |
| Registry.MergedFields | app/Http/Controllers/BeneficiaryController.php:217-282 | `update(validated())` always writes the seven required columns from the validated fields |
| Registry.MergedColumns | app/Http/Controllers/BeneficiaryController.php:217-282 | a nullable column whose key the request omits keeps its stored value, every other one takes the validated value, and a request carrying every key overwrites them all |
| Registry.MergedKeepsShape | app/Http/Requests/BeneficiaryFormRequest.php:30-41 | keeping omitted nullable columns preserves every validation rule the merged fields satisfied |
| Registry.Registry.constructor | database/migrations/2025_05_05_083952_create_beneficiaries_table.php:14-37 | an empty table and store whose invariant holds: unique numbers and parallel document lists |
| Registry.Registry.StoreDocuments | app/Http/Controllers/BeneficiaryController.php:94-124 | the loop succeeds exactly when every document is stored; the disk gains exactly the documents stored before a failure; on success the lists are the documents' paths and names in order |
| Registry.Registry.DeleteAll | app/Http/Controllers/BeneficiaryController.php:249-257 | exactly the given paths leave the store |
| Registry.Registry.Store | app/Http/Controllers/BeneficiaryController.php:57-176 | invalid input changes nothing; otherwise a row is created exactly when every store and the insert succeed, with the next id and the stored paths and names; any failure leaves the table alone while the files already written stay |
| Registry.Registry.CreateValidated | app/Http/Controllers/BeneficiaryController.php:63-142 | for validated fields, the same creation outcome, disk and table as `Store` |
| Registry.Registry.Update | app/Http/Controllers/BeneficiaryController.php:212-295 | an unknown id or invalid input changes nothing; otherwise the row is replaced by the merged row (omitted nullable keys keep their columns) exactly when every store and the write succeed, and the disk is the old one with replaced files removed and new ones added |
| Registry.Registry.UpdateValidated | app/Http/Controllers/BeneficiaryController.php:217-286 | for validated fields and the request's omitted keys, the update outcome, the new disk and the new merged row, with the table's invariant kept |
| Registry.Registry.Destroy | app/Http/Controllers/BeneficiaryController.php:303-328 | an unknown id changes nothing; otherwise the image and the number's document folder leave the store, and the row goes exactly when the delete succeeds |
| Registry.CreatedRowShape | app/Http/Controllers/BeneficiaryController.php:84-128 | a created row has an image path exactly when an image was sent, and equal-length document lists whose entry i comes from the i-th submitted file |
| Registry.StoreFailureLeavesFiles | app/Http/Controllers/BeneficiaryController.php:66-124 | after a failed document store, the image and every document stored before it remain, and nothing is removed |
| Registry.StoreAddsExactlyItsFiles | app/Http/Controllers/BeneficiaryController.php:66-128 | a successful create adds exactly the image path and the document paths to the store |
| Registry.UpdateWithoutFilesKeepsDisk | app/Http/Controllers/BeneficiaryController.php:238-280 | an update sending no image and no documents leaves the store unchanged |
| Registry.ProfileIsNotDocument | app/Http/Controllers/BeneficiaryController.php:80-105 | a profile path is never a document path |
| Registry.UpdateReplacesImage | app/Http/Controllers/BeneficiaryController.php:221-237 | a new image removes the old image path from the store and, when the request succeeds, adds the new one |
| Registry.UpdateImageFailureLosesOldImage | app/Http/Controllers/BeneficiaryController.php:221-234 | the old image is deleted before the new one is stored, so a failed store loses it |
| Registry.UpdateReplacesDocuments | app/Http/Controllers/BeneficiaryController.php:247-275 | new documents are all stored, and an old document survives only when a new one has the same path |
| Registry.DestroyRemovesExactlyItsFiles | app/Http/Controllers/BeneficiaryController.php:305-315 | destroy keeps a path exactly when it is neither the row's image nor under the row's document folder |
| Registry.FoldersDisjoint | app/Http/Controllers/BeneficiaryController.php:312 | two different slash-free numbers have disjoint document folders |
| Registry.RenamedRowOrphansDocuments | app/Http/Controllers/BeneficiaryController.php:262-315 | documents stored under the old number survive destroying a renamed row, yet the row still refers to them |
| Registry.NestedNumberLosesDocuments | app/Http/Controllers/BeneficiaryController.php:312-315 | destroying a row also deletes the documents of any number that extends it with "/" |
| Registry.Search | app/Http/Controllers/BeneficiaryController.php:24-33 | with no search term every row is kept; otherwise exactly the rows whose first name, last name, number or address contains the term |
| Registry.SearchIgnoresCase | app/Http/Controllers/BeneficiaryController.php:26-32 | the search result does not depend on the case of the term |
| Statistics.TotalParents | app/Http/Controllers/StatisticsController.php:16-18 | the number of records with a father or mother name, at most the total, zero exactly when none has one |
| Statistics.TotalGuardians | app/Http/Controllers/StatisticsController.php:19 | the number of records with a guardian name, at most the total, zero exactly when none has one |
| Statistics.CompleteProfiles | app/Http/Controllers/StatisticsController.php:22-24 | the number of records with an image path and a non-null document list (an empty list counts), at most the total |
| Statistics.ProfilesWithDocuments | app/Http/Controllers/StatisticsController.php:21-24 | the records with an image and at least one document: never more than the complete profiles, and as many when no record holds an empty list |
| Statistics.DocumentsAgreeWithoutEmptyLists | app/Http/Controllers/StatisticsController.php:22-24 | without empty document lists, the two counts agree |
| Statistics.AsWrittenImageOnlyIsComplete | app/Models/Beneficiary.php:38-41 | a record created with an image and no documents gets the empty-list default and counts as complete, with no document |
| Statistics.Percent | app/Http/Controllers/StatisticsController.php:25-27 | zero for an empty total, otherwise the integer nearest 100·part/total, halves rounded up |
| Statistics.PercentUnique | app/Http/Controllers/StatisticsController.php:25-27 | that rounding has exactly one answer |
| Statistics.PercentBounds | app/Http/Controllers/StatisticsController.php:25-27 | a part of a total gives a percentage between 0 and 100, and the whole gives 100 |
| Statistics.DocumentCompletion | app/Http/Controllers/StatisticsController.php:21-27 | the rounded share of complete profiles, at most 100, and 0 with no records |
| Statistics.GuardianCoverage | app/Http/Controllers/StatisticsController.php:89-92 | the rounded share of records with a guardian, at most 100, and 0 with no records |
| Statistics.GroupBy | app/Http/Controllers/StatisticsController.php:51-53 | one group per occurring key, no key twice, each with its true positive count, every row's key covered, and the counts adding up to the number of rows |
| Statistics.SortedKeys | routes/web.php:118-119 | exactly the keys that occur, in ascending order, each once |
| Statistics.Ranked | app/Http/Controllers/StatisticsController.php:44-46 | the groups in non-increasing count order, as a permutation of the grouping |
| Statistics.RankedGroups | app/Http/Controllers/StatisticsController.php:44-46 | ranking keeps every group and each group's true count |
| Statistics.RankedKeysDistinct | app/Http/Controllers/StatisticsController.php:44-46 | ranking never lists a key twice |
| Statistics.Top | app/Http/Controllers/StatisticsController.php:44-48 | at most n groups, no key twice, in non-increasing order, each with its true count |
| Statistics.TopKeepsLargest | app/Http/Controllers/StatisticsController.php:44-48 | a group left out of the top n is no larger than each group kept, of which there are n |
| Statistics.MostCommon | app/Http/Controllers/StatisticsController.php:77-80 | none exactly for no rows; otherwise a key whose count is at least every row's group count |
| Statistics.RankedFirstIsLargest | app/Http/Controllers/StatisticsController.php:77-80 | the first ranked group is as large as any |
| Statistics.LocationData | app/Http/Controllers/StatisticsController.php:44-48 | at most five address groups, case variants merged, no address twice, in non-increasing count order, each with its true positive count |
| Statistics.CaseVariantsShareLocation | app/Http/Controllers/StatisticsController.php:44-46 | two records whose addresses differ only in case fall in one group of at least two |
| Statistics.OccupationData | app/Http/Controllers/StatisticsController.php:69-74 | at most five occupations, case variants merged, none twice, in non-increasing order, each counted over the records holding it, so null occupations are never counted |
| Statistics.OccupationCount | app/Http/Controllers/StatisticsController.php:69-71 | grouping non-null occupations counts exactly the records holding that occupation, up to case |
| Statistics.MostCommonLocation | app/Http/Controllers/StatisticsController.php:77-80 | none exactly for no records; otherwise an address group with its true count, at least every record's group count |
| Statistics.MostCommonOccupation | app/Http/Controllers/StatisticsController.php:83-87 | none exactly when no record has an occupation; otherwise an occupation with its true count, at least the count of every record's occupation |
| Statistics.MostCommonOccupationIsLargest | app/Http/Controllers/StatisticsController.php:83-87 | the largest group among the records with an occupation is the largest over the whole table |
| Statistics.GenderData | app/Http/Controllers/StatisticsController.php:51-53 | one row per gender present and no gender twice, each with its true positive count, adding up to the total |
| Statistics.BracketOf | app/Http/Controllers/StatisticsController.php:31-37 | each age falls in exactly the bracket of its range, with negative and over-20 ages in "21+" |
| Statistics.LabelsDistinct | app/Http/Controllers/StatisticsController.php:32-36 | different brackets have different labels |
| Statistics.AgeDistribution | app/Http/Controllers/StatisticsController.php:30-41 | one row per occurring bracket of the `TIMESTAMPDIFF` age and no bracket twice, each with its true positive count, adding up to the total |
| Statistics.RowBracketByBirth | app/Http/Controllers/StatisticsController.php:31-36 | a past birth date is bracketed by the age the view shows; a birth date less than a year ahead falls in "0-5", one further ahead in "21+" |
| Statistics.GuardianTypeOf | app/Http/Controllers/StatisticsController.php:57-62 | Both Parents iff both parent names are set, Single Parent iff exactly one is, Guardian iff only a guardian is, Other iff none is |
| Statistics.GuardianTypeData | app/Http/Controllers/StatisticsController.php:56-66 | one row per occurring guardian type and no type twice, each with its true positive count, adding up to the total |
| Statistics.ParentsAreTwoTypes | app/Http/Controllers/StatisticsController.php:16-59 | the parents count equals the Both Parents count plus the Single Parent count |
| Statistics.AsWrittenParentlessCountsAsBothParents | app/Http/Requests/BeneficiaryFormRequest.php:86-93 | as written, a request with no parent names is stored with "" names and counted as Both Parents |
| Statistics.ParentlessCountsByGuardian | app/Http/Controllers/StatisticsController.php:57-62 | with absence kept, the stored record's type follows which names were actually sent |
| Events.EventErrors | app/Http/Controllers/EventController.php:35-43 | no errors exactly when every event rule holds |
| Events.ValidateEvent | app/Http/Controllers/EventController.php:35-43 | success exactly when every rule holds, carrying the seven given values with a type of current or upcoming; failure carries the non-empty error list |
| Events.NoMeetingsOrActivities | app/Http/Controllers/EventController.php:40 | an event typed `meeting` or `activity` is always rejected under `type` |
| Events.Overwrite | app/Http/Controllers/EventController.php:81 | the event keeps its id and creation time and takes all seven validated values |
| Events.NewEvent | app/Http/Controllers/EventController.php:45 | a new event carries the seven validated values, its id and its creation time |
| Events.EventTable.Store | app/Http/Controllers/EventController.php:33-48 | invalid input leaves the table unchanged; valid input adds exactly one event under a fresh id |
| Events.EventTable.Update | app/Http/Controllers/EventController.php:69-84 | an unknown id or invalid input leaves the table unchanged; otherwise only that event is overwritten with the validated values |
| Events.EventTable.UpdateStatus | app/Http/Controllers/EventController.php:89-98 | only that event's status changes, and only to an allowed status |
| Events.EventTable.Destroy | app/Http/Controllers/EventController.php:103-107 | exactly the given event is removed |
| Dashboard.Latest | routes/web.php:17-18 | the first n items, or all of them, newest first, drawn from the input |
| Dashboard.LatestKeepsNewest | routes/web.php:17-18 | an item left out is no newer than each of the n kept |
| Dashboard.RecentEvents | routes/web.php:17 | at most five events, newest first |
| Dashboard.RecentBeneficiaries | routes/web.php:18 | at most four beneficiaries, newest first |
| Dashboard.MalePupils | routes/web.php:22 | the number of records whose gender is `male` in any case (the length of their filter), zero exactly when there are none |
| Dashboard.FemalePupils | routes/web.php:23 | the number of records whose gender is `female` in any case (the length of their filter), zero exactly when there are none |
| Dashboard.ValidatedGendersSplit | routes/web.php:21-23 | with validated genders, male and female counts add up to the total |
| Dashboard.UpcomingEvents | routes/web.php:34-36 | the number of events dated inside the week window (the length of their filter), zero exactly when there are none |
| Dashboard.UpcomingMeetings | routes/web.php:38-41 | the number of events typed `meeting` (in any case) dated inside the thirty-day window, zero exactly when there are none |
| Dashboard.UpcomingActivities | routes/web.php:43-46 | the number of events typed `activity` (in any case) dated inside the week window, zero exactly when there are none, never more than the upcoming events |
| Dashboard.ValidatedEventsHaveNoMeetings | routes/web.php:38-46 | since the event form accepts only current and upcoming, the meetings and activities figures are always zero |
| Dashboard.TodayIsNotUpcoming | routes/web.php:34-36 | an event dated today is no longer counted once midnight has passed, since its date is compared at midnight |
| Dashboard.Tally | routes/web.php:110-121 | one row per month key, with that month's row count and parent count |
| Dashboard.SortedMonths | routes/web.php:118-119 | exactly the months that occur, ascending, each once |
| Dashboard.FirstTwelveMonths | routes/web.php:118-120 | at most twelve occurring months, ascending, each once; an occurring month is left out only when twelve months no later than it are kept |
| Dashboard.FirstKeys | routes/web.php:118-120 | for any rows and month key, the first `n` distinct months in ascending order all occur, and a month that occurs is left out only when `n` months no later than it are kept |
| Dashboard.MonthlyData | routes/web.php:110-121 | at most twelve rows, ascending by month, each with its month's positive count and its number of distinct parent pairs |
| Dashboard.MonthlyDataComplete | routes/web.php:118-120 | no month appears twice, and an occurring month is missing only when twelve rows no later than it fill the result |
| Dashboard.TallyRows | routes/web.php:110-119 | each tallied row carries its own month, and a month has a row exactly when it is among the keys |
| Dashboard.Labelled | routes/web.php:122-130 | one entry per aggregated row, labelled by its month's abbreviation and dated on its first day |
| Dashboard.FirstLabelled | routes/web.php:138 | the first entry with the abbreviation, or the end when there is none |
| Dashboard.SlotFor | routes/web.php:135-146 | a slot carries its month's label and first day of the current year; zero figures when no entry has the label; otherwise the first matching entry's figures |
| Dashboard.MonthlySeries | routes/web.php:133-146 | exactly twelve slots, January to December |
| Dashboard.SlotsInOrder | routes/web.php:135-142 | earlier months' slots come first and are labelled differently |
| Dashboard.SlotTakesEarliestYear | routes/web.php:118-138 | the aggregated row that fills a slot is the earliest-year row of that month |
| Dashboard.EarlierYearFillsSlot | routes/web.php:110-146 | as written, a January 2024 row fills the January slot of 2025 |
| Dashboard.MonthlyDataForYear | routes/web.php:110-134 | restricted to the current year: rows ascending, each of that year and with that month's positive count and parents |
| Dashboard.TallyOfOccurring | routes/web.php:118-119 | tallying the occurring months gives rows ascending by month, each with a positive count |
| Dashboard.MonthlyDataForYearCovers | routes/web.php:110-119 | every month of the year with a record has a row |
| Dashboard.SlotCountsItsMonth | routes/web.php:110-146 | with the year filter, each slot shows the number of records created in that month of that year |
| Dashboard.YearSlotCounts | routes/web.php:135-146 | the slot for month m counts the records of month m of the year |
| Dashboard.TallySlot | routes/web.php:135-146 | the slot read from a tally of same-year months counts that month's rows |
| Dashboard.TallyRowsOfMonth | routes/web.php:113-118 | every tallied row of that month carries that month's count |
| Dashboard.YearFilterKeepsMonth | routes/web.php:110-118 | filtering by year keeps the count of each month of that year |
| Dashboard.SlotReadsMonth | routes/web.php:138-144 | a slot whose month has a single row of that year shows that row's count |
| Dates.Age | resources/js/pages/beneficiaries/view.tsx:37-48 | the largest n whose anniversary has been reached by today |
| Dates.YearsBetween | app/Http/Controllers/StatisticsController.php:32 | `TIMESTAMPDIFF(YEAR, ...)`: the whole years reached going forward, or their negation going backward |
| Dates.YearsBetweenAntisymmetric | app/Http/Controllers/StatisticsController.php:32 | swapping the two dates negates the difference |
| Dates.YearsBetweenAndAge | app/Http/Controllers/StatisticsController.php:32 | for a past birth date it equals the view's age; for one less than a year ahead it is 0 where the view's age is -1 |
| Dates.AgeUnique | resources/js/pages/beneficiaries/view.tsx:37-48 | only one number satisfies that definition |
| Dates.AgeNonNegative | resources/js/pages/beneficiaries/view.tsx:37-48 | a birth date not after today gives a non-negative age |
| Dates.AgeOnBirthday | resources/js/pages/beneficiaries/view.tsx:40-45 | on the birthday the age is the plain year difference |
| Dates.OrdinalOrder | resources/js/components/events/EventsList.tsx:25 | ordering dates by their key agrees with calendar order, and equal keys mean equal dates |
| Dates.MonthAbbrev | routes/web.php:137 | every month label has three letters |
| Dates.MonthAbbrevInjective | routes/web.php:137-138 | different months have different labels |
| BeneficiaryForm.StoredList | resources/js/pages/beneficiaries/beneficiariesForm.tsx:107-113 | a null, empty or blank text yields no entries, other text the parsed list, and an array cannot be read |
| BeneficiaryForm.ColumnOf | app/Models/Beneficiary.php:32-41 | a document column arrives null when absent, as the empty-array default when empty, and as its encoded text otherwise |
| BeneficiaryForm.StoredListRoundTrip | app/Http/Controllers/BeneficiaryController.php:114-115 | a non-empty stored list is read back as itself |
| BeneficiaryForm.EmptyDefaultUnreadable | app/Models/Beneficiary.php:38-41 | the empty-list default cannot be read by the form |
| BeneficiaryForm.DocumentName | resources/js/pages/beneficiaries/beneficiariesForm.tsx:119 | the stored name when non-empty, else the path's last segment, else "document", never empty |
| BeneficiaryForm.StoredPreview | resources/js/pages/beneficiaries/beneficiariesForm.tsx:117-122 | a stored document's preview is identified by its path, served from `/storage/`, not new, with its display name |
| BeneficiaryForm.InitialPreviews | resources/js/pages/beneficiaries/beneficiariesForm.tsx:106-130 | the error toast shows exactly when a truthy path column or the name column is an array, and then no preview is built; otherwise one preview per stored path, in order, none for a falsy column |
| BeneficiaryForm.SelectFiles | resources/js/pages/beneficiaries/beneficiariesForm.tsx:147-160 | picked files go after those already selected, and their new previews after the existing ones, which are kept |
| BeneficiaryForm.FindPreview | resources/js/pages/beneficiaries/beneficiariesForm.tsx:163 | none exactly when no preview has the id; otherwise a preview with that id, and the head when the head matches |
| BeneficiaryForm.RemoveDocument | resources/js/pages/beneficiaries/beneficiariesForm.tsx:162-173 | exactly the previews with the id go, in order; the found preview's file leaves the selection, which is otherwise unchanged |
| BeneficiaryForm.SelectThenRemove | resources/js/pages/beneficiaries/beneficiariesForm.tsx:147-173 | picking a file and removing it again restores the previous state |
| BeneficiaryForm.FindAppended | resources/js/pages/beneficiaries/beneficiariesForm.tsx:163 | a newly appended preview with a fresh id is the one found |
| BeneficiaryForm.MissingFields | resources/js/pages/beneficiaries/beneficiariesForm.tsx:189-199 | exactly the required fields that are empty |
| BeneficiaryForm.SubmitBlockedIff | resources/js/pages/beneficiaries/beneficiariesForm.tsx:199-206 | submit is blocked exactly when some required field is empty |
| BeneficiaryForm.Lookup | resources/js/pages/beneficiaries/beneficiariesForm.tsx:276-290 | none exactly when the key is absent; otherwise a message stored under it |
| BeneficiaryForm.OtherMessages | resources/js/pages/beneficiaries/beneficiariesForm.tsx:313-315 | the messages of the keys the form does not handle itself, in order |
| BeneficiaryForm.Notice | resources/js/pages/beneficiaries/beneficiariesForm.tsx:298-310 | one prefixed notice for a truthy message, none otherwise |
| BeneficiaryForm.OwnNotices | resources/js/pages/beneficiaries/beneficiariesForm.tsx:289-310 | one notice each for the truthy number, image and documents messages, in that order: the number's message as is, then "Profile image: " and "Supporting documents: " before theirs |
| BeneficiaryForm.Notifications | resources/js/pages/beneficiaries/beneficiariesForm.tsx:276-323 | an `error` message alone when present; otherwise the own notices first, followed by one summary of the other messages |
| BeneficiaryForm.ErrorHidesLaterEntries | resources/js/pages/beneficiaries/beneficiariesForm.tsx:280-287 | once `error` is present, later entries change nothing shown |
| BeneficiaryView.CalculateAge | resources/js/pages/beneficiaries/view.tsx:37-48 | computes the whole-year age of the definition: the plain difference on the birthday, and non-negative for a past birth date |
| BeneficiaryView.DownloadName | resources/js/pages/beneficiaries/view.tsx:66 | the path's last segment, or "document" when it is empty; never empty and never containing "/" |
| BeneficiaryView.DocumentList | resources/js/pages/beneficiaries/view.tsx:62 | a falsy column gives no documents, a text the parsed list, and an array throws |
| BeneficiaryView.Downloads | resources/js/pages/beneficiaries/view.tsx:61-71 | one download per stored path, in order, linked at "/" + path with its download name; none when the column cannot be read |
| BeneficiaryView.PagesReadTextAlike | resources/js/pages/beneficiaries/view.tsx:62 | the detail page and the form read a non-blank text column into the same list |
| BeneficiaryView.DownloadNameMatchesPreview | resources/js/pages/beneficiaries/view.tsx:66 | without a stored name, the download name and the preview name agree |
| BeneficiaryTable.RowOf | resources/js/components/beneficiary/data-table.tsx:80 | a stored record shows all five searched columns as present values |
| BeneficiaryTable.NullFieldsNeverMatch | resources/js/components/beneficiary/data-table.tsx:83-87 | a row whose searched columns are all null matches no query |
| BeneficiaryTable.QueryCaseIrrelevant | resources/js/components/beneficiary/data-table.tsx:79-87 | upper- or lower-casing the query does not change the match |
| BeneficiaryTable.EmptyQueryKeepsRows | resources/js/components/beneficiary/data-table.tsx:79-87 | the filter function itself accepts the empty query for every row with a first name |
| BeneficiaryTable.NullRowShownOnlyUnfiltered | resources/js/components/beneficiary/data-table.tsx:79-87 | a row with all searched columns null is shown exactly while the search is empty |
| BeneficiaryTable.EmptyQueryShowsAll | resources/js/components/beneficiary/data-table.tsx:64-101 | with an empty search every row is shown |
| BeneficiaryTable.StoredRowFoundByName | resources/js/components/beneficiary/data-table.tsx:83 | a record is found by any case-insensitive part of its first name |
| BeneficiaryTable.SelectedIds | resources/js/components/beneficiary/data-table.tsx:114-117 | exactly the ids of the selected rows that are shown: all of them for an empty search, else those passing the filter |
| BeneficiaryTable.EmptySearchDeletesSelection | resources/js/components/beneficiary/data-table.tsx:114-117 | with no query, exactly the selected rows are deleted |
| BeneficiaryTable.PagerStaysInRange | resources/js/components/beneficiary/data-table.tsx:252-268 | from a page in range an enabled Previous or Next asks for a neighbouring page in range; from a page past the last, Next stays enabled and asks for a page further out |
| EventsPage.Earliest | resources/js/components/events/EventsList.tsx:23-26 | the first n items, or all, in ascending key order, drawn from the input |
| EventsPage.EarliestKeepsLeast | resources/js/components/events/EventsList.tsx:25-26 | an item left out is no earlier than each of the n kept |
| EventsPage.NextUpcoming | resources/js/components/events/EventsList.tsx:23-26 | at most two upcoming events of the input, ascending by date |
| EventsPage.NextUpcomingKeepsEarliest | resources/js/components/events/EventsList.tsx:23-26 | an upcoming event left out is no earlier than both shown |
| EventsPage.NextUpcomingInDateOrder | resources/js/components/events/EventsList.tsx:25 | the two shown events are in calendar order |
| EventsPage.FewUpcomingAllShown | resources/js/components/events/EventsList.tsx:26 | with two or fewer upcoming events, all of them are shown |
| EventsPage.WithStatus | resources/js/pages/Events.tsx:499-501 | exactly the events with that status, as many as have it |
| EventsPage.TabsDisjoint | resources/js/pages/Events.tsx:499-501 | no event is in two tabs, and one with another status is in none |
| EventsPage.TabsPartition | resources/js/pages/Events.tsx:499-501 | with allowed statuses, the three tabs together hold every event once |
| EventsPage.DayEvents | resources/js/pages/Events.tsx:503-510 | nothing without a picked day; otherwise exactly the events of that day, in order |
| EventsPage.MarkedIffListed | resources/js/pages/Events.tsx:163-167 | a calendar day is marked exactly when its event list is non-empty |
| EventsPage.StatusBadge | resources/js/pages/Events.tsx:272 | the status with its first letter upper-cased and the rest unchanged |
| Navigation.ActiveIffContains | resources/js/components/nav-main.tsx:14-16 | a link other than "/" is active exactly when its href occurs in the url |
| Navigation.RootActiveIffAbsolute | resources/js/components/nav-main.tsx:14-16 | the "/" link is active exactly on urls starting with "/" |
| Navigation.AbsentLinkInactive | resources/js/components/nav-main.tsx:14-16 | a link whose href does not occur in the url is inactive |
| Navigation.InfixHighlights | resources/js/components/nav-main.tsx:14-16 | `/events` is highlighted on `/beneficiaries/events`, which does not start with it |

## Left out

- File contents, the public disk and `Storage::exists` are left out. The asset store is a set of paths, and each write's success is a parameter.
- JSON encoding and decoding are parameters. Document lists are sequences in the table. In the front end a column is null, a text or the empty-array default. `JSON.parse` of a text is a parameter: its exceptions on malformed text and the `Array.isArray` check are not modelled.
- SQL specifics are not modelled as such. `LIKE` is a case-insensitive substring test with ASCII case folding, and the `%`/`_` wildcards in a search term are not interpreted. Group order among equal counts follows the model's stable sort, not the database's. `paginate(10)` and `latest()` ordering of the list page are left out.
- Time is a parameter: `time()`, `now()`, today's date, the current year and the calendar date of a `created_at` value. `now()->addDays(n)` is passed in as a moment. The `date` column is treated as a date compared at midnight.
- PHP `round()` over floats is modelled as integer rounding half up on non-negative values.
- JS `Date` parsing and time-zone shifts are left out; dates are (year, month, day) triples.
- Logging, redirects, flash messages, toasts and their styling, Inertia rendering, DOM downloads and `fetch` are left out. Object URLs and preview identifiers for picked files are parameters.
- Authentication middleware is left out. So are the routes to document actions that the beneficiary controller does not define (routes/web.php:97-106).
- The Event model and its migration are not part of this model. The event record shape is taken from the event controller's validation rules.
- Registry.Registry.Store: one timestamp `t` stands for every `time()` call of the request, so the image and document file names share one second; calls falling in different seconds are not modelled.
- Validation.Validate: uses the corrected preparation, which keeps absent names absent; the code's `trim(null)` turns them into "" (see Findings), and that stored "" is not modelled here.
- Registry.Registry.Store: validates with the corrected preparation, like `Validate`.
- Registry.Registry.Update: validates with the corrected preparation, like `Validate`.
- Registry.Registry.Update: one timestamp `t` names the new image and every new document; the separate `time()` calls, which may fall in different seconds, are not modelled.
- Beneficiaries.NumberFreeIgnoresSelf: folds ASCII case only; the database collation also equates accented letters with their base letters and ignores trailing spaces.
- Statistics.LocationData: groups fold ASCII case only, and a merged group is labelled with its lower-case form, where the database shows one of the group's own spellings.
- Statistics.OccupationData: folds case like `LocationData`, with the same labelling difference.
- Statistics.MostCommonLocation: folds case like `LocationData`, with the same labelling difference.
- Statistics.MostCommonOccupation: folds case like `LocationData`, with the same labelling difference.
- Statistics.GenderData: groups genders by exact value; the collation would merge case variants, which the `in:Male,Female` rule never lets in.
- The parent pairs of the monthly query fold ASCII case only, like the number rule.
- BeneficiaryTable.QueryCaseIrrelevant: `toLowerCase` maps all of Unicode, while the model folds ASCII letters only.
- The table skips the global filter for an empty search, as modelled. It also skips it when no column can be globally filtered, which is not modelled.
- Statistics.DocumentCompletion: keeps the page's count, in which an empty document list counts as complete; the count of profiles with documents is `ProfilesWithDocuments` (see Findings).
- Dashboard.MonthlyDataForYear: the corrected monthly query filters by the current year and does not keep the `limit(12)`, which a single year's months never exceed.
- BeneficiaryForm.FindPreview: states that the result is a preview with the id, and the head when the head matches, rather than "the first match" at every position.
- BeneficiaryForm.MissingFields: states which fields are missing, not their declaration order.

## Findings

| source | as written | input that shows it | evidently intended | confidence | as-written member | corrected member |
|---|---|---|---|---|---|---|
| app/Http/Requests/BeneficiaryFormRequest.php:86-93 | `trim(null)` is "", so absent father, mother and guardian names are stored as "" rather than null; the statistics then count a parentless child as "Both Parents" | a valid request with no father, mother or guardian name | absent names stay absent, and such a record counts as "Other" | not executed | Statistics.AsWrittenParentlessCountsAsBothParents | Statistics.ParentlessCountsByGuardian |
| routes/web.php:110-146 | the monthly query has no year filter, and slots are matched by month abbreviation only, so the current year's slot shows the earliest year's figures | records created in January 2024 and January 2025, viewed in 2025 | each slot counts the records of that month of the current year | not executed | Dashboard.EarlierYearFillsSlot | Dashboard.SlotCountsItsMonth |
| app/Http/Controllers/StatisticsController.php:22-24 | `whereNotNull('supporting_documents_paths')` also counts the model's empty-list default, so a profile with an image and no document counts as complete | a record created with a profile image and no supporting documents | a profile is complete when it has an image and at least one document | not executed | Statistics.AsWrittenImageOnlyIsComplete | Statistics.ProfilesWithDocuments |
