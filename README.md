# EMR terminology demo: a Dafny model

The modelled system is a small electronic-medical-records demo. Patients log in with an ABHA
number (the 14-digit Indian health ID, written `DD-DDDD-DDDD-DDDD`) and confirm with a
one-time password. Traditional-medicine diagnoses coded in NAMASTE are mapped to ICD-11
(TM2 and biomedicine codes). The mappings travel inside HL7 FHIR R4 Bundles, ConceptMaps and
CodeSystems. This project models the core of that system in Dafny 4.11 and proves
properties of the model.

The model covers:

- **The three mapping scripts.** mapDiseasesUnique.js groups rows by exact disease name and
  pairs them cyclically. mapDiseasesUpdated.js and scripts/mapDiseases.js keep the best fuzzy
  match above a threshold of 70. All three have a `searchDisease`.
- **The Express API of app.js.** This covers the rate-limited patient lookup and its ordered
  checks, and the FHIR Bundle upload. The upload extracts condition codes, backfills them
  from the disease mappings, and upserts the patient record. It also covers the NAMASTE CSV
  upload and the reset.
- **The client services.** src/services/patientApi.js holds the ABHA checks and the
  formatter. src/services/mockApi.js is the in-browser mock backend.
- **The pages.** These are the login page, the OTP dialog, the mapping tool (search,
  selection, mapped results, generated Bundle, ConceptMap, CodeSystem), the record viewer,
  the dashboard and the analytics page.

Code that changes state step by step is modelled as classes: the server, the login page, the
OTP dialog, the selection, the dashboard, the analytics page and the mock backend. The
loops of the scripts and of the server are methods proved against specification functions.
Pure computations are functions with lemmas. A clock, `Math.random`, environment variables
and the fuzzy scorer `fuzzball.ratio` are parameters.

One module per source file (`Abha`, `Login`, `Otp`, `UniqueMapping`, `UpdatedMapping`,
`ScriptMapping`, `Backend`, `MockApi`, `MappingTool`, `RecordViewing`, `Dashboard`,
`Analytics`). These share `Wrappers`, `Text`, `Seqs`, `Fhir`, `Terminology`,
`DiseaseSearch` and `FuzzyMatch`.

## Model

| member | source | states |
|---|---|---|
| Abha.GroupedFacts | src/services/patientApi.js:49 | grouping 14 or more digits inserts dashes at positions 2, 7 and 12, keeps every other character a digit, and loses no digit |
| Abha.FormatKeepsDigits | src/services/patientApi.js:47-50 | the formatter neither drops, adds nor reorders digits: the digits of its result are the digits of its input |
| Abha.FormatLength | src/services/patientApi.js:47-50 | fewer than 14 digits come back bare; otherwise the result is three characters longer than the digits |
| Abha.FormatFourteenIsValid | src/services/patientApi.js:37-50 | any input with exactly 14 digits formats to a string the ABHA check accepts |
| Abha.FormatIdempotent | src/services/patientApi.js:47-50 | formatting a formatted value changes nothing |
| Abha.FormatAllDigits | src/services/patientApi.js:47-50 | fourteen bare digits are grouped 2-4-4-4 |
| Abha.FormatSameDigits | src/services/patientApi.js:47-50 | two inputs with the same digits format alike |
| Abha.FormatIgnoresNonDigit | tests/patientApi.test.js:71-73 | a non-digit anywhere in the input, such as a typed dash, does not change the result |
| Abha.ValidHasFourteenDigits | app.js:337-340 | the digits of a valid ABHA number are its four groups joined |
| Abha.ValidIsGrouped | app.js:337-340 | a valid ABHA number has 14 digits and is their 2-4-4-4 grouping |
| Abha.ValidIffFormatted | src/services/patientApi.js:37-50 | a string passes the ABHA check iff it carries 14 digits and is a fixed point of the formatter (both directions) |
| Abha.ValidExamples | tests/patientApi.test.js:55-63 | the accepted and rejected IDs of the tests, and the 'invalid-id' of the API tests |
| Abha.GroupedExample | tests/patientApi.test.js:68 | "12345678901234" groups to "12-3456-7890-1234" |
| Abha.FormatCleanExample | tests/patientApi.test.js:67-69 | the formatter turns "12345678901234" into "12-3456-7890-1234" |
| Login.StorableShape | src/pages/Login.jsx:50-55 | a value the field can hold has at most 14 digits, and it has 17 characters iff it is a valid ABHA number |
| Login.LoginPage.constructor | src/pages/Login.jsx:8-11 | the page starts with an empty field and error, the dialog closed |
| Login.LoginPage.HandleAbhaIdChange | src/pages/Login.jsx:43-55 | the formatted value is stored when it has at most 17 characters, else the field keeps its old value; the field always stays storable |
| Login.LoginPage.HandleSubmit | src/pages/Login.jsx:15-30 | a value shorter than 17 characters sets the error and leaves the dialog alone; a full one clears the error, opens the dialog and is a valid ABHA number |
| Login.LoginPage.HandleOtpVerify | src/pages/Login.jsx:32-41 | a successful login navigates to the dashboard; a failed one shows its message and closes the dialog |
| Otp.TicksFromRunning | src/components/OTPModal.jsx:56-65 | a running countdown at t shows t - n after n < t seconds, and after t seconds it stops at 0 with the resend button shown |
| Otp.ResendAfterThirtySeconds | src/components/OTPModal.jsx:45-65 | after opening, the resend button appears exactly once 30 seconds have passed |
| Otp.StoppedStaysPut | src/components/OTPModal.jsx:58-61 | a countdown whose interval is cleared never changes again |
| Otp.ResendAsWrittenStalls | src/components/OTPModal.jsx:90-100 | as written, a resend hides the button for good: the timer shows 30 forever |
| Otp.ResendFixedReturns | src/components/OTPModal.jsx:90-100 | with the countdown restarted, the button returns exactly 30 seconds after a resend |
| Otp.NatToStringLength | src/components/OTPModal.jsx:49 | a number with k + 1 decimal digits renders as k + 1 characters |
| Otp.GenerateOtp | src/components/OTPModal.jsx:49 | every draw gives exactly six decimal digits |
| Otp.OtpModal.constructor | src/components/OTPModal.jsx:4-9 | the dialog starts closed and empty, with the countdown at 30 and stopped |
| Otp.OtpModal.Open | src/components/OTPModal.jsx:40-69 | opening resets input and error, stores the new six-digit OTP and starts the countdown at 30 |
| Otp.OtpModal.Close | src/components/OTPModal.jsx:67 | closing hides the dialog and clears the interval, nothing else |
| Otp.OtpModal.Tick | src/components/OTPModal.jsx:56-65 | one second applies one countdown step and keeps the dialog well formed |
| Otp.OtpModal.InputChange | src/components/OTPModal.jsx:144-149 | the digits of the typed value are kept when at most six, else the input is unchanged |
| Otp.OtpModal.Submit | src/components/OTPModal.jsx:71-88 | verified iff the input equals the generated OTP; a short input and a wrong one get their two error messages and keep the dialog open; success closes it |
| Otp.OtpModal.Resend | src/components/OTPModal.jsx:90-100 | as written: error cleared, a new OTP stored, timer and flag reset without restarting the interval |
| Otp.OtpModal.ResendFixed | src/components/OTPModal.jsx:90-100 | the same, with the countdown running again |
| DiseaseSearch.SearchDisease | mapDiseasesUnique.js:79-104 | no result iff no entry's NAMASTE or ICD disease contains the query, ignoring case; otherwise the result of the first such entry, NAMASTE side tested first (mapDiseasesUpdated.js:65-90 is the same code) |
| FuzzyMatch.Best | mapDiseasesUpdated.js:31-46 | no pick iff no ICD row with a Disease scores above 70; otherwise an eligible row with the highest score, the earliest one among equals |
| FuzzyMatch.FindBest | mapDiseasesUpdated.js:31-46 | the inner loop's `bestMatch`/`bestScore` is exactly that pick |
| FuzzyMatch.BestIgnoresCase | mapDiseasesUpdated.js:37 | NAMASTE names equal up to case get the same pick |
| FuzzyMatch.MatchedRows | mapDiseasesUpdated.js:28-55 | the rows that get an entry are rows that have a Disease and an eligible ICD row |
| FuzzyMatch.MatchedRowsCount | mapDiseasesUpdated.js:28-55 | a NAMASTE row gets as many entries as it occurs in the table if it matches, and none otherwise |
| FuzzyMatch.MatchedRowsAppend | mapDiseasesUpdated.js:28-55 | entries keep the order of the NAMASTE table |
| UpdatedMapping.CreateMapping | mapDiseasesUpdated.js:21-62 | the loop pushes one entry per matched NAMASTE row, in order, each built from that row's best pick |
| UpdatedMapping.EntryOfPick | mapDiseasesUpdated.js:39-53 | a row with a pick is matched, and its entry carries the picked row's disease, TM2 code and English name with the pick's score |
| UpdatedMapping.EntryIsBest | mapDiseasesUpdated.js:31-54 | every entry has similarity above 70, equal to the highest score of any ICD row, and names the earliest row reaching it |
| ScriptMapping.CreateMapping | scripts/mapDiseases.js:21-68 | the same loop, emitting `{ namaste, tm2, biomedicine, similarity }` entries |
| ScriptMapping.EntryOfPick | scripts/mapDiseases.js:39-59 | the entry's TM2 and biomedicine codes and displays all come from the picked row |
| ScriptMapping.EntryIsBest | scripts/mapDiseases.js:31-60 | both codes come from one eligible row with the highest score, the earliest such, with similarity above 70 |
| ScriptMapping.SearchDisease | scripts/mapDiseases.js:71-96 | the loop as written equals `SearchOutcome`: no entries gives null; otherwise the first entry decides, found if its NAMASTE disease matches and a TypeError if not |
| ScriptMapping.SearchDiseaseMissesLaterHits | scripts/mapDiseases.js:75-86 | on entries "Kasa" then "Jvara" and the query "jvara", the first entry misses, the second hits, and the search as written throws |
| ScriptMapping.SearchDiseaseFixed | scripts/mapDiseases.js:71-96 | no result iff no NAMASTE disease contains the query; otherwise the first entry whose does |
| UniqueMapping.GroupIcd | mapDiseasesUnique.js:29-36 | the loop builds the grouping object of the ICD rows by Disease |
| UniqueMapping.GroupNamaste | mapDiseasesUnique.js:39-46 | the loop builds the grouping object of the NAMASTE rows and its key order |
| UniqueMapping.KeysComplete | mapDiseasesUnique.js:39-46 | a disease is a key iff it is non-empty and some row has it |
| UniqueMapping.GroupSubset | mapDiseasesUnique.js:29-46 | a group holds table rows with exactly its key |
| UniqueMapping.IndexAt | mapDiseasesUnique.js:29-46 | the grouping object holds exactly the non-empty keys that occur, each with its rows in table order |
| UniqueMapping.KeysDistinct | mapDiseasesUnique.js:48 | the outer loop visits each disease once |
| UniqueMapping.PushPairs | mapDiseasesUnique.js:54-67 | the inner loop appends the cyclic pairing of the group |
| UniqueMapping.PairGroupAt | mapDiseasesUnique.js:54-67 | the i-th NAMASTE row of a group is paired with ICD row i mod the ICD group's size |
| UniqueMapping.CreateMapping | mapDiseasesUnique.js:21-76 | the whole procedure returns the table of exact-disease pairings, by disease in first-appearance order |
| UniqueMapping.ExactMappingsByDisease | mapDiseasesUnique.js:48-69 | the entries of a disease are its NAMASTE group, in order, paired cyclically with its ICD group; a disease without ICD rows gives none |
| UniqueMapping.ExactMappingEntries | mapDiseasesUnique.js:58-66 | every entry has similarity 100 and pairs a NAMASTE row with an ICD row of exactly the same non-empty disease |
| UniqueMapping.ExactMappingsCoverSharedRows | mapDiseasesUnique.js:48-69 | as a multiset, the NAMASTE sides are exactly the rows whose disease the ICD table has: each yields one entry |
| UniqueMapping.MappedIffSameDisease | mapDiseasesUnique.js:48-69 | a NAMASTE row gets an entry iff its Disease is non-empty and some ICD row has exactly that Disease |
| Seqs.Filter | src/pages/Dashboard.jsx:51 | `filter` keeps only elements of the input that satisfy the test |
| Seqs.FilterCount | src/pages/Dashboard.jsx:51 | `filter` keeps every satisfying element as often as it occurs, and nothing else |
| Seqs.FilterAppend | src/pages/Dashboard.jsx:51 | `filter` keeps the input's order |
| Seqs.FirstIndex | app.js:473 | the position `find` stops at: none iff no element satisfies the test, else the first that does |
| Seqs.Find | app.js:441 | `find` fails iff no element satisfies the test, else returns the first element that does |
| Seqs.Take | src/pages/Dashboard.jsx:109 | `slice(0, n)` keeps the first min(n, length) elements |
| Text.NatToStringValue | src/pages/MappingTool/index.jsx:186 | the decimal rendering of a number reads back as that number |
| Fhir.ConditionCountIsSize | src/pages/DataAnalytics/index.jsx:41-43 | the count of Condition entries is the number of positions holding one |
| Fhir.ConditionCountAppend | src/pages/DataAnalytics/index.jsx:41-43 | counting Conditions commutes with joining entry lists |
| Fhir.ConditionCountAll | app.js:459 | a list of Conditions counts all its entries |
| Fhir.TotalConditionsAppend | src/pages/RecordViewing/index.jsx:430 | the total over a list of Bundles adds up over its slices |
| Backend.WithoutDashes | app.js:223 | removing dashes keeps a last character that is not a dash |
| Backend.TemplateIndex | app.js:223 | the template index, when it is a number, is below 4 |
| Backend.GenerateRealisticPatient | app.js:222-334 | the generated patient carries the requested ID |
| Backend.ValidIdPicksLastDigit | app.js:222-334 | a valid ABHA number gets the template of its last digit modulo 4 |
| Backend.KnownIdsValid | app.js:365 | all four known IDs pass the ABHA check |
| Backend.KnownIdsGetDistinctTemplates | app.js:222-334 | the four known IDs get four different templates |
| Backend.GateFound | app.js:345-384 | a patient comes back iff the request is admitted, MOCK_MODE is not "false" and the ID is known; it carries that ID and a template |
| Backend.GateOrder | app.js:345-362 | a rate-limited request is refused (429) whatever it asks; a malformed ID gives 400 before the mode is read; MOCK_MODE "false" gives 503 |
| Backend.GateExamples | tests/api.test.js:19-50 | the 200, 400, 404 and 503 cases of the API tests |
| Backend.CodesOfLast | app.js:461-470 | the NAMASTE code is that of the last NAMASTE-system coding (null if none); the ICD code that of the last coding whose system contains 'icd' or 'ICD' |
| Backend.ExtractCodes | app.js:461-470 | the loop over a Condition's codings computes those codes |
| Backend.Backfill | app.js:471-482 | a truthy code is never replaced, and when both or neither side is truthy nothing changes |
| Backend.BackfillIcd | app.js:472-476 | a missing ICD code becomes the biomedicine code of the first mapping with the NAMASTE code, and stays missing if none has it |
| Backend.BackfillNamaste | app.js:477-481 | a missing NAMASTE code becomes the NAMC_CODE of the first mapping with the ICD code, and stays missing if none has it |
| Backend.BackfillIdempotent | app.js:471-482 | backfilling twice is backfilling once |
| Backend.ConditionRecordsCount | app.js:459-491 | a Bundle yields one stored condition per Condition entry |
| Backend.ExtractCondition | app.js:459-491 | the callback builds the stored condition of one Condition entry |
| Backend.ExtractConditions | app.js:459-491 | the filter-and-map builds the stored conditions in entry order |
| Backend.UpsertShape | app.js:500-515 | an unknown `abhaId` appends the record; otherwise only the first record with it changes, gaining the new encounters, conditions and bundle ids after its own |
| Backend.UpsertConditionTotal | app.js:500-515 | storing a record adds exactly its conditions to the total, whether merged or appended |
| Backend.UpsertKeepsIdsDistinct | app.js:500-515 | upserting never creates a second record for an `abhaId` |
| Backend.UpsertKeepsRefs | app.js:494-515 | if the incoming bundle ids are stored, every bundle id of every record still names a stored Bundle |
| Backend.BundleId | app.js:494 | the stored id is never empty, and is the Bundle's own id when that is truthy |
| Backend.ProjectInjective | app.js:121-131 | the stored record of a CSV row loses no column: equal records come from equal rows and back |
| Backend.AcceptKeepsInvariant | app.js:431-519 | storing an accepted Bundle and its patient record keeps ids distinct, bundle references resolvable and the condition totals equal |
| Backend.Server.constructor | app.js:85-105 | a server started without data files holds no data and satisfies its invariant |
| Backend.Server.CheckRateLimit | app.js:201-214 | allowed iff fewer than 100 of the client's requests are newer than 15 minutes; if allowed the list keeps only those plus now, else nothing changes |
| Backend.Server.GetPatient | app.js:345-384 | the reply is the ordered gate applied to the rate limiter's verdict; a refused request leaves the request log unchanged, an admitted one keeps the client's in-window times and adds `now` |
| Backend.Server.UploadFhir | app.js:431-519 | a non-Bundle or a Bundle without a Patient is rejected with nothing stored; otherwise the Bundle is stored with its id and the patient record upserted; the invariant is kept |
| Backend.Server.UploadCsv | app.js:110-152 | the server invariant is kept; the old rows are dropped; a readable file stores one projected record per row and reports the count; an unreadable one leaves none |
| Backend.Server.Reset | app.js:171-177 | reset empties the NAMASTE data and keeps the server invariant |
| MockApi.ResourcesOfRows | src/services/mockApi.js:5-43 | one concept per row from the source columns; one element per row with one `equivalent` target from the target columns; the group's source is the CodeSystem's id |
| MockApi.ConceptMapCoversCodeSystem | src/services/mockApi.js:12-39 | element i of the ConceptMap maps concept i of the CodeSystem |
| MockApi.ResourcesDetermineRows | src/services/mockApi.js:5-43 | different rows give different resources: nothing from a row is lost |
| MockApi.MockBackend.constructor | src/services/mockApi.js:1-3 | no data and no resources before a save |
| MockApi.MockBackend.SaveNamasteCsv | src/services/mockApi.js:46-57 | a save always succeeds with its message and replaces the rows and both resources |
| MockApi.MockBackend.GetMappingResources | src/services/mockApi.js:59-78 | the resources of the saved rows, or the failure message when nothing was saved |
| MockApi.SaveThenRead | src/services/mockApi.js:46-78 | a save followed by a read returns the resources of the rows just saved, whatever was saved before |
| MappingTool.SearchCodesCount | src/pages/MappingTool/index.jsx:105-139 | the results are exactly the entries matching the term, each as often as in the list; a blank term gives none |
| MappingTool.SearchCodesAppend | src/pages/MappingTool/index.jsx:126-131 | results keep the order of the code list |
| MappingTool.SearchIgnoresCase | src/pages/MappingTool/index.jsx:127-131 | only the lower-cased term matters |
| MappingTool.ToggledFlips | src/pages/MappingTool/index.jsx:498-507 | a click flips whether the code is selected and leaves other entries alone |
| MappingTool.ToggleTwice | src/pages/MappingTool/index.jsx:498-507 | clicking an unselected code twice restores the selection |
| MappingTool.FilterKeepsDistinct | src/pages/MappingTool/index.jsx:504 | deselecting keeps the selected codes distinct |
| MappingTool.DistinctCount | src/pages/MappingTool/index.jsx:498-507 | with distinct codes an entry is selected at most once |
| MappingTool.ToggledKeepsDistinct | src/pages/MappingTool/index.jsx:498-507 | no click ever selects a code twice |
| MappingTool.Selection.constructor | src/pages/MappingTool/index.jsx:14 | the selection starts empty |
| MappingTool.Selection.Toggle | src/pages/MappingTool/index.jsx:502-508 | a click installs the toggled selection, codes staying distinct |
| MappingTool.Selection.Remove | src/pages/MappingTool/index.jsx:578 | Remove drops exactly the entry at its index and keeps the others in order |
| MappingTool.Selection.Clear | src/pages/MappingTool/index.jsx:562 | Clear All empties the selection |
| MappingTool.NamasteResultSpec | src/pages/MappingTool/index.jsx:142-154 | NAMASTE mode: the row of the first mapping with the code, or the code itself with both "No match" sentinels |
| MappingTool.IcdResultsSpec | src/pages/MappingTool/index.jsx:156-171 | ICD mode: one row per mapping with the biomedicine code, or one sentinel row; every row carries the code |
| MappingTool.MappedResultsLength | src/pages/MappingTool/index.jsx:141-173 | NAMASTE mode gives one row per code; ICD mode gives max(1, matches) per code; never fewer rows than codes |
| MappingTool.ConditionsShape | src/pages/MappingTool/index.jsx:217-255 | Condition i has id `<abhaId>-<i>` and the NAMASTE, TM2 and biomedicine codings in that order |
| MappingTool.EntriesCount | src/pages/MappingTool/index.jsx:189-256 | the Bundle holds one Condition per result row |
| MappingTool.GenerateFhirBundleShape | src/pages/MappingTool/index.jsx:175-260 | no Bundle iff nothing is selected; otherwise the user's Patient, then the Conditions, with id `bundle-<now>` |
| MappingTool.ServerAcceptsGeneratedBundle | src/pages/MappingTool/index.jsx:184-216 | a generated Bundle passes the server's checks: it is a Bundle and its first Patient is the user |
| MappingTool.GeneratedSystemsAreNotIcd | src/pages/MappingTool/index.jsx:232-241 | neither the TM2 nor the biomedicine system names ICD for the server |
| MappingTool.GeneratedCodes | src/pages/MappingTool/index.jsx:226-242 | the server reads the NAMASTE code of a generated Condition and no ICD code |
| MappingTool.MappedSelectionRoundTrip | src/pages/MappingTool/index.jsx:143-148 | when the server's start-up mappings equal the page's list, a mapped NAMASTE code reaches the server intact, and the backfilled ICD code is the biomedicine code of the mapping the page chose |
| MappingTool.StaleServerMappingsLoseIcd | app.js:71-78 | when the server's start-up mappings lack a code the page mapped, the Condition is stored with its NAMASTE code and no ICD code |
| MappingTool.UnmatchedSelectionLosesCode | src/pages/MappingTool/index.jsx:149-153 | as written, a NAMASTE code the page cannot map is stored with no code at all, whatever mappings the server holds |
| MappingTool.FixedSelectionKeepsCode | src/pages/MappingTool/index.jsx:227-231 | with a coding that carries the selected code, the server stores it whatever mappings it holds, with no ICD code when it has no mapping for it either |
| MappingTool.ConceptMapElements | src/pages/MappingTool/index.jsx:346-352 | one ConceptMap element per disease mapping |
| MappingTool.ConceptMapMatchesBackfill | src/pages/MappingTool/index.jsx:332-358 | for the first mapping of a code, the element's single `equivalent` target is the ICD code the server backfills, when the server's start-up mappings agree with the page's list up to that mapping |
| MappingTool.NamasteConcepts | src/pages/MappingTool/index.jsx:300-304 | one CodeSystem concept per NAMASTE entry |
| MappingTool.SearchResultsInCodeSystem | src/pages/MappingTool/index.jsx:290-309 | every code the search returns is a concept of the downloaded CodeSystem |
| RecordViewing.Rows | app.js:524-526 | the page gets one row per stored record |
| RecordViewing.FilteredPatientsSpec | src/pages/RecordViewing/index.jsx:32-43 | the list shows exactly the matching patients, each as often as it occurs, in list order |
| RecordViewing.EmptyTermKeepsDefined | src/pages/RecordViewing/index.jsx:32-43 | with an empty box a patient is listed iff it has a name, an id, or a Condition with a code |
| RecordViewing.StoredRecordsMatchOnlyByCode | src/pages/RecordViewing/index.jsx:32-43 | as written, a stored record matches iff one of its Condition codes contains the term |
| RecordViewing.PatientWithoutConditionsNeverListed | src/pages/RecordViewing/index.jsx:32-43 | as written, a record without Conditions is not found even by its own first name |
| RecordViewing.FixedRowFindsByNameAndId | src/pages/RecordViewing/index.jsx:32-43 | with the name and ID in the row, a record is found by its first name and by its ABHA number |
| RecordViewing.BundlesForSound | src/pages/RecordViewing/index.jsx:45-47 | every Bundle shown is stored and has an id the record lists; no more than listed |
| RecordViewing.StoredIdFound | src/pages/RecordViewing/index.jsx:46 | the id of a stored Bundle finds a Bundle with that id |
| RecordViewing.BundlesForComplete | src/pages/RecordViewing/index.jsx:45-47 | when every listed id is found, one Bundle is shown per id, in the record's order |
| RecordViewing.ServerRecordsShowTheirBundles | src/pages/RecordViewing/index.jsx:45-47 | on the server's data every record shows all the Bundles it lists, in order |
| RecordViewing.RowConditionTotalOfRecords | src/pages/RecordViewing/index.jsx:436 | the second card counts the Conditions the records hold |
| RecordViewing.ConditionCardsAgree | src/pages/RecordViewing/index.jsx:428-438 | on the server's data both "Total Conditions" cards show the same number |
| RecordViewing.NamasteSystemLabel | src/pages/RecordViewing/index.jsx:200-202 | the NAMASTE system is labelled "NAMASTE" |
| RecordViewing.Tm2SystemLabel | src/pages/RecordViewing/index.jsx:200-202 | the TM2 system is labelled "TM2" |
| RecordViewing.BiomedicineSystemLabel | src/pages/RecordViewing/index.jsx:200-202 | the biomedicine system names no ICD, so it is labelled "TM2" too |
| RecordViewing.GeneratedCodingLabels | src/pages/RecordViewing/index.jsx:200-202 | the three codings the mapping tool writes are labelled NAMASTE, TM2, TM2 |
| RecordViewing.LabelDefault | src/pages/RecordViewing/index.jsx:200-202 | a missing system, or one naming neither NAMASTE nor ICD, is labelled "TM2" |
| Dashboard.KeptBundlesSpec | src/pages/Dashboard.jsx:50-52 | exactly the Bundles not deleted in this browser remain, in order; with nothing deleted all remain |
| Dashboard.StatsOf | src/pages/Dashboard.jsx:57-68 | the counts are those of the loaded lists, the status is online, and recent registrations never exceed patients |
| Dashboard.UndatedNotRecent | src/pages/Dashboard.jsx:59-61 | a patient without a parsable registration date is never recent |
| Dashboard.ResultsOfLayout | src/pages/Dashboard.jsx:135 | patient results first, then Bundle results |
| Dashboard.SearchResultsSpec | src/pages/Dashboard.jsx:94-141 | a blank term shows nothing; otherwise the first five matching patients in list order, then the first three matching Bundles |
| Dashboard.SearchResultsMatch | src/pages/Dashboard.jsx:94-141 | every result stands for a loaded patient or Bundle that matches the term |
| Dashboard.EmailIgnoresCase | src/pages/Dashboard.jsx:98-107 | the email is searched ignoring case |
| Dashboard.DashboardPage.constructor | src/pages/Dashboard.jsx:27-41 | empty term and results, zero statistics online, the deleted ids read from storage |
| Dashboard.DashboardPage.SearchEffect | src/pages/Dashboard.jsx:94-141 | the effect installs the search results of the term, and shows the panel iff the term is not blank |
| Dashboard.DashboardPage.SetSearchTerm | src/pages/Dashboard.jsx:607 | typing stores the term and the results follow it |
| Dashboard.DashboardPage.ClickResult | src/pages/Dashboard.jsx:625-633 | a click closes the panel and empties the box |
| Dashboard.DashboardPage.FetchStats | src/pages/Dashboard.jsx:43-79 | on an exception the statistics go offline and the data stay; otherwise the fetched patients and the kept Bundles are loaded and the statistics computed from them |
| Analytics.BumpSpec | src/pages/DataAnalytics/index.jsx:47 | a bump adds one to its key's count and to the total, and leaves other counts alone |
| Analytics.TallyOfSpec | src/pages/DataAnalytics/index.jsx:46-49 | a counter built from keys counts each key as often as it occurs, and its counts add up to the number of keys |
| Analytics.GenderKeys | src/pages/DataAnalytics/index.jsx:46-49 | one key per patient |
| Analytics.GenderDistributionSpec | src/pages/DataAnalytics/index.jsx:46-49 | every patient is counted once under its gender; the counts add up to the number of patients |
| Analytics.AgeGroupBounds | src/pages/DataAnalytics/index.jsx:56 | the five groups are the intervals below 18, 18-34, 35-49, 50-64 and from 65; an invalid date lands in "65+" |
| Analytics.AgeKeys | src/pages/DataAnalytics/index.jsx:53-60 | one group name per patient with a birth date |
| Analytics.AgeDistributionSpec | src/pages/DataAnalytics/index.jsx:53-60 | only patients with a birth date are counted, once each, and only under the five group names |
| Analytics.CountConditions | src/pages/DataAnalytics/index.jsx:63-75 | the nested loops count the display of every NAMASTE coding of every Condition |
| Analytics.Entries | src/pages/DataAnalytics/index.jsx:77 | one entry per counted condition |
| Analytics.InsertSpec | src/pages/DataAnalytics/index.jsx:78 | inserting into a sorted list keeps it sorted and adds just that entry |
| Analytics.SortByCountSpec | src/pages/DataAnalytics/index.jsx:78 | the sort orders by non-increasing count and only reorders |
| Analytics.SortedEntries | src/pages/DataAnalytics/index.jsx:77-78 | the sorted entries are one per condition, each with its count, in non-increasing count |
| Analytics.MostCommonSpec | src/pages/DataAnalytics/index.jsx:77-80 | at most five conditions, each once with its count, in non-increasing count; none left out is more common than the last listed |
| Analytics.RegistrationTrend | src/pages/DataAnalytics/index.jsx:83-94 | seven points, oldest day first |
| Analytics.DayCountsByPatient | src/pages/DataAnalytics/index.jsx:89-94 | counting per day equals counting, per patient, the listed days it registered on |
| Analytics.PatientHitsBound | src/pages/DataAnalytics/index.jsx:89-94 | on distinct days a patient is counted at most once |
| Analytics.RegistrationTrendBound | src/pages/DataAnalytics/index.jsx:83-94 | when the seven days are distinct, the trend counts no more registrations than patients |
| Analytics.AnalyticsPage.constructor | src/pages/DataAnalytics/index.jsx:7-16 | the page starts with no data and zero analytics |
| Analytics.AnalyticsPage.Load | src/pages/DataAnalytics/index.jsx:32-104 | loading stores the data and sets every figure to its specification |

## Left out

- Reading and writing files, parsing CSV and JSON, multer, CORS and Express routing are not modelled. Handlers take parsed values, and the JSON data files (`namasteData.json`, `patients.json`, `fhirBundles.json`, `diseaseMappings.json`) are not modelled.
- The start-up loading of app.js is not modelled: the server begins with empty lists and is given its disease mappings. This covers `loadICD` and the loading of the data files, app.js:32-105.
- `GET /api/namaste`, `GET /api/icd`, `GET /api/patients`, `GET /api/fhir-bundles` and `/health` return stored state unchanged. They are not modelled apart from the row shape of `/api/patients` (RecordViewing.Rows).
- `GET /api/disease-mappings` (app.js:182-190) is not modelled. It does not return stored state: it re-reads `diseaseMappings.json` on every call and answers `[]` when the read fails. The mapping page takes its answer as the parameter `mappings`.
- MappingTool.MappedSelectionRoundTrip, MappingTool.ConceptMapMatchesBackfill: the page's list and the server's `diseaseMappings` are separate. The server reads its copy once, at start-up (app.js:71-78). The page's list is read fresh on every call. `scripts/mapDiseases.js` runs `main()` when app.js imports it (app.js:387, scripts/mapDiseases.js:98-117), and `main()` rewrites the file after that start-up read. So the two lists agree only while the file is unchanged since start-up, and both lemmas require that agreement. MappingTool.StaleServerMappingsLoseIcd states what happens when they disagree.
- `GET /api/mappings` and `GET /api/search-disease/:query` are not modelled. They read `cachedMappings`, whose declaration at app.js:390 is commented out, so they can only answer 500.
- The AJV schema check of a generated patient (app.js:373-376) is taken to pass. The schema file is not part of this model.
- `fetchPatientByAbhaId` in src/services/patientApi.js:10-30 is a bare network call and is not modelled. Neither is the authentication context it feeds.
- `fetchAllPatients` and `fetchAllBundles`, which the dashboard imports, are not defined in src/services/patientApi.js. Their answer is the parameter `FetchOutcome`.
- `fuzzball.ratio` is the parameter `score`. The model proves what holds for every scorer.
- Clocks, `Math.random`, `process.env.MOCK_MODE`, the client IP and browser local storage are parameters.
- Timers, debouncing, promise delays, notifications, alerts, navigation and rendering are left out. Each handler is one atomic step.
- The interval that refreshes the analytics every 30 seconds and the `bundlesUpdated` listener of the dashboard only re-run the modelled loads. They are not modelled.
- `toLowerCase` is modelled for ASCII letters only; JavaScript lower-cases all of Unicode.
- Keys of a JavaScript object are kept in insertion order. JavaScript lists integer-like keys first; the counters (Analytics) and the grouping objects (UniqueMapping) do not model that.
- Inherited prototype keys are not modelled either. The model treats every key as absent until it is set. In JavaScript, a Disease named "constructor" finds an inherited function in `icdByDisease`, and its `.push` throws (mapDiseasesUnique.js:31-34). A gender or condition display named "constructor" reads that inherited function as its count (src/pages/DataAnalytics/index.jsx:47, 70), and adding 1 to it gives a string, not a number.
- `null`, `undefined` and `""` are one value wherever the code only tests truthiness. They are kept apart (`Option`) where the logic distinguishes them.
- Dates are compared as parsed millisecond times (`parse`, `now`, `dayBefore`, `yearOf`). Calendar arithmetic, time zones and daylight saving are not modelled.
- The search box's `onBlur` (src/pages/Dashboard.jsx:608-610), which hides the results panel 200 ms later, and its `onFocus` (line 611), which shows it again, are not modelled. With them the panel can be hidden while the term is not blank, which `DashboardPage.Valid` does not allow.
- Dashboard.StatsOf: "seven days ago" is `now - WEEK_MS`, not the calendar step of `setDate`. The two differ across a daylight-saving change.
- Analytics.SortByCountSpec: the proofs do not state that the sort is stable. The model sorts stably, as the JavaScript engine does.
- RecordViewing.BundlesForComplete: states the id of every Bundle shown, not the whole Bundle.
- The `resourceType`, `url`, `version` and `title` constants of the generated CodeSystems and ConceptMaps are left out. So are the full-URL, identifier, telecom, clinical-status and date fields of a generated Bundle. No logic reads them.
- `generateICDCodeSystem` (src/pages/MappingTool/index.jsx:311-330) is not modelled separately. It builds its concepts from the ICD list exactly as the NAMASTE one does from the NAMASTE list.
- Downloading, `showNotification` and the page's initial fetches are not modelled.
- `handleGenerateFHIR` and the FHIR upload of the record viewer post a Bundle to the API. The server side is Backend.Server.UploadFhir.
- The `main` functions of the three scripts log example searches and write the mapping table to disk. They are not modelled.
- The template fields of a generated patient other than those the app reads (address, insurance and the like) are constants and are not modelled.

## Findings

| source | as written | input that shows it | evidently intended | confidence | as-written member | corrected member |
|---|---|---|---|---|---|---|
| scripts/mapDiseases.js:75-86 | `searchDisease` reads `mapping.icd.disease`, but the entries this script builds have `tm2` and `biomedicine` and no `icd`, so a miss on the first entry's NAMASTE disease throws a TypeError | entries for "Kasa" then "Jvara", query "jvara" | return the first entry whose NAMASTE disease contains the query, or null | high, not executed | ScriptMapping.SearchDiseaseMissesLaterHits | ScriptMapping.SearchDiseaseFixed |
| src/components/OTPModal.jsx:90-100 | `handleResend` resets the timer to 30 and hides the button, but the interval was cleared when the button appeared and the effect only re-runs when `isOpen` changes, so the countdown never runs again | open the dialog, wait 30 seconds, press Resend | the countdown restarts and the button returns after 30 seconds | high, not executed | Otp.ResendAsWrittenStalls | Otp.ResendFixedReturns |
| src/pages/MappingTool/index.jsx:149-153 | in NAMASTE mode an unmapped code becomes the `namaste` side itself, but the Condition's NAMASTE coding reads `NAMC_CODE` and `NAMC_term` (lines 229-230), which a code entry does not have, so the code is uploaded as undefined | select a NAMASTE code that no disease mapping has, then generate the Bundle | the NAMASTE coding carries the selected code and its display | high, not executed | MappingTool.UnmatchedSelectionLosesCode | MappingTool.FixedSelectionKeepsCode |
| src/pages/RecordViewing/index.jsx:32-43 | the search reads `patient.name` and `patient.id`, but the records of `/api/patients` have `firstName`, `lastName` and `abhaId`, so patients are found only through their Condition codes | a stored patient "Amit" with no Conditions, searched for "Amit" | search the patient's name and ABHA number | high, not executed | RecordViewing.StoredRecordsMatchOnlyByCode | RecordViewing.FixedRowFindsByNameAndId |
