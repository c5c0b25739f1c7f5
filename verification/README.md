# Job postings feed parser — a Dafny model of the normalizer and the approver

The feed parser reads job postings from a JSON feed. It does two things:

- The **normalizer** turns each loosely typed raw record into a canonical `JobPosting`.
- The **approver** judges each posting against five eligibility rules.

This project models both components as pure Dafny functions over immutable datatypes and proves what they promise.

Modules:

- `Wrappers` holds `Option` and `Result`.
- `Strings` models the parts of Go's `strings` and `fmt` that the code uses:
  - `TrimSpace` with Go's white-space set;
  - ASCII case mapping;
  - `Split`, `Join` and `Contains`;
  - decimal formatting.
- `Dates` models the `"2006-01-02"` layout of `time.Parse`.
- `Models` holds the records:
  - the raw record, with closed variants for the polymorphic `location` and `salary` fields;
  - the canonical posting;
  - the approval result.
- `Ingestion` holds:
  - `normalizeJob`, `normalizeLocation`, `parseLocationString` and `normalizeSalary`;
  - the skip-on-error batch loop of `IngestFromJSON`.
- `Approval` holds `ApproveJob`, its five rules, the salary extraction, the currency table and the production thresholds.
- `Scenarios` works whole records through both components.

How the model represents some parts of the code:

- **Reasons.** The approval result records the failed rules as a sequence of `Rule` values. The text Go appends for each rule is `ReasonText`, and `ReasonTexts` gives the list of strings that Go returns. `ReasonTextsDistinct` proves that the texts identify the rules.
- **Missing location.** A JSON `null` or missing `location` is a `LocOther`, which the normalizer rejects. Because of this, a raw record with no location at all never reaches the approver. The end-to-end example of a remote posting therefore gives it an empty location string, and `LocationlessRemoteRejected` proves that the same posting without a location is rejected.
- **Salary unit.** The unit is compared with `"hourly"` exactly, with no trimming or case folding. Every other field that the approver reads is compared after trimming and case mapping. `ApprovalReadsKeys` states this.
- **Threshold wording.** The salary reason text says `>$100k` and `>$45/hour`, but the comparison is `>=`. The model follows the comparison.

## Model

| member | source | states |
|---|---|---|
| Ingestion.NormalizeJob | ingestion/ingestion.go:52-88 | a record normalizes exactly when both its location and salary have a supported shape; a bad location is reported before a bad salary; on success every scalar field is copied, the id is the one given, and location, salary and posting date are the decoded ones |
| Ingestion.CanonicalJobIdempotent | ingestion/ingestion.go:52-88 | a canonical posting written back as a raw record (location and salary as objects, date in the feed layout or empty) normalizes under its own id to the same posting, field for field |
| Ingestion.ParsePostingDate | ingestion/ingestion.go:64-72 | the posting date is a parsed date exactly when the text is a valid `yyyy-mm-dd` date, and then it is the date the text denotes and renders back to the text; an empty or unparseable text gives the ingestion time |
| Dates.ParseFormat | ingestion/ingestion.go:65 | every valid calendar date written in the `2006-01-02` layout parses back to itself |
| Dates.FormatParse | ingestion/ingestion.go:65 | every text the layout accepts is exactly the layout's rendering of the date it parses to |
| Ingestion.PostingDateRoundTrip | ingestion/ingestion.go:64-66 | a valid date written in the feed's layout becomes the posting date |
| Ingestion.NormalizeLocation | ingestion/ingestion.go:90-111 | fails exactly for a location that is neither an object nor a string, with the unsupported-location error; an object has its string-typed city, state and country copied and every missing or non-string entry left empty |
| Ingestion.StructuredLocationIdempotent | ingestion/ingestion.go:92-104 | a canonical location fed back as an object normalizes to itself |
| Ingestion.ParseLocationString | ingestion/ingestion.go:113-141 | total; every field is trimmed and comma-free; the state is empty unless there are exactly two commas; the country is empty when there is no comma |
| Strings.SplitCount | ingestion/ingestion.go:114 | splitting at commas yields one more part than there are commas, so always at least one part |
| Strings.SplitJoin | ingestion/ingestion.go:114 | joining the parts of a split with the separator restores the text |
| Strings.TrimSpaceSplits | ingestion/ingestion.go:116 | trimming removes only white space, and only from the two ends |
| Strings.TrimSpacePadded | ingestion/ingestion.go:116 | trimming a text with no white space at its ends, padded with white space, gives back exactly that text |
| Ingestion.ParseThreeSegments | ingestion/ingestion.go:122-126 | three comma-separated parts become city, state and country, each trimmed |
| Ingestion.ParseTwoSegments | ingestion/ingestion.go:127-130 | two parts become city and country, each trimmed, with an empty state |
| Ingestion.ParseOneSegment | ingestion/ingestion.go:131-133 | a text without commas, the empty text included, is a trimmed city alone |
| Ingestion.ParseManySegments | ingestion/ingestion.go:134-137 | four or more parts keep the trimmed first as city and the trimmed last as country; the middle parts are dropped |
| Ingestion.LocationStringRoundTrip | ingestion/ingestion.go:105-141 | a location with trimmed, comma-free parts written as "city, state, country" normalizes back to itself |
| Ingestion.NormalizeSalary | ingestion/ingestion.go:143-176 | fails exactly for a salary that is neither an object nor a number, with the unsupported-salary error; a bare number N becomes (N, "USD", ""); an object has its value copied as is (null when missing) and its string-typed currency and unit copied |
| Ingestion.StructuredSalaryIdempotent | ingestion/ingestion.go:145-159 | a canonical salary fed back as an object normalizes to itself |
| Ingestion.JobIdInjective | ingestion/ingestion.go:27 | an identifier `job_<stamp>_<index>` determines both its stamp and its index |
| Ingestion.IngestRecords | ingestion/ingestion.go:25-35 | the postings returned are the in-order survivors of normalizing each record under its own identifier, the warnings are the position and error of each record that failed, in order, and the two counts add up to the batch size |
| Ingestion.KeptYieldsSurvivors | ingestion/ingestion.go:26-33 | the k-th returned posting is the successful outcome of the k-th kept record |
| Ingestion.KeptIncreasing | ingestion/ingestion.go:26-33 | kept positions are strictly increasing, so survivors keep the order of the feed |
| Ingestion.KeptExactly | ingestion/ingestion.go:26-33 | a record is kept exactly when it normalizes |
| Ingestion.SkippedExactly | ingestion/ingestion.go:28-31 | a warning names a record exactly when its normalization fails, and carries that failure's error |
| Ingestion.SurvivorsPlusSkipped | ingestion/ingestion.go:26-33 | every record is either returned or skipped, never both and never neither |
| Ingestion.SurvivorIdsDistinct | ingestion/ingestion.go:26-33 | no two returned postings share an identifier, whatever the clock reads |
| Ingestion.WellShapedBatchKeepsAll | ingestion/ingestion.go:26-33 | a batch whose every record has a supported location and salary shape loses no record and produces no warning |
| Approval.Verdict | approval/approval.go:28-67 | starting approved with no reasons and visiting the rules in order, the result lists exactly the failed rules, in rank order, and is approved exactly when it lists none |
| Approval.VisitNext | approval/approval.go:36-64 | one visit step (reject and append on failure, otherwise unchanged) extends the reported rules by the visited one and keeps the order |
| Approval.ApproveJob | approval/approval.go:28-67 | keeps the job id and processing time; approved exactly when there are no reasons; a rule is listed exactly when the posting fails it; the reasons are in the fixed order location, employment type, salary, company type, language |
| Approval.VerdictSummary | approval/approval.go:28-67 | approved exactly when all five rules pass; at most five reasons; no reason twice |
| Approval.AtMostFiveReasons | approval/approval.go:36-64 | an ordered list of reasons has at most one entry per rule |
| Approval.OrderedReasonsUnique | approval/approval.go:36-64 | an ordered list of reasons is determined by the set of rules it names, so the reasons are the failing rules and nothing else can be produced |
| Approval.ReasonTextsDistinct | approval/approval.go:39-63 | the five reason texts are pairwise different |
| Approval.RemoteOnlyChangesLocation | approval/approval.go:69-72 | marking a posting remote makes the location rule pass and changes no other rule |
| Approval.RemoteClearsOnlyLocation | approval/approval.go:69-72 | marking a posting remote removes the location reason when there was one and keeps every other reason in place |
| Approval.LocationCountries | approval/approval.go:69-77 | a posting passes the location rule exactly when it is remote or its raw country, upper-cased, is USA, US, UNITED STATES, CANADA or CA with nothing but white space around it |
| Approval.FullTimeSpellings | approval/approval.go:79-82 | the employment rule passes exactly when the raw employment type, lower-cased, is full-time, fulltime or full time with nothing but white space around it |
| Approval.NonPositiveSalaryFails | approval/approval.go:84-88 | a missing, boolean, nested, unparseable or non-positive salary value fails whatever its unit and currency |
| Approval.SalaryMonotone | approval/approval.go:84-98 | raising a numeric salary never turns a pass into a failure |
| Approval.DefaultThresholds | approval/approval.go:19-26 | with the production approver and a USD amount, an hourly salary passes from 45 on and any other salary from 100000 on |
| Approval.ExtractSalaryValue | approval/approval.go:100-112 | a number is returned unchanged, a text the parser accepts gives the parsed number, and an unparseable text or any other value gives 0 |
| Approval.NumericTextLikeNumber | approval/approval.go:100-112 | a text salary the parser reads as x is judged exactly like the number x |
| Approval.ConvertToUSD | approval/approval.go:114-129 | the amount is multiplied by the table rate of its trimmed, upper-cased code (USD 1, CAD 0.74, EUR 1.09, GBP 1.27, unknown 1); positive amounts stay positive |
| Approval.ConvertReadsCurrencyKey | approval/approval.go:116 | currency codes that agree after trimming and case mapping convert alike |
| Approval.StaffingFirmOccurrence | approval/approval.go:131-134 | a company type is a staffing firm exactly when "staffing" or "recruiting" occurs at some position of its trimmed, lower-cased form |
| Strings.ContainsIffOccurs | approval/approval.go:133 | substring search agrees with the positional definition of an occurrence |
| Approval.BlankLanguageFails | approval/approval.go:136-142 | an empty or all-white-space language fails |
| Approval.LanguageCases | approval/approval.go:136-156 | the language rule passes exactly when the raw language, lower-cased, is english padded with white space, or is french or français padded with white space and the raw country, upper-cased, is CANADA or CA padded with white space; every other language fails |
| Approval.SameKeyUnderPaddingAndCase | approval/approval.go:132-137 | white space around a field and lower-casing its letters leave its trimmed, lower-cased key unchanged |
| Approval.ApprovalReadsKeys | approval/approval.go:69-156 | postings that agree on the trimmed, case-mapped country, employment type, company type, language and currency, and on remote, salary value and unit, get the same verdict |
| Scenarios.RemoteTechPostingApproved | approval/approval.go:28-67 | a remote, full-time, 120000 USD posting at a "Tech" company in English normalizes and is approved with no reasons |
| Scenarios.UkPostingRejectedForLocationOnly | approval/approval.go:28-67 | an on-site UK posting at 150000 GBP (190500 USD) at an "Agency" in English is rejected with the location reason only |
| Scenarios.PoundSalaryPasses | approval/approval.go:114-129 | 150000 GBP is 190500 USD, which passes the production annual threshold |
| Scenarios.LocationlessRemoteRejected | ingestion/ingestion.go:109-111 | the remote posting with no location at all is rejected by the normalizer as an unsupported location format, so it never reaches the approver |
| Scenarios.NumericLocationSkipped | ingestion/ingestion.go:26-33 | a batch whose second record has a numeric location returns the first posting and one warning: position 1, unsupported location format |

## Left out

- File reading and JSON decoding (`IngestFromFile`, `os.Stat`, `os.ReadFile`, `json.Unmarshal`) are not modelled. The batch starts from decoded records, and a decoding error therefore cannot occur.
- The warning log line is not modelled as text. The batch returns, for each skipped record, its position and its error.
- `time.Now()` is not modelled, in three places:
  - the posting-date default is the constructor `IngestTime`;
  - the Unix second in each identifier is a `clock` parameter read once per record;
  - `ProcessedAt` is a `now` parameter.
- `strconv.ParseFloat` is foreign code. It is the `parseFloat` parameter of `JobApprover`, any function from text to an optional number. NaN and infinities have no `real` counterpart.
- Floating point is not modelled. Amounts and currency multipliers are exact `real` numbers, so no rounding happens in the conversion or in the comparison.
- ConvertToUSD: exact real arithmetic, so a product that float64 rounding would move across a threshold is judged on the exact side. This happens on either side of a threshold: rounding can push a product just above it below it, and it can lift a product just below it onto it (78740.15748031496 GBP times 1.27 is below 100000 exactly, but 100000.0 in float64).
- Go's Unicode case mapping is not modelled. `ToUpper` and `ToLower` change ASCII letters only, so "FRANÇAIS" does not lower-case to "français" here. `TrimSpace` uses Go's full white-space set.
- The `int` branch of `normalizeSalary` and `ExtractSalaryValue` is folded into the number case. JSON decoding into `interface{}` only produces `float64`.
- JSON arrays and objects nested under a key are one opaque `Nested` value, because no rule looks inside them.
- `cmd/main.go` is not part of this model. It is command-line orchestration and printing.
- `storage/storage.go` is not part of this model. It is an in-memory list with logging and no decision logic.
- `tests/tests_test.go` is not part of this model. It calls a two-argument `NormalizeSalary` that the code does not define.
