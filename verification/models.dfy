/** The records that flow through the feed parser: the loosely typed raw record as JSON decoding
    delivers it, and the canonical posting and approval verdict built from it. */
module Models {
  import opened Dates

  /** A JSON value found under a key of a decoded object. Arrays and objects are `Nested`:
      no rule of the parser looks inside them. */
  datatype Value = Null | Bool(b: bool) | Number(n: real) | Text(s: string) | Nested

  type Fields = map<string, Value>

  /** The shapes the raw `location` field can take. */
  datatype RawLocation =
    | LocMap(fields: Fields)   // a JSON object
    | LocStr(text: string)     // free text such as "New York, NY, USA"
    | LocOther                 // null, a number, a boolean or an array

  /** The shapes the raw `salary` field can take. */
  datatype RawSalary =
    | SalMap(fields: Fields)   // a JSON object
    | SalNum(amount: real)     // a bare integer or floating-point number
    | SalOther                 // null, a string, a boolean or an array

  datatype RawJobPosting = RawJobPosting(
    title: string,
    description: string,
    company: string,
    location: RawLocation,
    salary: RawSalary,
    employmentType: string,
    postingDate: string,
    companyType: string,
    language: string,
    remote: bool)

  datatype Location = Location(city: string, state: string, country: string)

  /** `value` keeps whatever the feed supplied; `unit` is "hourly" or anything else for annual. */
  datatype Salary = Salary(value: Value, currency: string, unit: string)

  /** A parsed posting date, or the moment of ingestion when the feed gave none that parses. */
  datatype PostingDate = On(date: Date) | IngestTime

  datatype JobPosting = JobPosting(
    id: string,
    title: string,
    description: string,
    company: string,
    location: Location,
    salary: Salary,
    employmentType: string,
    postingDate: PostingDate,
    companyType: string,
    language: string,
    remote: bool)

  /** The five eligibility rules, in the order the approver evaluates and reports them. */
  datatype Rule = LocationRule | EmploymentRule | SalaryRule | CompanyTypeRule | LanguageRule

  /** The fixed text reported when a rule fails. */
  function ReasonText(rule: Rule): string
  {
    match rule
    case LocationRule => "Invalid location: must be remote or in US/Canada"
    case EmploymentRule => "Invalid employment type: must be full-time"
    case SalaryRule => "Insufficient salary: must be >$100k annual or >$45/hour"
    case CompanyTypeRule => "Invalid company type: staffing firms not allowed"
    case LanguageRule => "Invalid language: must be English or French (for Canada jobs)"
  }

  /** The verdict on one posting. `reasons` lists the failed rules; the text reported for each
      is `ReasonText`. `processedAt` is a clock reading supplied by the caller. */
  datatype ApprovalResult = ApprovalResult(jobId: string, approved: bool, reasons: seq<Rule>, processedAt: int)

  /** The reasons as the texts a caller reads. */
  function ReasonTexts(r: ApprovalResult): seq<string>
  {
    seq(|r.reasons|, i requires 0 <= i < |r.reasons| => ReasonText(r.reasons[i]))
  }
}
