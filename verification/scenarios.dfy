/** Whole-pipeline examples: raw records normalized and then judged by the production approver. */
module Scenarios {
  import opened Wrappers
  import opened Strings
  import opened Models
  import opened Ingestion
  import opened Approval

  /** A text shorter than a word cannot contain it. */
  lemma ShortTextLacks(s: string, word: string)
    requires |s| < |word|
    ensures !Contains(s, word)
  {
    ContainsIffOccurs(s, word);
  }

  /** The key of a text with no white space at its ends is its lower-cased form. */
  lemma KeyOfTrimmed(s: string)
    requires NoSpaceAtEnds(s)
    ensures ToLower(TrimSpace(s)) == ToLower(s) && ToUpper(TrimSpace(s)) == ToUpper(s)
  {
    TrimSpaceTrimmed(s);
  }

  /** A raw record for a remote, full-time position paying 120000 US dollars a year at a
      technology company, advertised in English. */
  function RemoteTechRecord(): RawJobPosting
  {
    RawJobPosting("Engineer", "", "Acme", LocStr(""), SalMap(map["value" := Number(120000.0), "currency" := Text("USD")]),
                  "Full-Time", "2024-01-15", "Tech", "English", true)
  }

  /** A raw record for an on-site, full-time position in the United Kingdom paying 150000 pounds
      a year at an agency, advertised in English. */
  function UkAgencyRecord(): RawJobPosting
  {
    RawJobPosting("Analyst", "", "Globex", LocMap(map["country" := Text("UK")]),
                  SalMap(map["value" := Number(150000.0), "currency" := Text("GBP")]),
                  "full-time", "", "Agency", "English", false)
  }

  /** "English", in any spelling of its key, passes the language rule. */
  lemma EnglishPasses(job: JobPosting)
    requires job.language == "English"
    ensures HasValidLanguage(job)
  {
    KeyOfTrimmed("English");
    assert ToLower("English") == "english";
  }

  /** "Full-Time" and "full-time" pass the employment rule. */
  lemma FullTimePasses(job: JobPosting)
    requires job.employmentType == "Full-Time" || job.employmentType == "full-time"
    ensures IsFullTime(job)
  {
    KeyOfTrimmed(job.employmentType);
    assert ToLower(job.employmentType) == "full-time";
  }

  /** A company type shorter than "staffing" cannot name a staffing firm. */
  lemma ShortCompanyTypeAllowed(job: JobPosting)
    requires |job.companyType| < |"staffing"|
    ensures !IsStaffingFirm(job)
  {
    ShortTextLacks(CompanyKey(job), "staffing");
    ShortTextLacks(CompanyKey(job), "recruiting");
  }

  /** The normalized remote technology posting. */
  lemma RemoteTechNormalized(id: string)
    ensures var job := NormalizeJob(RemoteTechRecord(), id);
            && job.Success?
            && job.value.remote && job.value.salary == Salary(Number(120000.0), "USD", "")
            && job.value.employmentType == "Full-Time" && job.value.companyType == "Tech"
            && job.value.language == "English" && job.value.id == id
  {
  }

  /** The remote technology posting normalizes and is approved with no reasons. */
  lemma RemoteTechPostingApproved(parseFloat: string -> Option<real>, id: string, now: int)
    ensures var job := NormalizeJob(RemoteTechRecord(), id);
            && job.Success?
            && var r := ApproveJob(NewJobApprover(parseFloat), job.value, now);
            && r.approved && r.reasons == [] && r.jobId == id
  {
    RemoteTechNormalized(id);
    var job := NormalizeJob(RemoteTechRecord(), id).value;
    var a := NewJobApprover(parseFloat);
    DefaultThresholds(parseFloat, job, 120000.0);
    FullTimePasses(job);
    ShortCompanyTypeAllowed(job);
    EnglishPasses(job);
    assert forall rule :: Passes(a, job, rule);
  }

  /** The normalized United Kingdom posting. */
  lemma UkAgencyNormalized(id: string)
    ensures var job := NormalizeJob(UkAgencyRecord(), id);
            && job.Success?
            && !job.value.remote && job.value.location.country == "UK"
            && job.value.salary == Salary(Number(150000.0), "GBP", "")
            && job.value.employmentType == "full-time" && job.value.companyType == "Agency"
            && job.value.language == "English" && job.value.id == id
  {
  }

  /** On site in the United Kingdom fails the location rule. */
  lemma UkLocationFails(job: JobPosting)
    requires !job.remote && job.location.country == "UK"
    ensures !IsValidLocation(job)
  {
    KeyOfTrimmed("UK");
    assert ToUpper("UK") == "UK";
  }

  /** 150000 pounds a year are 190500 US dollars, above the production annual threshold. */
  lemma PoundSalaryPasses(parseFloat: string -> Option<real>, job: JobPosting)
    requires job.salary == Salary(Number(150000.0), "GBP", "")
    ensures ConvertToUSD(150000.0, "GBP") == 190500.0
    ensures MeetsSalaryRequirement(NewJobApprover(parseFloat), job)
  {
    KeyOfTrimmed("GBP");
    assert ToUpper("GBP") == "GBP";
  }

  /** The United Kingdom posting passes every rule but location: 150000 pounds are 190500 US
      dollars, and "agency" names no staffing firm. Its single reason is the location text. */
  lemma UkPostingRejectedForLocationOnly(parseFloat: string -> Option<real>, id: string, now: int)
    ensures var job := NormalizeJob(UkAgencyRecord(), id);
            && job.Success?
            && var r := ApproveJob(NewJobApprover(parseFloat), job.value, now);
            && !r.approved && r.reasons == [LocationRule]
            && ReasonTexts(r) == ["Invalid location: must be remote or in US/Canada"]
  {
    UkAgencyNormalized(id);
    var job := NormalizeJob(UkAgencyRecord(), id).value;
    var a := NewJobApprover(parseFloat);
    UkLocationFails(job);
    PoundSalaryPasses(parseFloat, job);
    FullTimePasses(job);
    ShortCompanyTypeAllowed(job);
    EnglishPasses(job);
    var r := ApproveJob(a, job, now);
    assert forall rule :: rule in r.reasons <==> rule == LocationRule;
    OrderedReasonsUnique(r.reasons, [LocationRule]);
  }

  /** The remote posting with no location at all, as a JSON `null` or an absent key, does not
      reach the approver: the normalizer rejects it as an unsupported location format. */
  lemma LocationlessRemoteRejected(id: string)
    ensures NormalizeJob(RemoteTechRecord().(location := LocOther), id) == Failure(UnsupportedLocationFormat)
  {
  }

  /** A batch whose second record has a numeric location keeps the first posting and logs one
      warning, for the second record's unsupported location. */
  method NumericLocationSkipped(clock: nat -> int) returns (jobs: seq<JobPosting>, warnings: seq<Warning>)
    ensures |jobs| == 1 && jobs[0].title == "Engineer"
    ensures warnings == [Warning(1, UnsupportedLocationFormat)]
  {
    var records := [RemoteTechRecord(), UkAgencyRecord().(location := LocOther)];
    jobs, warnings := IngestRecords(records, clock);
    var outcomes := Outcomes(records, clock);
    assert outcomes[0] == NormalizeJob(records[0], JobId(clock(0), 0));
    assert outcomes[1] == NormalizeJob(records[1], JobId(clock(1), 1));
    assert Survivors(outcomes, 2) == [outcomes[0].value];
    assert Skipped(outcomes, 2) == [Warning(1, UnsupportedLocationFormat)];
  }
}
