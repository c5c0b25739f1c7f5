/** The approver: five independent eligibility rules over a canonical posting, all of them
    evaluated, with every failed rule recorded in a fixed order. */
module Approval {
  import opened Wrappers
  import opened Strings
  import opened Models

  datatype ApprovalCriteria = ApprovalCriteria(minAnnualSalaryUSD: real, minHourlySalaryUSD: real)

  /** The approver's configuration. `parseFloat` stands for `strconv.ParseFloat`: the number a
      text denotes, or None when the parser rejects the text. */
  datatype JobApprover = JobApprover(criteria: ApprovalCriteria, parseFloat: string -> Option<real>)

  /** The production configuration: at least 100000 USD a year, or 45 USD an hour. */
  function NewJobApprover(parseFloat: string -> Option<real>): JobApprover
  {
    JobApprover(ApprovalCriteria(100000.0, 45.0), parseFloat)
  }

  const RuleOrder: seq<Rule> := [LocationRule, EmploymentRule, SalaryRule, CompanyTypeRule, LanguageRule]

  /** Position of a rule in the reporting order. */
  function Rank(rule: Rule): (k: nat)
    ensures k < |RuleOrder| && RuleOrder[k] == rule
  {
    match rule
    case LocationRule => 0
    case EmploymentRule => 1
    case SalaryRule => 2
    case CompanyTypeRule => 3
    case LanguageRule => 4
  }

  /** The posting's country, trimmed and upper-cased. */
  function CountryKey(job: JobPosting): string
  {
    ToUpper(TrimSpace(job.location.country))
  }

  predicate IsCanada(country: string)
  {
    country == "CANADA" || country == "CA"
  }

  /** Remote postings are allowed anywhere; others must be in the United States or Canada. */
  predicate IsValidLocation(job: JobPosting)
  {
    if job.remote then true
    else
      var country := CountryKey(job);
      country == "USA" || country == "US" || country == "UNITED STATES" || IsCanada(country)
  }

  /** The employment type, trimmed and lower-cased, is one of the full-time spellings. */
  predicate IsFullTime(job: JobPosting)
  {
    var t := ToLower(TrimSpace(job.employmentType));
    t == "full-time" || t == "fulltime" || t == "full time"
  }

  /** The numeric salary: a number as is, a text through the float parser, and 0 for a text
      the parser rejects and for every other value. */
  function ExtractSalaryValue(a: JobApprover, value: Value): (r: real)
    ensures value.Number? ==> r == value.n
    ensures value.Text? && a.parseFloat(value.s).Some? ==> r == a.parseFloat(value.s).value
    ensures value.Text? && a.parseFloat(value.s).None? ==> r == 0.0
    ensures !value.Number? && !value.Text? ==> r == 0.0
  {
    match value
    case Number(n) => n
    case Text(s) =>
      (match a.parseFloat(s)
       case Some(parsed) => parsed
       case None => 0.0)
    case _ => 0.0
  }

  /** The fixed exchange table, keyed by trimmed, upper-cased currency code. */
  const UsdRates: map<string, real> := map["USD" := 1.0, "CAD" := 0.74, "EUR" := 1.09, "GBP" := 1.27]

  /** The multiplier the table gives a currency; an unknown code keeps the amount as it is. */
  function UsdRate(currency: string): (rate: real)
    ensures rate > 0.0
  {
    var code := ToUpper(TrimSpace(currency));
    if code in UsdRates then UsdRates[code] else 1.0
  }

  /** Converts an amount to US dollars with the fixed rates. */
  function ConvertToUSD(amount: real, currency: string): (r: real)
    ensures r == amount * UsdRate(currency)
    ensures amount > 0.0 ==> r > 0.0
  {
    var code := ToUpper(TrimSpace(currency));
    if code == "USD" then amount
    else if code == "CAD" then amount * 0.74
    else if code == "EUR" then amount * 1.09
    else if code == "GBP" then amount * 1.27
    else amount
  }

  /** A positive salary whose USD amount reaches the threshold for its unit: the hourly one when
      the unit is exactly "hourly", the annual one otherwise. */
  predicate MeetsSalaryRequirement(a: JobApprover, job: JobPosting)
  {
    var value := ExtractSalaryValue(a, job.salary.value);
    if value <= 0.0 then false
    else
      var usd := ConvertToUSD(value, job.salary.currency);
      if job.salary.unit == "hourly" then usd >= a.criteria.minHourlySalaryUSD
      else usd >= a.criteria.minAnnualSalaryUSD
  }

  /** The company type, trimmed and lower-cased. */
  function CompanyKey(job: JobPosting): string
  {
    ToLower(TrimSpace(job.companyType))
  }

  /** The company type mentions staffing or recruiting. */
  predicate IsStaffingFirm(job: JobPosting)
  {
    var t := CompanyKey(job);
    Contains(t, "staffing") || Contains(t, "recruiting")
  }

  /** The language, trimmed and lower-cased. */
  function LanguageKey(job: JobPosting): string
  {
    ToLower(TrimSpace(job.language))
  }

  /** English anywhere; French only for postings in Canada; nothing else, and never an empty language. */
  predicate HasValidLanguage(job: JobPosting)
  {
    var language := LanguageKey(job);
    if language == "" then false
    else if language == "english" then true
    else if language == "french" || language == "fran\U{E7}ais" then IsCanada(CountryKey(job))
    else false
  }

  /** The outcome of each rule for one posting. */
  datatype RuleOutcomes = RuleOutcomes(location: bool, employment: bool, salary: bool, companyType: bool, language: bool)
  {
    predicate Holds(rule: Rule)
    {
      match rule
      case LocationRule => location
      case EmploymentRule => employment
      case SalaryRule => salary
      case CompanyTypeRule => companyType
      case LanguageRule => language
    }
  }

  /** Evaluates every rule on a posting. */
  function Evaluate(a: JobApprover, job: JobPosting): RuleOutcomes
  {
    RuleOutcomes(IsValidLocation(job), IsFullTime(job), MeetsSalaryRequirement(a, job), !IsStaffingFirm(job),
             HasValidLanguage(job))
  }

  /** Whether the posting satisfies one rule. */
  predicate Passes(a: JobApprover, job: JobPosting, rule: Rule)
  {
    Evaluate(a, job).Holds(rule)
  }

  /** Reasons listed in strictly increasing rank: the fixed order, without repetition. */
  predicate InRuleOrder(reasons: seq<Rule>)
  {
    forall i, j :: 0 <= i < j < |reasons| ==> Rank(reasons[i]) < Rank(reasons[j])
  }

  /** `r` is the verdict after the rules of rank below `k` were visited: it lists exactly those
      that failed, in order, and is approved exactly when it lists none. */
  predicate ReportedBelow(r: ApprovalResult, o: RuleOutcomes, k: nat)
  {
    && InRuleOrder(r.reasons)
    && (forall rule :: rule in r.reasons <==> Rank(rule) < k && !o.Holds(rule))
    && (r.approved <==> r.reasons == [])
  }

  /** Marks a result as rejected and records a failed rule. */
  function Reject(r: ApprovalResult, rule: Rule): ApprovalResult
  {
    r.(approved := false, reasons := r.reasons + [rule])
  }

  /** Visits one rule: a failure rejects the result and records the rule; a pass leaves it as it is. */
  function Visit(r: ApprovalResult, o: RuleOutcomes, rule: Rule): ApprovalResult
  {
    if !o.Holds(rule) then Reject(r, rule) else r
  }

  /** Visiting the next rule in order extends what the result reports by that rule. */
  lemma VisitNext(r: ApprovalResult, o: RuleOutcomes, rule: Rule)
    requires ReportedBelow(r, o, Rank(rule))
    ensures ReportedBelow(Visit(r, o, rule), o, Rank(rule) + 1)
    ensures Visit(r, o, rule).jobId == r.jobId && Visit(r, o, rule).processedAt == r.processedAt
  {
    if !o.Holds(rule) {
      var reasons := r.reasons + [rule];
      forall i, j | 0 <= i < j < |reasons|
        ensures Rank(reasons[i]) < Rank(reasons[j])
      {
        if j == |reasons| - 1 {
          assert reasons[i] in r.reasons;
        }
      }
    }
  }

  /** The verdict assembled from the outcome of each rule: the result starts approved with no
      reasons, and the rules are visited in the fixed order. */
  function Verdict(id: string, now: int, o: RuleOutcomes): (r: ApprovalResult)
    ensures r.jobId == id && r.processedAt == now
    ensures r.approved <==> r.reasons == []
    ensures forall rule :: rule in r.reasons <==> !o.Holds(rule)
    ensures InRuleOrder(r.reasons)
  {
    var r0 := ApprovalResult(id, true, [], now);
    var r1 := Visit(r0, o, LocationRule);
    var r2 := Visit(r1, o, EmploymentRule);
    var r3 := Visit(r2, o, SalaryRule);
    var r4 := Visit(r3, o, CompanyTypeRule);
    var r5 := Visit(r4, o, LanguageRule);
    VisitNext(r0, o, LocationRule);
    VisitNext(r1, o, EmploymentRule);
    VisitNext(r2, o, SalaryRule);
    VisitNext(r3, o, CompanyTypeRule);
    VisitNext(r4, o, LanguageRule);
    r5
  }

  /** `ApproveJob`: every rule is evaluated, in the order location, employment type, salary,
      company type, language, and each one that fails rejects the posting and is recorded.
      `now` is the processing time. */
  function ApproveJob(a: JobApprover, job: JobPosting, now: int): (r: ApprovalResult)
    ensures r.jobId == job.id && r.processedAt == now
    ensures r.approved <==> r.reasons == []
    ensures forall rule :: rule in r.reasons <==> !Passes(a, job, rule)
    ensures InRuleOrder(r.reasons)
  {
    Verdict(job.id, now, Evaluate(a, job))
  }

  /** In an ordered list, a rule's rank is at least its position. */
  lemma {:induction false} RankAtLeastPosition(reasons: seq<Rule>, i: nat)
    requires InRuleOrder(reasons) && i < |reasons|
    ensures Rank(reasons[i]) >= i
    decreases i
  {
    if i > 0 {
      RankAtLeastPosition(reasons, i - 1);
    }
  }

  /** An ordered list of reasons names each rule at most once, so it has at most five entries. */
  lemma AtMostFiveReasons(reasons: seq<Rule>)
    requires InRuleOrder(reasons)
    ensures |reasons| <= |RuleOrder|
  {
    if |reasons| > 0 {
      RankAtLeastPosition(reasons, |reasons| - 1);
    }
  }

  /** An ordered list of reasons is determined by the rules it names. */
  lemma {:induction false} OrderedReasonsUnique(x: seq<Rule>, y: seq<Rule>)
    requires InRuleOrder(x) && InRuleOrder(y)
    requires forall rule :: rule in x <==> rule in y
    ensures x == y
    decreases |x|
  {
    assert |x| > 0 ==> x[0] in y;
    assert |y| > 0 ==> y[0] in x;
    if |x| > 0 {
      assert x[0] == y[0] by {
        var k :| 0 <= k < |y| && y[k] == x[0];
        var m :| 0 <= m < |x| && x[m] == y[0];
        assert Rank(x[0]) <= Rank(x[m]);
        assert Rank(y[0]) <= Rank(y[k]);
        assert RuleOrder[Rank(x[0])] == x[0] && RuleOrder[Rank(y[0])] == y[0];
      }
      forall rule
        ensures rule in x[1..] <==> rule in y[1..]
      {
        assert rule in x[1..] <==> rule in x && rule != x[0];
        assert rule in y[1..] <==> rule in y && rule != y[0];
      }
      OrderedReasonsUnique(x[1..], y[1..]);
      assert x == [x[0]] + x[1..] && y == [y[0]] + y[1..];
    }
  }

  /** An ordered list naming the location rule and the rules of another ordered list is that
      list with the location rule in front. */
  lemma LocationFirst(x: seq<Rule>, y: seq<Rule>)
    requires InRuleOrder(x) && InRuleOrder(y) && LocationRule !in y
    requires forall rule :: rule in x <==> rule == LocationRule || rule in y
    ensures x == [LocationRule] + y
  {
    assert x[0] == LocationRule by {
      var k :| 0 <= k < |x| && x[k] == LocationRule;
      assert k == 0 || Rank(x[0]) < Rank(x[k]);
    }
    forall rule
      ensures rule in x[1..] <==> rule in y
    {
      assert rule in x[1..] <==> rule in x && rule != x[0];
    }
    OrderedReasonsUnique(x[1..], y);
    assert x == [x[0]] + x[1..];
  }

  /** The verdict on a posting: approved exactly when every rule passes, at most one reason per
      rule, and the reasons are exactly the failing rules in the fixed order. */
  lemma VerdictSummary(a: JobApprover, job: JobPosting, now: int)
    ensures var r := ApproveJob(a, job, now);
            && (r.approved <==> forall rule :: Passes(a, job, rule))
            && |r.reasons| <= |RuleOrder|
            && (forall i, j :: 0 <= i < j < |r.reasons| ==> r.reasons[i] != r.reasons[j])
  {
    var r := ApproveJob(a, job, now);
    AtMostFiveReasons(r.reasons);
    if !r.approved {
      assert r.reasons[0] in r.reasons;
    }
  }

  /** Marking a posting remote makes the location rule pass and changes no other rule. */
  lemma RemoteOnlyChangesLocation(a: JobApprover, job: JobPosting)
    ensures forall rule :: Passes(a, job.(remote := true), rule) <==> rule == LocationRule || Passes(a, job, rule)
  {
    var remote := job.(remote := true);
    assert IsFullTime(remote) == IsFullTime(job);
    assert MeetsSalaryRequirement(a, remote) == MeetsSalaryRequirement(a, job);
    assert IsStaffingFirm(remote) == IsStaffingFirm(job);
    assert HasValidLanguage(remote) == HasValidLanguage(job);
  }

  /** Marking a posting remote removes the location reason, when there was one, and leaves every
      other reason in place. */
  lemma RemoteClearsOnlyLocation(a: JobApprover, job: JobPosting, now: int)
    ensures var before := ApproveJob(a, job, now);
            var after := ApproveJob(a, job.(remote := true), now);
            before.reasons == (if IsValidLocation(job) then [] else [LocationRule]) + after.reasons
  {
    var remote := job.(remote := true);
    var before := ApproveJob(a, job, now).reasons;
    var after := ApproveJob(a, remote, now).reasons;
    RemoteOnlyChangesLocation(a, job);
    if IsValidLocation(job) {
      OrderedReasonsUnique(before, after);
    } else {
      LocationFirst(before, after);
    }
  }

  /** Raising a numeric salary never turns a passing salary into a failing one. */
  lemma SalaryMonotone(a: JobApprover, job: JobPosting, amount: real)
    requires job.salary.value.Number? && job.salary.value.n <= amount
    requires MeetsSalaryRequirement(a, job)
    ensures MeetsSalaryRequirement(a, job.(salary := job.salary.(value := Number(amount))))
  {
    var rate := UsdRate(job.salary.currency);
    assert job.salary.value.n * rate <= amount * rate;
  }

  /** A salary that is not a positive number fails, whatever its unit and currency: a missing,
      boolean or nested value, a text the parser rejects, and a number or parsed text at or
      below zero. */
  lemma NonPositiveSalaryFails(a: JobApprover, job: JobPosting)
    requires match job.salary.value
             case Number(n) => n <= 0.0
             case Text(s) => a.parseFloat(s).None? || a.parseFloat(s).value <= 0.0
             case _ => true
    ensures !MeetsSalaryRequirement(a, job)
  {
  }

  /** A text salary the parser reads as `x` is judged exactly like the number `x`. */
  lemma NumericTextLikeNumber(a: JobApprover, job: JobPosting, s: string, x: real)
    requires a.parseFloat(s) == Some(x)
    ensures MeetsSalaryRequirement(a, job.(salary := job.salary.(value := Text(s))))
            == MeetsSalaryRequirement(a, job.(salary := job.salary.(value := Number(x))))
  {
  }

  /** Different rules report different texts, so the texts identify the failed rules. */
  lemma ReasonTextsDistinct(c: Rule, d: Rule)
    ensures ReasonText(c) == ReasonText(d) <==> c == d
  {
    ReasonTextLength(c);
    ReasonTextLength(d);
    assert ReasonText(LocationRule)[8] == 'l';
    assert ReasonText(CompanyTypeRule)[8] == 'c';
  }

  /** The length of each reason text; only the location and company-type texts share one. */
  lemma ReasonTextLength(rule: Rule)
    ensures |ReasonText(rule)| ==
              match rule
              case LocationRule => 48
              case EmploymentRule => 42
              case SalaryRule => 55
              case CompanyTypeRule => 48
              case LanguageRule => 61
  {
  }

  /** Two texts that agree after trimming and lower-casing. */
  predicate SameKey(x: string, y: string)
  {
    ToLower(TrimSpace(x)) == ToLower(TrimSpace(y))
  }

  /** The upper-cased key of a text is determined by its lower-cased key. */
  lemma UpperKeyFromLowerKey(x: string, y: string)
    requires SameKey(x, y)
    ensures ToUpper(TrimSpace(x)) == ToUpper(TrimSpace(y))
  {
    CaseMappingsAbsorb(TrimSpace(x));
    CaseMappingsAbsorb(TrimSpace(y));
  }

  /** Padding a text with white space or lower-casing its letters keeps its key. */
  lemma SameKeyUnderPaddingAndCase(p: string, x: string, q: string)
    requires AllSpace(p) && AllSpace(q)
    ensures SameKey(p + ToLower(x) + q, x)
  {
    TrimSpaceIgnoresPadding(p, ToLower(x), q);
    TrimSpaceLower(x);
    CaseMappingsAbsorb(TrimSpace(x));
  }

  /** The currency is read modulo surrounding white space and letter case. */
  lemma ConvertReadsCurrencyKey(amount: real, c1: string, c2: string)
    requires SameKey(c1, c2)
    ensures ConvertToUSD(amount, c1) == ConvertToUSD(amount, c2)
  {
    UpperKeyFromLowerKey(c1, c2);
  }

  /** Every rule reads the country, employment type, company type and language only modulo
      surrounding white space and letter case: postings that agree on those keys and on every
      other field the rules read get the same verdict. */
  lemma ApprovalReadsKeys(a: JobApprover, job1: JobPosting, job2: JobPosting, now: int)
    requires job1.id == job2.id && job1.remote == job2.remote
    requires job1.salary.value == job2.salary.value && job1.salary.unit == job2.salary.unit
    requires SameKey(job1.salary.currency, job2.salary.currency)
    requires SameKey(job1.location.country, job2.location.country)
    requires SameKey(job1.employmentType, job2.employmentType)
    requires SameKey(job1.companyType, job2.companyType)
    requires SameKey(job1.language, job2.language)
    ensures ApproveJob(a, job1, now) == ApproveJob(a, job2, now)
  {
    UpperKeyFromLowerKey(job1.location.country, job2.location.country);
    ConvertReadsCurrencyKey(ExtractSalaryValue(a, job1.salary.value), job1.salary.currency, job2.salary.currency);
    assert Evaluate(a, job1) == Evaluate(a, job2);
  }

  /** Outside remote postings, the location rule accepts exactly the countries that, once
      upper-cased, are one of five spellings surrounded by nothing but white space. */
  lemma LocationCountries(job: JobPosting)
    ensures IsValidLocation(job) <==>
              job.remote || Padded(ToUpper(job.location.country), {"USA", "US", "UNITED STATES", "CANADA", "CA"})
  {
    TrimSpaceUpper(job.location.country);
    TrimmedIn(ToUpper(job.location.country), {"USA", "US", "UNITED STATES", "CANADA", "CA"});
  }

  /** The employment rule accepts exactly the employment types that, once lower-cased, are one of
      three spellings of full-time surrounded by nothing but white space. */
  lemma FullTimeSpellings(job: JobPosting)
    ensures IsFullTime(job) <==> Padded(ToLower(job.employmentType), {"full-time", "fulltime", "full time"})
  {
    TrimSpaceLower(job.employmentType);
    TrimmedIn(ToLower(job.employmentType), {"full-time", "fulltime", "full time"});
  }

  /** The company rule rejects exactly the company types in which "staffing" or "recruiting"
      occurs at some position. */
  lemma StaffingFirmOccurrence(job: JobPosting)
    ensures IsStaffingFirm(job) <==>
              (exists i :: OccursAt(CompanyKey(job), "staffing", i)) || (exists i :: OccursAt(CompanyKey(job), "recruiting", i))
  {
    ContainsIffOccurs(CompanyKey(job), "staffing");
    ContainsIffOccurs(CompanyKey(job), "recruiting");
  }

  /** A language made only of white space (in particular the empty one) fails. */
  lemma BlankLanguageFails(job: JobPosting)
    requires AllSpace(job.language)
    ensures !HasValidLanguage(job)
  {
    TrimSpaceIgnoresPadding(job.language, "", "");
    assert job.language + "" + "" == job.language;
  }

  /** The country is Canada exactly when, upper-cased, it is "CANADA" or "CA" padded with white space. */
  lemma CanadaSpellings(job: JobPosting)
    ensures IsCanada(CountryKey(job)) <==> Padded(ToUpper(job.location.country), {"CANADA", "CA"})
  {
    TrimSpaceUpper(job.location.country);
    TrimmedIn(ToUpper(job.location.country), {"CANADA", "CA"});
  }

  /** The language key is one of `words` exactly when the lower-cased language is one of them
      padded with white space. */
  lemma LanguageSpellings(job: JobPosting, words: set<string>)
    requires forall w :: w in words ==> NoSpaceAtEnds(w)
    ensures LanguageKey(job) in words <==> Padded(ToLower(job.language), words)
  {
    TrimSpaceLower(job.language);
    TrimmedIn(ToLower(job.language), words);
  }

  /** English passes wherever the posting is; French passes exactly for postings in Canada;
      every other language fails. Each spelling is matched after case mapping, with any white
      space around it. */
  lemma LanguageCases(job: JobPosting)
    ensures HasValidLanguage(job) <==>
              || Padded(ToLower(job.language), {"english"})
              || (&& Padded(ToLower(job.language), {"french", "fran\U{E7}ais"})
                  && Padded(ToUpper(job.location.country), {"CANADA", "CA"}))
  {
    CanadaSpellings(job);
    LanguageSpellings(job, {"english"});
    LanguageSpellings(job, {"french", "fran\U{E7}ais"});
  }

  /** With the production configuration and an amount in US dollars, an hourly salary passes
      from 45 on and any other salary from 100000 on. */
  lemma DefaultThresholds(parseFloat: string -> Option<real>, job: JobPosting, amount: real)
    requires job.salary.value == Number(amount) && job.salary.currency == "USD"
    ensures MeetsSalaryRequirement(NewJobApprover(parseFloat), job) <==>
              if job.salary.unit == "hourly" then amount >= 45.0 else amount >= 100000.0
  {
    assert UsdRate("USD") == 1.0 by {
      TrimSpaceTrimmed("USD");
      assert ToUpper("USD") == "USD";
    }
  }
}
