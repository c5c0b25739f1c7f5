/** The normalizer: turns a raw, loosely typed job record into a canonical posting, and a
    decoded batch of records into the postings that normalize, in order. */
module Ingestion {
  import opened Wrappers
  import opened Strings
  import opened Dates
  import opened Models

  datatype NormalizeError = UnsupportedLocationFormat | UnsupportedSalaryFormat

  /** The entry under `key` when it holds a JSON string; otherwise the empty string. */
  function StringEntry(fields: Fields, key: string): string
  {
    if key in fields && fields[key].Text? then fields[key].s else ""
  }

  /** `v` is the string stored under `key`, or empty when the key is missing or holds a non-string. */
  predicate CopiedOrEmpty(fields: Fields, key: string, v: string)
  {
    && (key in fields && fields[key].Text? ==> v == fields[key].s)
    && (key !in fields || !fields[key].Text? ==> v == "")
  }

  /** Every segment with its surrounding white space removed. */
  function TrimAll(segments: seq<string>): seq<string>
  {
    seq(|segments|, i requires 0 <= i < |segments| => TrimSpace(segments[i]))
  }

  /** The positional rule: three parts are city, state and country; two are city and country;
      one is the city; more keep the first as city and the last as country. */
  function AssignParts(parts: seq<string>): Location
    requires |parts| >= 1
  {
    if |parts| == 3 then Location(parts[0], parts[1], parts[2])
    else if |parts| == 2 then Location(parts[0], "", parts[1])
    else if |parts| == 1 then Location(parts[0], "", "")
    else Location(parts[0], "", parts[|parts| - 1])
  }

  /** Reads a free-text location: the text is split at every comma, each segment is trimmed,
      and the segments are assigned by how many there are. */
  function ParseLocationString(s: string): (r: Location)
    ensures NoSpaceAtEnds(r.city) && NoSpaceAtEnds(r.state) && NoSpaceAtEnds(r.country)
    ensures ',' !in r.city && ',' !in r.state && ',' !in r.country
    ensures Count(s, ',') != 2 ==> r.state == ""
    ensures Count(s, ',') == 0 ==> r.country == ""
  {
    SplitCount(s, ',');
    SplitPartsFree(s, ',');
    AssignParts(TrimAll(Split(s, ',')))
  }

  /** Decodes the raw `location`: an object has its string-typed city, state and country copied,
      a string is read positionally, and every other shape is rejected. */
  function NormalizeLocation(raw: RawLocation): (r: Result<Location, NormalizeError>)
    ensures r.Failure? <==> raw.LocOther?
    ensures r.Failure? ==> r.error == UnsupportedLocationFormat
    ensures raw.LocMap? ==> && CopiedOrEmpty(raw.fields, "city", r.value.city)
                            && CopiedOrEmpty(raw.fields, "state", r.value.state)
                            && CopiedOrEmpty(raw.fields, "country", r.value.country)
    ensures raw.LocStr? ==> r.value == ParseLocationString(raw.text)
  {
    match raw
    case LocMap(fields) =>
      Success(Location(StringEntry(fields, "city"), StringEntry(fields, "state"), StringEntry(fields, "country")))
    case LocStr(text) => Success(ParseLocationString(text))
    case LocOther => Failure(UnsupportedLocationFormat)
  }

  /** Decodes the raw `salary`: an object has its `value` copied as is and its string-typed
      currency and unit copied, a bare number is an annual USD amount, and every other shape
      is rejected. */
  function NormalizeSalary(raw: RawSalary): (r: Result<Salary, NormalizeError>)
    ensures r.Failure? <==> raw.SalOther?
    ensures r.Failure? ==> r.error == UnsupportedSalaryFormat
    ensures raw.SalNum? ==> r.value == Salary(Number(raw.amount), "USD", "")
    ensures raw.SalMap? ==> && r.value.value == (if "value" in raw.fields then raw.fields["value"] else Null)
                            && CopiedOrEmpty(raw.fields, "currency", r.value.currency)
                            && CopiedOrEmpty(raw.fields, "unit", r.value.unit)
  {
    match raw
    case SalMap(fields) =>
      var value := if "value" in fields then fields["value"] else Null;
      Success(Salary(value, StringEntry(fields, "currency"), StringEntry(fields, "unit")))
    case SalNum(amount) => Success(Salary(Number(amount), "USD", ""))
    case SalOther => Failure(UnsupportedSalaryFormat)
  }

  /** The posting date: the parsed date when the text is a valid "2006-01-02" date,
      otherwise the moment of ingestion. */
  function ParsePostingDate(s: string): (r: PostingDate)
    ensures r.On? <==> ParseDate(s).Some?
    ensures r.On? ==> Valid(r.date) && |s| == 10
    ensures r.On? ==> r.date == ParseDate(s).value && FormatDate(r.date) == s
    ensures s == "" ==> r == IngestTime
  {
    if s != "" then
      match ParseDate(s)
      case Some(d) => FormatParse(s); On(d)
      case None => IngestTime
    else IngestTime
  }

  /** Normalizes one record under the given identifier. The location is decoded before the
      salary, so a record with both fields malformed reports the location. */
  function NormalizeJob(raw: RawJobPosting, id: string): (r: Result<JobPosting, NormalizeError>)
    ensures r.Success? <==> !raw.location.LocOther? && !raw.salary.SalOther?
    ensures raw.location.LocOther? ==> r == Failure(UnsupportedLocationFormat)
    ensures !raw.location.LocOther? && raw.salary.SalOther? ==> r == Failure(UnsupportedSalaryFormat)
    ensures r.Success? ==>
      && r.value.id == id
      && r.value.title == raw.title
      && r.value.description == raw.description
      && r.value.company == raw.company
      && r.value.employmentType == raw.employmentType
      && r.value.companyType == raw.companyType
      && r.value.language == raw.language
      && r.value.remote == raw.remote
      && Success(r.value.location) == NormalizeLocation(raw.location)
      && Success(r.value.salary) == NormalizeSalary(raw.salary)
      && r.value.postingDate == ParsePostingDate(raw.postingDate)
  {
    var job := JobPosting(id, raw.title, raw.description, raw.company, Location("", "", ""),
                          Salary(Null, "", ""), raw.employmentType, ParsePostingDate(raw.postingDate),
                          raw.companyType, raw.language, raw.remote);
    match NormalizeLocation(raw.location)
    case Failure(e) => Failure(e)
    case Success(location) =>
      match NormalizeSalary(raw.salary)
      case Failure(e) => Failure(e)
      case Success(salary) => Success(job.(location := location, salary := salary))
  }

  // ---------------------------------------------------------------------------------------
  // Positional reading of location strings

  /** A text without commas is a city alone. */
  lemma ParseOneSegment(a: string)
    requires ',' !in a
    ensures ParseLocationString(a) == Location(TrimSpace(a), "", "")
  {
    SplitNone(a, ',');
    assert ParseLocationString(a) == AssignParts(TrimAll([a]));
    assert TrimAll([a]) == [TrimSpace(a)];
  }

  lemma TrimAllPair(a: string, b: string)
    ensures TrimAll([a, b]) == [TrimSpace(a), TrimSpace(b)]
  {
  }

  lemma TrimAllTriple(a: string, b: string, c: string)
    ensures TrimAll([a, b, c]) == [TrimSpace(a), TrimSpace(b), TrimSpace(c)]
  {
  }

  /** "City, Country": the state stays empty. */
  lemma ParseTwoSegments(a: string, b: string)
    requires ',' !in a && ',' !in b
    ensures ParseLocationString(a + "," + b) == Location(TrimSpace(a), "", TrimSpace(b))
  {
    assert Split(a + "," + b, ',') == [a, b] by {
      SplitConcat(a, ',', b);
      SplitNone(a, ',');
      SplitNone(b, ',');
    }
    TrimAllPair(a, b);
    assert AssignParts([TrimSpace(a), TrimSpace(b)]) == Location(TrimSpace(a), "", TrimSpace(b));
  }

  /** "City, State, Country", in that order. */
  lemma ParseThreeSegments(a: string, b: string, c: string)
    requires ',' !in a && ',' !in b && ',' !in c
    ensures ParseLocationString(a + "," + b + "," + c) == Location(TrimSpace(a), TrimSpace(b), TrimSpace(c))
  {
    assert Split(a + "," + b + "," + c, ',') == [a, b, c] by {
      assert a + "," + b + "," + c == a + [','] + (b + [','] + c);
      SplitConcat(a, ',', b + [','] + c);
      SplitConcat(b, ',', c);
      SplitNone(a, ',');
      SplitNone(b, ',');
      SplitNone(c, ',');
    }
    TrimAllTriple(a, b, c);
    assert AssignParts([TrimSpace(a), TrimSpace(b), TrimSpace(c)]) == Location(TrimSpace(a), TrimSpace(b), TrimSpace(c));
  }

  /** The segments of a text with at least three commas, where the first and last segment are
      comma-free. */
  lemma SplitMany(a: string, m1: string, m2: string, z: string)
    requires ',' !in a && ',' !in z
    ensures var segments := Split(a + "," + m1 + "," + m2 + "," + z, ',');
            |segments| >= 4 && segments[0] == a && segments[|segments| - 1] == z
  {
    var t2 := m2 + [','] + z;
    var t1 := m1 + [','] + t2;
    assert a + "," + m1 + "," + m2 + "," + z == a + [','] + t1;
    assert Split(t2, ',') == Split(m2, ',') + [z] by {
      SplitConcat(m2, ',', z);
      SplitNone(z, ',');
    }
    assert Split(t1, ',') == Split(m1, ',') + Split(t2, ',') by {
      SplitConcat(m1, ',', t2);
    }
    assert Split(a + [','] + t1, ',') == [a] + Split(t1, ',') by {
      SplitConcat(a, ',', t1);
      SplitNone(a, ',');
    }
  }

  /** Four or more segments: the first is the city, the last the country, the middle ones are lost. */
  lemma ParseManySegments(a: string, m1: string, m2: string, z: string)
    requires ',' !in a && ',' !in z
    ensures ParseLocationString(a + "," + m1 + "," + m2 + "," + z) == Location(TrimSpace(a), "", TrimSpace(z))
  {
    var s := a + "," + m1 + "," + m2 + "," + z;
    var segments := Split(s, ',');
    SplitMany(a, m1, m2, z);
    var parts := TrimAll(segments);
    assert |parts| == |segments|;
    assert parts[0] == TrimSpace(a);
    assert parts[|parts| - 1] == TrimSpace(z);
  }

  /** Writing a location as "city, state, country" and reading it back gives it unchanged,
      provided its parts are trimmed and free of commas. */
  lemma LocationStringRoundTrip(loc: Location)
    requires NoSpaceAtEnds(loc.city) && NoSpaceAtEnds(loc.state) && NoSpaceAtEnds(loc.country)
    requires ',' !in loc.city && ',' !in loc.state && ',' !in loc.country
    ensures NormalizeLocation(LocStr(loc.city + ", " + loc.state + ", " + loc.country)) == Success(loc)
  {
    var b := " " + loc.state;
    var c := " " + loc.country;
    var text := loc.city + ", " + loc.state + ", " + loc.country;
    assert text == loc.city + "," + b + "," + c by {
      assert ", " + loc.state == "," + b;
      assert ", " + loc.country == "," + c;
    }
    assert ParseLocationString(loc.city + "," + b + "," + c) == loc by {
      assert ',' !in b && ',' !in c;
      ParseThreeSegments(loc.city, b, c);
      TrimSpaceTrimmed(loc.city);
      TrimSpaceAfterBlank(loc.state);
      TrimSpaceAfterBlank(loc.country);
    }
  }

  // ---------------------------------------------------------------------------------------
  // Re-normalizing canonical values

  /** A canonical location fed back as a structured object normalizes to itself. */
  lemma StructuredLocationIdempotent(loc: Location)
    ensures NormalizeLocation(LocMap(map["city" := Text(loc.city), "state" := Text(loc.state), "country" := Text(loc.country)]))
            == Success(loc)
  {
  }

  /** A canonical salary fed back as a structured object normalizes to itself. */
  lemma StructuredSalaryIdempotent(sal: Salary)
    ensures NormalizeSalary(SalMap(map["value" := sal.value, "currency" := Text(sal.currency), "unit" := Text(sal.unit)]))
            == Success(sal)
  {
  }

  /** A valid date written in the feed's layout becomes the posting date. */
  lemma PostingDateRoundTrip(d: Date)
    requires Valid(d)
    ensures ParsePostingDate(FormatDate(d)) == On(d)
  {
    ParseFormat(d);
  }

  /** A canonical posting written back as a raw record: location and salary as objects, and the
      posting date in the feed's layout, or empty when it was the moment of ingestion. */
  function ToRaw(job: JobPosting): RawJobPosting
    requires job.postingDate.On? ==> Valid(job.postingDate.date)
  {
    var loc := job.location;
    var sal := job.salary;
    RawJobPosting(job.title, job.description, job.company,
                  LocMap(map["city" := Text(loc.city), "state" := Text(loc.state), "country" := Text(loc.country)]),
                  SalMap(map["value" := sal.value, "currency" := Text(sal.currency), "unit" := Text(sal.unit)]),
                  job.employmentType,
                  (match job.postingDate
                   case On(d) => FormatDate(d)
                   case IngestTime => ""),
                  job.companyType, job.language, job.remote)
  }

  /** Normalization is idempotent: a canonical posting written back as a raw record and normalized
      under its own identifier comes back field for field. */
  lemma CanonicalJobIdempotent(job: JobPosting)
    requires job.postingDate.On? ==> Valid(job.postingDate.date)
    ensures NormalizeJob(ToRaw(job), job.id) == Success(job)
  {
    StructuredLocationIdempotent(job.location);
    StructuredSalaryIdempotent(job.salary);
    if job.postingDate.On? {
      PostingDateRoundTrip(job.postingDate.date);
    }
  }

  // ---------------------------------------------------------------------------------------
  // Batches

  /** The identifier given to the record at `index`, stamped with the Unix second read from the
      clock during that iteration: "job_<stamp>_<index>". */
  function JobId(stamp: int, index: nat): (id: string)
    ensures |id| > 0
  {
    "job_" + IntToString(stamp) + "_" + NatToString(index)
  }

  /** A separator occurring in neither head splits equal texts identically. */
  lemma {:induction false} SplitAtFirst(x: string, y: string, z: string, w: string, u: char)
    requires u !in x && u !in z
    requires x + [u] + y == z + [u] + w
    ensures x == z && y == w
  {
    var s := x + [u] + y;
    assert s[..|x|] == x && s[|x|] == u;
    assert s[..|z|] == z && s[|z|] == u;
    assert |x| == |z|;
    assert y == s[|x| + 1..] == w;
  }

  /** Identifiers determine the stamp and the index they were built from. */
  lemma JobIdInjective(s1: int, i: nat, s2: int, j: nat)
    requires JobId(s1, i) == JobId(s2, j)
    ensures s1 == s2 && i == j
  {
    var a, b := IntToString(s1), NatToString(i);
    var c, d := IntToString(s2), NatToString(j);
    assert JobId(s1, i) == "job_" + (a + ['_'] + b);
    assert JobId(s2, j) == "job_" + (c + ['_'] + d);
    assert a + ['_'] + b == JobId(s1, i)[4..] == c + ['_'] + d;
    assert '_' !in a && '_' !in c;
    SplitAtFirst(a, b, c, d, '_');
    IntToStringInjective(s1, s2);
    NatToStringInjective(i, j);
  }

  /** The outcome of normalizing each record of the batch under the identifier the loop gives it. */
  function Outcomes(records: seq<RawJobPosting>, clock: nat -> int): seq<Result<JobPosting, NormalizeError>>
  {
    seq(|records|, i requires 0 <= i < |records| => NormalizeJob(records[i], JobId(clock(i), i)))
  }

  /** The postings among the first `n` outcomes that succeeded, in order. */
  function Survivors(outcomes: seq<Result<JobPosting, NormalizeError>>, n: nat): seq<JobPosting>
    requires n <= |outcomes|
  {
    if n == 0 then []
    else
      Survivors(outcomes, n - 1) +
        match outcomes[n - 1]
        case Success(job) => [job]
        case Failure(_) => []
  }

  /** The positions among the first `n` outcomes that succeeded. */
  function Kept(outcomes: seq<Result<JobPosting, NormalizeError>>, n: nat): seq<nat>
    requires n <= |outcomes|
  {
    if n == 0 then []
    else Kept(outcomes, n - 1) + (if outcomes[n - 1].Success? then [n - 1] else [])
  }

  /** The warning logged for a skipped record: its position in the batch and the error. */
  datatype Warning = Warning(index: nat, error: NormalizeError)

  /** The warnings for the first `n` outcomes: one per failure, in order. */
  function Skipped(outcomes: seq<Result<JobPosting, NormalizeError>>, n: nat): seq<Warning>
    requires n <= |outcomes|
  {
    if n == 0 then []
    else
      Skipped(outcomes, n - 1) +
        match outcomes[n - 1]
        case Success(_) => []
        case Failure(e) => [Warning(n - 1, e)]
  }

  /** `IngestFromJSON` after decoding: every record is normalized under its own identifier, a
      record that fails is skipped with a warning carrying its position and error, and the batch as a whole
      never fails. `clock(i)` is the Unix second read during iteration `i`. */
  method IngestRecords(records: seq<RawJobPosting>, clock: nat -> int) returns (jobs: seq<JobPosting>, warnings: seq<Warning>)
    ensures jobs == Survivors(Outcomes(records, clock), |records|)
    ensures warnings == Skipped(Outcomes(records, clock), |records|)
    ensures |jobs| + |warnings| == |records|
  {
    ghost var outcomes := Outcomes(records, clock);
    jobs, warnings := [], [];
    var i := 0;
    while i < |records|
      invariant 0 <= i <= |records|
      invariant jobs == Survivors(outcomes, i)
      invariant warnings == Skipped(outcomes, i)
      invariant |jobs| + |warnings| == i
    {
      var outcome := NormalizeJob(records[i], JobId(clock(i), i));
      assert outcome == outcomes[i];
      match outcome {
        case Failure(e) =>
          warnings := warnings + [Warning(i, e)];
        case Success(job) =>
          jobs := jobs + [job];
      }
      i := i + 1;
    }
  }

  /** Survivor `k` is the posting of outcome `Kept[k]`. */
  lemma {:induction false} KeptYieldsSurvivors(outcomes: seq<Result<JobPosting, NormalizeError>>, n: nat)
    requires n <= |outcomes|
    ensures |Kept(outcomes, n)| == |Survivors(outcomes, n)|
    ensures forall k :: 0 <= k < |Kept(outcomes, n)| ==>
              Kept(outcomes, n)[k] < n && outcomes[Kept(outcomes, n)[k]] == Success(Survivors(outcomes, n)[k])
  {
    if n > 0 {
      KeptYieldsSurvivors(outcomes, n - 1);
    }
  }

  /** The kept positions are strictly increasing, so survivors keep the order of the records. */
  lemma {:induction false} KeptIncreasing(outcomes: seq<Result<JobPosting, NormalizeError>>, n: nat)
    requires n <= |outcomes|
    ensures forall k :: 0 <= k < |Kept(outcomes, n)| ==> Kept(outcomes, n)[k] < n
    ensures forall k, l :: 0 <= k < l < |Kept(outcomes, n)| ==> Kept(outcomes, n)[k] < Kept(outcomes, n)[l]
  {
    if n > 0 {
      KeptIncreasing(outcomes, n - 1);
    }
  }

  /** A position is kept exactly when its outcome is a posting. */
  lemma {:induction false} KeptExactly(outcomes: seq<Result<JobPosting, NormalizeError>>, n: nat)
    requires n <= |outcomes|
    ensures forall i: nat :: i in Kept(outcomes, n) <==> i < n && outcomes[i].Success?
  {
    if n > 0 {
      KeptExactly(outcomes, n - 1);
    }
  }

  /** A record is reported by a warning exactly when its normalization fails, and the warning
      carries that failure's error. */
  lemma {:induction false} SkippedExactly(outcomes: seq<Result<JobPosting, NormalizeError>>, n: nat)
    requires n <= |outcomes|
    ensures forall w :: w in Skipped(outcomes, n) <==> w.index < n && outcomes[w.index] == Failure(w.error)
  {
    if n > 0 {
      SkippedExactly(outcomes, n - 1);
    }
  }

  /** No two surviving postings share an identifier, whatever the clock reads. */
  lemma {:induction false} SurvivorIdsDistinct(records: seq<RawJobPosting>, clock: nat -> int)
    ensures var jobs := Survivors(Outcomes(records, clock), |records|);
            forall k, l :: 0 <= k < l < |jobs| ==> jobs[k].id != jobs[l].id
  {
    var outcomes := Outcomes(records, clock);
    var n := |records|;
    var jobs := Survivors(outcomes, n);
    var kept := Kept(outcomes, n);
    KeptYieldsSurvivors(outcomes, n);
    KeptIncreasing(outcomes, n);
    forall k, l | 0 <= k < l < |jobs|
      ensures jobs[k].id != jobs[l].id
    {
      assert outcomes[kept[k]] == Success(jobs[k]);
      assert outcomes[kept[l]] == Success(jobs[l]);
      assert jobs[k].id == JobId(clock(kept[k]), kept[k]);
      assert jobs[l].id == JobId(clock(kept[l]), kept[l]);
      if jobs[k].id == jobs[l].id {
        JobIdInjective(clock(kept[k]), kept[k], clock(kept[l]), kept[l]);
      }
    }
  }

  /** Every outcome is either kept as a posting or skipped with a warning. */
  lemma {:induction false} SurvivorsPlusSkipped(outcomes: seq<Result<JobPosting, NormalizeError>>, n: nat)
    requires n <= |outcomes|
    ensures |Survivors(outcomes, n)| + |Skipped(outcomes, n)| == n
  {
    if n > 0 {
      SurvivorsPlusSkipped(outcomes, n - 1);
    }
  }

  /** When every outcome among the first `n` is a posting, nothing is skipped. */
  lemma {:induction false} AllSucceed(outcomes: seq<Result<JobPosting, NormalizeError>>, n: nat)
    requires n <= |outcomes|
    requires forall i :: 0 <= i < n ==> outcomes[i].Success?
    ensures |Survivors(outcomes, n)| == n
    ensures Skipped(outcomes, n) == []
  {
    if n > 0 {
      AllSucceed(outcomes, n - 1);
    }
  }

  /** A batch whose every record has a supported location and salary shape loses nothing. */
  lemma {:induction false} WellShapedBatchKeepsAll(records: seq<RawJobPosting>, clock: nat -> int)
    requires forall i :: 0 <= i < |records| ==> !records[i].location.LocOther? && !records[i].salary.SalOther?
    ensures |Survivors(Outcomes(records, clock), |records|)| == |records|
    ensures Skipped(Outcomes(records, clock), |records|) == []
  {
    var outcomes := Outcomes(records, clock);
    forall i | 0 <= i < |records|
      ensures outcomes[i].Success?
    {
      assert outcomes[i] == NormalizeJob(records[i], JobId(clock(i), i));
    }
    AllSucceed(outcomes, |records|);
  }
}
