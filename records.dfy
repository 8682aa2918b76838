/** The two record lists the pages load (`business.json`, `jobs.json`), the join between
    them by exact company name, and the first-match lookups by name. */
module Records {
  import opened Wrappers
  import opened JsValues
  import Text
  import Seqs

  /** A company record. `jobCount` is the `jobs` property the pages attach: absent in
      the data file, set by AttachJobCounts. */
  datatype Company = Company(
    name: string,
    industry: Option<string>,
    employees: Option<int>,
    location: Option<string>,
    description: Option<string>,
    jobCount: Option<nat>)

  /** A job record. `business` names its company; `jobType` is the `type` member. */
  datatype Job = Job(
    name: string,
    business: Option<string>,
    location: Option<string>,
    jobType: Option<string>,
    salary: Option<string>,
    fulltime: JsValue,
    placement: JsValue,
    description: Option<string>)

  /** `x || ''` for an optional string. */
  function OrEmpty(o: Option<string>): string {
    match o
    case None => ""
    case Some(s) => s
  }

  /** `(x || '').trim()`. */
  function Trimmed(o: Option<string>): (r: string)
    ensures Text.Trim(r) == r
  {
    Text.TrimIdempotent(OrEmpty(o));
    Text.Trim(OrEmpty(o))
  }

  /** `(x || '').trim().toLowerCase()`: the key a location or type is compared by. */
  function FieldKey(o: Option<string>): string {
    Text.Lower(Trimmed(o))
  }

  /** `job => job.business === name`. */
  function BusinessIs(name: string): Job -> bool {
    (j: Job) => j.business == Some(name)
  }

  /** `jobs.filter(job => job.business === name)`: the jobs of one company. */
  function JobsAt(jobs: seq<Job>, name: string): (r: seq<Job>)
    ensures |r| <= |jobs|
    ensures forall j :: j in r ==> j in jobs && j.business == Some(name)
  {
    Seqs.Filter(jobs, BusinessIs(name))
  }

  /** A job is listed for a company exactly when its `business` is the company's name,
      compared case-sensitively; a job without `business` belongs to no company. */
  lemma JobsAtExactly(jobs: seq<Job>, name: string)
    ensures forall j :: j in JobsAt(jobs, name) <==> j in jobs && j.business == Some(name)
  {
    Seqs.FilterMembership(jobs, BusinessIs(name));
  }

  /** The number of jobs of a company is the number of positions in `jobs` that name it. */
  lemma JobsAtCount(jobs: seq<Job>, name: string)
    ensures |JobsAt(jobs, name)| == |set i | 0 <= i < |jobs| && jobs[i].business == Some(name)|
  {
    Seqs.FilterCount(jobs, BusinessIs(name));
    assert Seqs.Positions(jobs, BusinessIs(name)) == set i | 0 <= i < |jobs| && jobs[i].business == Some(name);
  }

  /** Every company carries the number of jobs that name it. */
  predicate Counted(companies: seq<Company>, jobs: seq<Job>) {
    forall i :: 0 <= i < |companies| ==> companies[i].jobCount == Some(|JobsAt(jobs, companies[i].name)|)
  }

  /** `businesses.forEach(biz => { biz.jobs = jobs.filter(job => job.business === biz.name).length; })`:
      each company record gets its job count in place; nothing else changes. */
  method AttachJobCounts(companies: array<Company>, jobs: seq<Job>)
    modifies companies
    ensures forall i :: 0 <= i < companies.Length ==>
      companies[i] == old(companies[i]).(jobCount := Some(|JobsAt(jobs, old(companies[i]).name)|))
    ensures Counted(companies[..], jobs)
  {
    var i := 0;
    while i < companies.Length
      invariant 0 <= i <= companies.Length
      invariant forall k :: 0 <= k < i ==>
        companies[k] == old(companies[k]).(jobCount := Some(|JobsAt(jobs, old(companies[k]).name)|))
      invariant forall k :: i <= k < companies.Length ==> companies[k] == old(companies[k])
    {
      var biz := companies[i];
      companies[i] := biz.(jobCount := Some(|JobsAt(jobs, biz.name)|));
      i := i + 1;
    }
  }

  /** `j => j.name === name`. */
  function JobNamed(name: string): Job -> bool {
    (j: Job) => j.name == name
  }

  /** `b => b.name === name`. */
  function CompanyNamed(name: string): Company -> bool {
    (c: Company) => c.name == name
  }

  /** `jobs.find(j => j.name === name)`: the first job with exactly this name. */
  function FindJob(jobs: seq<Job>, name: string): (r: Option<Job>)
    ensures r.None? <==> forall j :: j in jobs ==> j.name != name
    ensures r.Some? ==> exists i :: 0 <= i < |jobs| && jobs[i] == r.value && jobs[i].name == name &&
                                    forall k :: 0 <= k < i ==> jobs[k].name != name
  {
    Seqs.Find(jobs, JobNamed(name))
  }

  /** `businesses.find(b => b.name === name)`: the first company with exactly this name. */
  function FindCompany(companies: seq<Company>, name: string): (r: Option<Company>)
    ensures r.None? <==> forall c :: c in companies ==> c.name != name
    ensures r.Some? ==> exists i :: 0 <= i < |companies| && companies[i] == r.value && companies[i].name == name &&
                                    forall k :: 0 <= k < i ==> companies[k].name != name
  {
    Seqs.Find(companies, CompanyNamed(name))
  }

  /** Lookups are by exact name: a name that differs only in case finds nothing. */
  lemma FindIsCaseSensitive()
    ensures var acme := Company("Acme", None, None, None, None, None);
            FindCompany([acme], "acme") == None && FindCompany([acme], "Acme") == Some(acme)
  {
    var acme := Company("Acme", None, None, None, None, None);
    assert [acme][0] == acme;
  }
}
