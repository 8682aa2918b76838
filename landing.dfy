/** The landing page (`filemanager.js`): it attaches the job counts, shows three
    totals, and a preview gallery of at most ten companies and ten jobs that a search
    box and three toggle buttons re-render. */
module Landing {
  import opened Wrappers
  import opened Text
  import opened JsValues
  import opened Records
  import Seqs
  import JobsPage
  import BusinessPage

  // ----- The totals

  /** `j => j.placement`: a job counts as placed unless its `placement` is falsy. */
  function Placed(): (r: Job -> bool)
    ensures forall j :: r(j) <==> !(j.placement in {Bool(false), Str(""), Num(0.0), Absent})
  {
    (j: Job) => Truthy(j.placement)
  }

  /** `jobs.filter(j => j.placement).length`. */
  function PlacementCount(jobs: seq<Job>): (n: nat)
    ensures n <= |jobs|
  {
    |Seqs.Filter(jobs, Placed())|
  }

  /** The placements total is the number of jobs whose `placement` is truthy. */
  lemma PlacementCountSpec(jobs: seq<Job>)
    ensures PlacementCount(jobs) == |set i | 0 <= i < |jobs| && Truthy(jobs[i].placement)|
  {
    Seqs.FilterCount(jobs, Placed());
    assert Seqs.Positions(jobs, Placed()) == set i | 0 <= i < |jobs| && Truthy(jobs[i].placement);
  }

  /** The three numbers of the stats line: jobs, companies and placements. */
  datatype Stats = Stats(jobs: nat, companies: nat, placements: nat)

  // ----- The preview gallery

  datatype Item = CompanyItem(company: Company) | JobItem(job: Job)

  /** `biz.name.toLowerCase().includes(search) || biz.industry?.toLowerCase().includes(search)`:
      the empty search matches every company, and one without an industry matches only
      through its name. */
  function CompanyHit(c: Company, search: string): (r: bool)
    ensures search == "" ==> r
    ensures c.industry.None? ==> (r <==> Includes(Lower(c.name), search))
  {
    IncludesEmpty(Lower(c.name));
    Includes(Lower(c.name), search) || (c.industry.Some? && Includes(Lower(c.industry.value), search))
  }

  /** `job.name.toLowerCase().includes(search) || job.business?.toLowerCase().includes(search)`:
      the empty search matches every job, and one without `business` matches only
      through its name. */
  function JobHit(j: Job, search: string): (r: bool)
    ensures search == "" ==> r
    ensures j.business.None? ==> (r <==> Includes(Lower(j.name), search))
  {
    IncludesEmpty(Lower(j.name));
    Includes(Lower(j.name), search) || (j.business.Some? && Includes(Lower(j.business.value), search))
  }

  function CompanyHits(search: string): Company -> bool {
    (c: Company) => CompanyHit(c, search)
  }

  function JobHits(search: string): Job -> bool {
    (j: Job) => JobHit(j, search)
  }

  /** How many records of each kind the preview shows at most. */
  const PreviewSize: nat := 10

  /** `businesses.filter(...).slice(0, 10)`: at most ten companies of the data set,
      each containing the search. */
  function CompanyPreview(companies: seq<Company>, search: string): (r: seq<Company>)
    ensures |r| <= PreviewSize
    ensures forall c :: c in r ==> c in companies && CompanyHit(c, search)
  {
    var hits := Seqs.Filter(companies, CompanyHits(search));
    var r := Seqs.Take(hits, PreviewSize);
    assert forall c :: c in r ==> c in hits;
    r
  }

  /** `jobs.filter(...).slice(0, 10)`: at most ten jobs of the data set, each containing
      the search. */
  function JobPreview(jobs: seq<Job>, search: string): (r: seq<Job>)
    ensures |r| <= PreviewSize
    ensures forall j :: j in r ==> j in jobs && JobHit(j, search)
  {
    var hits := Seqs.Filter(jobs, JobHits(search));
    var r := Seqs.Take(hits, PreviewSize);
    assert forall j :: j in r ==> j in hits;
    r
  }

  function CompanyItems(cs: seq<Company>): (r: seq<Item>)
    ensures |r| == |cs| && forall i :: 0 <= i < |cs| ==> r[i] == CompanyItem(cs[i])
  {
    seq(|cs|, i requires 0 <= i < |cs| => CompanyItem(cs[i]))
  }

  function JobItems(js: seq<Job>): (r: seq<Item>)
    ensures |r| == |js| && forall i :: 0 <= i < |js| ==> r[i] == JobItem(js[i])
  {
    seq(|js|, i requires 0 <= i < |js| => JobItem(js[i]))
  }

  /** `renderGallery(businesses, jobs, mode, search)`: the thumbnails it appends, in
      order. A mode other than "companies" and "jobs" shows both lists. */
  function RenderGallery(companies: seq<Company>, jobs: seq<Job>, mode: string, search: string): (r: seq<Item>)
    ensures forall it :: it in r && it.CompanyItem? ==> it.company in companies && CompanyHit(it.company, search)
    ensures forall it :: it in r && it.JobItem? ==> it.job in jobs && JobHit(it.job, search)
  {
    if mode == "companies" then CompanyItems(CompanyPreview(companies, search))
    else if mode == "jobs" then JobItems(JobPreview(jobs, search))
    else CompanyItems(CompanyPreview(companies, search)) + JobItems(JobPreview(jobs, search))
  }

  /** The cap is applied after the filter: each preview is the start of the list of all
      hits, as long as the number of hits but never longer than ten. */
  lemma PreviewsAreCappedPrefixes(companies: seq<Company>, jobs: seq<Job>, search: string)
    ensures var hits := Seqs.Filter(companies, CompanyHits(search));
      var shown := CompanyPreview(companies, search);
      |shown| == (if |hits| < PreviewSize then |hits| else PreviewSize) && shown == hits[..|shown|]
    ensures var hits := Seqs.Filter(jobs, JobHits(search));
      var shown := JobPreview(jobs, search);
      |shown| == (if |hits| < PreviewSize then |hits| else PreviewSize) && shown == hits[..|shown|]
    ensures |Seqs.Filter(companies, CompanyHits(search))| ==
            |set i | 0 <= i < |companies| && CompanyHit(companies[i], search)|
    ensures |Seqs.Filter(jobs, JobHits(search))| == |set i | 0 <= i < |jobs| && JobHit(jobs[i], search)|
  {
    Seqs.FilterCount(companies, CompanyHits(search));
    assert Seqs.Positions(companies, CompanyHits(search)) ==
           set i | 0 <= i < |companies| && CompanyHit(companies[i], search);
    Seqs.FilterCount(jobs, JobHits(search));
    assert Seqs.Positions(jobs, JobHits(search)) == set i | 0 <= i < |jobs| && JobHit(jobs[i], search);
  }

  /** The two single modes show only their own kind, at most ten; every other mode shows
      at most twenty items, every company before every job. */
  lemma GalleryShape(companies: seq<Company>, jobs: seq<Job>, mode: string, search: string)
    ensures var r := RenderGallery(companies, jobs, mode, search);
      && (mode == "companies" ==> |r| <= PreviewSize && forall i :: 0 <= i < |r| ==> r[i].CompanyItem?)
      && (mode == "jobs" ==> |r| <= PreviewSize && forall i :: 0 <= i < |r| ==> r[i].JobItem?)
      && |r| <= 2 * PreviewSize
      && (forall i, j :: 0 <= i < j < |r| && r[j].CompanyItem? ==> r[i].CompanyItem?)
  {
    var cs := CompanyItems(CompanyPreview(companies, search));
    var js := JobItems(JobPreview(jobs, search));
    var r := RenderGallery(companies, jobs, mode, search);
    if mode != "companies" && mode != "jobs" {
      assert r == cs + js;
      assert forall k :: 0 <= k < |cs| ==> r[k] == cs[k];
      assert forall k :: |cs| <= k < |r| ==> r[k] == js[k - |cs|];

    }
  }

  /** Without a search every record is a hit: the first render shows the first ten
      companies and the first ten jobs, in data order. */
  lemma EmptySearchShowsFirst(companies: seq<Company>, jobs: seq<Job>)
    ensures CompanyPreview(companies, "") == Seqs.Take(companies, PreviewSize)
    ensures JobPreview(jobs, "") == Seqs.Take(jobs, PreviewSize)
  {
    forall c | c in companies
      ensures CompanyHit(c, "")
    {
      IncludesEmpty(Lower(c.name));
    }
    Seqs.FilterAllPass(companies, CompanyHits(""));
    forall j | j in jobs
      ensures JobHit(j, "")
    {
      IncludesEmpty(Lower(j.name));
    }
    Seqs.FilterAllPass(jobs, JobHits(""));
  }

  /** The landing tests have no `!search ||`, yet they agree with the searches of the
      company and job galleries, because every string contains the empty one. */
  lemma HitsAgreeWithGallerySearch(c: Company, j: Job, search: string)
    ensures CompanyHit(c, search) == BusinessPage.CompanyMatchesSearch(c, search)
    ensures JobHit(j, search) == JobsPage.MatchesSearch(j, search)
  {
    IncludesEmpty(Lower(c.name));
    IncludesEmpty(Lower(j.name));
  }

  // ----- The handlers

  /** The toggle buttons and the search box. */
  datatype Event = ToggleAll | ToggleCompanies | ToggleJobs | SearchInput(text: string)

  /** The toggles render their mode with the empty search; typing renders both lists
      with the lower-cased text, whatever toggle was pressed before. */
  function OnEvent(e: Event, companies: seq<Company>, jobs: seq<Job>): (r: seq<Item>)
    ensures e.SearchInput? ==>
      r == CompanyItems(CompanyPreview(companies, Lower(e.text))) + JobItems(JobPreview(jobs, Lower(e.text)))
    ensures e == ToggleCompanies ==> r == CompanyItems(Seqs.Take(companies, PreviewSize))
    ensures e == ToggleJobs ==> r == JobItems(Seqs.Take(jobs, PreviewSize))
    ensures e == ToggleAll ==>
      r == CompanyItems(Seqs.Take(companies, PreviewSize)) + JobItems(Seqs.Take(jobs, PreviewSize))
  {
    EmptySearchShowsFirst(companies, jobs);
    match e
    case ToggleAll => RenderGallery(companies, jobs, "all", "")
    case ToggleCompanies => RenderGallery(companies, jobs, "companies", "")
    case ToggleJobs => RenderGallery(companies, jobs, "jobs", "")
    case SearchInput(text) => RenderGallery(companies, jobs, "all", Lower(text))
  }

  /** `loadData` once the two lists are loaded: the counts are attached to the records
      in place, the totals are taken and the first gallery is rendered in "all" mode. */
  method LoadData(companies: array<Company>, jobs: seq<Job>) returns (stats: Stats, gallery: seq<Item>)
    modifies companies
    ensures forall i :: 0 <= i < companies.Length ==>
      companies[i] == old(companies[i]).(jobCount := Some(|JobsAt(jobs, old(companies[i]).name)|))
    ensures Counted(companies[..], jobs)
    ensures stats == Stats(|jobs|, companies.Length, PlacementCount(jobs))
    ensures gallery == CompanyItems(Seqs.Take(companies[..], PreviewSize)) + JobItems(Seqs.Take(jobs, PreviewSize))
  {
    AttachJobCounts(companies, jobs);
    stats := Stats(|jobs|, companies.Length, PlacementCount(jobs));
    gallery := RenderGallery(companies[..], jobs, "all", "");
    EmptySearchShowsFirst(companies[..], jobs);
  }
}
