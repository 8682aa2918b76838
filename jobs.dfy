/** The job page (`jobs.js`): without a `name` query it shows a filterable gallery of
    all jobs, with a search box, location and type buttons, a salary ceiling slider and
    a full-time/part-time switch; with a `name` it shows that job, its company and the
    jobs of the same type. */
module JobsPage {
  import opened Wrappers
  import opened Text
  import opened JsValues
  import opened Records
  import Seqs
  import Salary
  import Collate
  import Dedupe

  // ----- The gallery filter of `renderGallery`

  /** `!search || job.name.toLowerCase().includes(search) ||
      job.business?.toLowerCase().includes(search)`; the callers pass the search already
      lower-cased. The empty search matches every job; a job without `business` matches
      only through its name. */
  function MatchesSearch(j: Job, search: string): (r: bool)
    ensures search == "" ==> r
    ensures j.business.None? ==> (r <==> search == "" || Includes(Lower(j.name), search))
  {
    search == "" || Includes(Lower(j.name), search) ||
    (j.business.Some? && Includes(Lower(j.business.value), search))
  }

  /** `!key || (field || '').trim().toLowerCase() === key`, for location and type. */
  /** The empty key matches every field; a missing field matches no other key; otherwise
      the trimmed, lower-cased field must equal the key. */
  function MatchesKey(field: Option<string>, key: string): (r: bool)
    ensures key == "" ==> r
    ensures key != "" && field.None? ==> !r
    ensures key != "" && field.Some? ==> (r <==> Lower(Trim(field.value)) == key)
  {
    key == "" || FieldKey(field) == key
  }

  /** `!isFinite(maxPrice) || isNaN(salaryNum) ? true : salaryNum <= maxPrice`, with
      `None` for the unbounded ceiling `Infinity`. */
  function PricePasses(salary: Option<string>, maxPrice: Option<real>): (r: bool)
    ensures !r <==> maxPrice.Some? && Salary.ParseSalary(salary).Some? &&
                    Salary.ParseSalary(salary).value > maxPrice.value
  {
    match maxPrice
    case None => true
    case Some(m) =>
      match Salary.ParseSalary(salary)
      case None => true
      case Some(v) => v <= m
  }

  /** The test inside `jobs.filter(...)`: with nothing selected every job passes, and a
      passing job passes each of the four tests. */
  function PassesFilters(j: Job, search: string, location: string, jobType: string, maxPrice: Option<real>): (r: bool)
    ensures search == "" && location == "" && jobType == "" && maxPrice.None? ==> r
    ensures r ==> MatchesSearch(j, search) && MatchesKey(j.location, location) &&
                  MatchesKey(j.jobType, jobType) && PricePasses(j.salary, maxPrice)
  {
    MatchesSearch(j, search) && MatchesKey(j.location, location) &&
    MatchesKey(j.jobType, jobType) && PricePasses(j.salary, maxPrice)
  }

  function Filters(search: string, location: string, jobType: string, maxPrice: Option<real>): Job -> bool {
    (j: Job) => PassesFilters(j, search, location, jobType, maxPrice)
  }

  predicate FullTimeJob(j: Job) {
    IsFullTime(j.fulltime)
  }

  predicate PartTimeJob(j: Job) {
    !IsFullTime(j.fulltime)
  }

  /** The full/part-time switch: `None` lets every job through, `Some(true)` only the
      full-time jobs and `Some(false)` only the others. */
  function WorkPasses(j: Job, fullTime: Option<bool>): (r: bool)
    ensures fullTime.None? ==> r
    ensures fullTime == Some(true) ==> (r <==> FullTimeJob(j))
    ensures fullTime == Some(false) ==> (r <==> PartTimeJob(j))
  {
    fullTime.None? || IsFullTime(j.fulltime) == fullTime.value
  }

  /** `renderGallery(search, location, type, maxPrice)`: the filter, then the post-filter
      on `selectedFullTime`. */
  function GalleryResults(jobs: seq<Job>, search: string, location: string, jobType: string,
                          maxPrice: Option<real>, fullTime: Option<bool>): (r: seq<Job>)
    ensures |r| <= |jobs|
    ensures forall j :: j in r ==>
      j in jobs && PassesFilters(j, search, location, jobType, maxPrice) && WorkPasses(j, fullTime)
  {
    var results := Seqs.Filter(jobs, Filters(search, location, jobType, maxPrice));
    match fullTime
    case None => results
    case Some(true) => Seqs.Filter(results, FullTimeJob)
    case Some(false) => Seqs.Filter(results, PartTimeJob)
  }

  /** Everything the gallery asks of one job. */
  function Shows(search: string, location: string, jobType: string, maxPrice: Option<real>,
                 fullTime: Option<bool>): Job -> bool
  {
    (j: Job) => PassesFilters(j, search, location, jobType, maxPrice) && WorkPasses(j, fullTime)
  }

  /** The two filters in a row are one filter by every test at once: the gallery is the
      subsequence of `jobs`, in data order, of the jobs that pass them all. */
  lemma GalleryIsOneFilter(jobs: seq<Job>, search: string, location: string, jobType: string,
                           maxPrice: Option<real>, fullTime: Option<bool>)
    ensures GalleryResults(jobs, search, location, jobType, maxPrice, fullTime)
         == Seqs.Filter(jobs, Shows(search, location, jobType, maxPrice, fullTime))
  {
    var first := Filters(search, location, jobType, maxPrice);
    var all := Shows(search, location, jobType, maxPrice, fullTime);
    match fullTime
    case None =>
      Seqs.FilterAgree(jobs, first, all);
    case Some(true) =>
      Seqs.FilterFilter(jobs, first, FullTimeJob, all);
    case Some(false) =>
      Seqs.FilterFilter(jobs, first, PartTimeJob, all);
  }

  /** A job is shown exactly when it is one of the jobs and passes every test. */
  lemma GalleryExactly(jobs: seq<Job>, search: string, location: string, jobType: string,
                       maxPrice: Option<real>, fullTime: Option<bool>)
    ensures forall j :: j in GalleryResults(jobs, search, location, jobType, maxPrice, fullTime) <==>
      j in jobs && PassesFilters(j, search, location, jobType, maxPrice) && WorkPasses(j, fullTime)
  {
    GalleryIsOneFilter(jobs, search, location, jobType, maxPrice, fullTime);
    Seqs.FilterMembership(jobs, Shows(search, location, jobType, maxPrice, fullTime));
  }

  /** One job that passes every test is enough for a non-empty gallery. */
  lemma ShownJob(jobs: seq<Job>, search: string, location: string, jobType: string,
                 maxPrice: Option<real>, fullTime: Option<bool>, k: nat)
    requires k < |jobs|
    requires PassesFilters(jobs[k], search, location, jobType, maxPrice) && WorkPasses(jobs[k], fullTime)
    ensures GalleryResults(jobs, search, location, jobType, maxPrice, fullTime) != []
  {
    GalleryExactly(jobs, search, location, jobType, maxPrice, fullTime);
    assert jobs[k] in GalleryResults(jobs, search, location, jobType, maxPrice, fullTime);
  }

  /** With an empty search and no selection every job is shown, in data order. */
  lemma EmptySelectionShowsAll(jobs: seq<Job>)
    ensures GalleryResults(jobs, "", "", "", None, None) == jobs
  {
    Seqs.FilterAllPass(jobs, Filters("", "", "", None));
  }

  /** Raising the salary ceiling never hides a job. */
  lemma PriceCeilingMonotone(jobs: seq<Job>, search: string, location: string, jobType: string,
                             low: real, high: real, fullTime: Option<bool>)
    requires low <= high
    ensures forall j :: j in GalleryResults(jobs, search, location, jobType, Some(low), fullTime) ==>
                        j in GalleryResults(jobs, search, location, jobType, Some(high), fullTime)
  {
    GalleryExactly(jobs, search, location, jobType, Some(low), fullTime);
    GalleryExactly(jobs, search, location, jobType, Some(high), fullTime);
  }

  /** A job without a readable salary passes every ceiling. */
  lemma UnparsableSalaryAlwaysPasses(j: Job, maxPrice: Option<real>)
    requires Salary.ParseSalary(j.salary).None?
    ensures PricePasses(j.salary, maxPrice)
  {
  }

  // ----- The salary slider

  /** `jobs.map(j => parseSalary(j.salary))`, with `None` for NaN: one entry per job,
      never a negative number, and NaN for a job whose salary is missing or empty. */
  function SalaryNumbers(jobs: seq<Job>): (r: seq<Option<real>>)
    ensures |r| == |jobs| && forall i :: 0 <= i < |jobs| ==> r[i] == Salary.ParseSalary(jobs[i].salary)
    ensures forall i :: 0 <= i < |r| && r[i].Some? ==> r[i].value >= 0.0
    ensures forall i :: 0 <= i < |jobs| && jobs[i].salary in {None, Some("")} ==> r[i] == None
  {
    seq(|jobs|, i requires 0 <= i < |jobs| => Salary.ParseSalary(jobs[i].salary))
  }

  /** `.filter(n => !isNaN(n))`: the numbers that are present, in order. */
  function Readable(xs: seq<Option<real>>): seq<real> {
    if xs == [] then []
    else
      var n := |xs| - 1;
      match xs[n]
      case None => Readable(xs[..n])
      case Some(v) => Readable(xs[..n]) + [v]
  }

  /** Every present number is kept. */
  lemma {:induction false} ReadableComplete(xs: seq<Option<real>>, i: nat)
    requires i < |xs| && xs[i].Some?
    ensures xs[i].value in Readable(xs)
  {
    var n := |xs| - 1;
    if i < n {
      ReadableComplete(xs[..n], i);
      assert xs[..n][i] == xs[i];
    }
  }

  /** Every kept number is present in the input. */
  lemma {:induction false} ReadableSound(xs: seq<Option<real>>, x: real)
    requires x in Readable(xs)
    ensures exists i :: 0 <= i < |xs| && xs[i] == Some(x)
  {
    var n := |xs| - 1;
    if x in Readable(xs[..n]) {
      ReadableSound(xs[..n], x);
      var i :| 0 <= i < n && xs[..n][i] == Some(x);
      assert xs[..n][i] == xs[i];
    } else {
      assert xs[n] == Some(x);
    }
  }

  /** The salaries that parse. */
  function ParsedSalaries(jobs: seq<Job>): seq<real> {
    Readable(SalaryNumbers(jobs))
  }

  /** The readable salaries are exactly the values of the jobs' salaries that parse, and
      none is negative. */
  lemma ParsedSalariesExactly(jobs: seq<Job>)
    ensures forall i :: 0 <= i < |jobs| && Salary.ParseSalary(jobs[i].salary).Some? ==>
                        Salary.ParseSalary(jobs[i].salary).value in ParsedSalaries(jobs)
    ensures forall x :: x in ParsedSalaries(jobs) ==>
                        x >= 0.0 && exists i :: 0 <= i < |jobs| && Salary.ParseSalary(jobs[i].salary) == Some(x)
  {
    var xs := SalaryNumbers(jobs);
    forall i | 0 <= i < |jobs| && Salary.ParseSalary(jobs[i].salary).Some?
      ensures Salary.ParseSalary(jobs[i].salary).value in ParsedSalaries(jobs)
    {
      ReadableComplete(xs, i);
    }
    forall x | x in ParsedSalaries(jobs)
      ensures x >= 0.0 && exists i :: 0 <= i < |jobs| && Salary.ParseSalary(jobs[i].salary) == Some(x)
    {
      ReadableSound(xs, x);
    }
  }

  /** `Math.min(...xs)`. */
  function MinOf(xs: seq<real>): (m: real)
    requires xs != []
    ensures m in xs && forall x :: x in xs ==> m <= x
  {
    if |xs| == 1 then xs[0]
    else
      var rest := MinOf(xs[1..]);
      assert forall x :: x in xs ==> x == xs[0] || x in xs[1..];
      if xs[0] <= rest then xs[0] else rest
  }

  /** `Math.max(...xs)`. */
  function MaxOf(xs: seq<real>): (m: real)
    requires xs != []
    ensures m in xs && forall x :: x in xs ==> x <= m
  {
    if |xs| == 1 then xs[0]
    else
      var rest := MaxOf(xs[1..]);
      assert forall x :: x in xs ==> x == xs[0] || x in xs[1..];
      if xs[0] >= rest then xs[0] else rest
  }

  /** `Math.floor`. */
  function Floor(r: real): (f: int)
    ensures f as real <= r < f as real + 1.0
  {
    r.Floor
  }

  /** `Math.ceil`. */
  function Ceil(r: real): (c: int)
    ensures c as real - 1.0 < r <= c as real
  {
    -((-r).Floor)
  }

  /** Every readable salary is non-negative. */
  lemma ParsedSalariesNonNegative(jobs: seq<Job>)
    ensures forall x :: x in ParsedSalaries(jobs) ==> x >= 0.0
  {
    forall x | x in ParsedSalaries(jobs)
      ensures x >= 0.0
    {
      ReadableSound(SalaryNumbers(jobs), x);
    }
  }

  /** `Math.floor(minSalary)`, where `minSalary` is 0 when no salary parses: at most
      every salary, within 1 of the smallest, and not negative when no salary is. */
  function LowestFloor(salaries: seq<real>): (lo: int)
    ensures salaries == [] ==> lo == 0
    ensures forall x :: x in salaries ==> lo as real <= x
    ensures salaries != [] ==> exists x :: x in salaries && x < lo as real + 1.0
    ensures (forall x :: x in salaries ==> x >= 0.0) ==> lo >= 0
  {
    if salaries == [] then 0
    else
      var m := MinOf(salaries);
      assert m in salaries && m < Floor(m) as real + 1.0;
      Floor(m)
  }

  /** `Math.ceil(maxSalary || 10000)`, where `maxSalary` is 10000 when no salary parses:
      at least every salary; 10000 when every salary is 0 (a falsy maximum); otherwise
      within 1 of the largest; at least 1 when no salary is negative. */
  function HighestCeil(salaries: seq<real>): (hi: int)
    ensures forall x :: x in salaries ==> x <= hi as real
    ensures (forall x :: x in salaries ==> x == 0.0) ==> hi == 10000
    ensures (forall x :: x in salaries ==> x >= 0.0) && (exists x :: x in salaries && x != 0.0) ==>
      exists x :: x in salaries && hi as real - 1.0 < x
    ensures (forall x :: x in salaries ==> x >= 0.0) ==> hi >= 1
  {
    if salaries == [] then Ceil(10000.0)
    else
      var m := MaxOf(salaries);
      if m == 0.0 then Ceil(10000.0)
      else
        assert m in salaries && Ceil(m) as real - 1.0 < m;
        Ceil(m)
  }

  /** `priceRange.min`. */
  function SliderMin(jobs: seq<Job>): (lo: int)
    ensures lo >= 0
  {
    ParsedSalariesNonNegative(jobs);
    LowestFloor(ParsedSalaries(jobs))
  }

  /** `priceRange.max`, also the slider's starting value. */
  function SliderMax(jobs: seq<Job>): (hi: int)
    ensures hi >= 1
  {
    ParsedSalariesNonNegative(jobs);
    HighestCeil(ParsedSalaries(jobs))
  }

  /** The slider's range is never empty. */
  lemma SliderBoundsOrdered(jobs: seq<Job>)
    ensures SliderMin(jobs) <= SliderMax(jobs)
  {
    var salaries := ParsedSalaries(jobs);
    if salaries != [] {
      var lowest := MinOf(salaries);
      assert LowestFloor(salaries) as real <= lowest <= HighestCeil(salaries) as real;
    }
  }

  /** At the slider's maximum every readable salary is under the ceiling, so a gallery
      rendered there shows what the unbounded first render shows. */
  lemma SliderMaxAdmitsAll(jobs: seq<Job>, search: string, location: string, jobType: string,
                           fullTime: Option<bool>)
    ensures GalleryResults(jobs, search, location, jobType, Some(SliderMax(jobs) as real), fullTime)
         == GalleryResults(jobs, search, location, jobType, None, fullTime)
  {
    var hi := SliderMax(jobs) as real;
    assert forall x :: x in ParsedSalaries(jobs) ==> x <= hi;
    forall j | j in jobs
      ensures PricePasses(j.salary, Some(hi))
    {
      var i :| 0 <= i < |jobs| && jobs[i] == j;
      if Salary.ParseSalary(jobs[i].salary).Some? {
        ReadableComplete(SalaryNumbers(jobs), i);
      }
    }
    var bounded := Filters(search, location, jobType, Some(hi));
    var unbounded := Filters(search, location, jobType, None);
    Seqs.FilterAgree(jobs, bounded, unbounded);
  }

  // ----- The location and type buttons

  function JobLocation(j: Job): Option<string> {
    j.location
  }

  function JobType(j: Job): Option<string> {
    j.jobType
  }

  /** `jobs.map(j => (j.field || '').trim()).filter(Boolean)`. */
  function FieldValues(jobs: seq<Job>, field: Job -> Option<string>): (r: seq<string>)
    ensures forall i :: 0 <= i < |r| ==> r[i] != "" && Trim(r[i]) == r[i]
  {
    var trimmed := seq(|jobs|, i requires 0 <= i < |jobs| => Trimmed(field(jobs[i])));
    var r := Seqs.Filter(trimmed, NonBlank);
    assert forall i :: 0 <= i < |r| ==> r[i] in trimmed;
    r
  }

  /** `const locations = uniq(jobs.map(j => (j.location || '').trim()).filter(Boolean))`. */
  function Locations(jobs: seq<Job>): (r: seq<string>)
    ensures forall i :: 0 <= i < |r| ==> r[i] != "" && Trim(r[i]) == r[i]
    ensures Dedupe.Distinct(Collate.LowerAll(r))
  {
    ButtonsClean(jobs, JobLocation);
    ButtonOrder(jobs, JobLocation);
    Collate.Uniq(FieldValues(jobs, JobLocation))
  }

  /** `const types = uniq(jobs.map(j => (j.type || '').trim()).filter(Boolean))`. */
  function Types(jobs: seq<Job>): (r: seq<string>)
    ensures forall i :: 0 <= i < |r| ==> r[i] != "" && Trim(r[i]) == r[i]
    ensures Dedupe.Distinct(Collate.LowerAll(r))
  {
    ButtonsClean(jobs, JobType);
    ButtonOrder(jobs, JobType);
    Collate.Uniq(FieldValues(jobs, JobType))
  }

  /** The trimmed values of a field are exactly the non-blank trims of the jobs' fields. */
  lemma FieldValuesExactly(jobs: seq<Job>, field: Job -> Option<string>)
    ensures forall v :: v in FieldValues(jobs, field) <==>
      v != "" && exists k :: 0 <= k < |jobs| && Trimmed(field(jobs[k])) == v
  {
    var trimmed := seq(|jobs|, i requires 0 <= i < |jobs| => Trimmed(field(jobs[i])));
    Seqs.FilterMembership(trimmed, NonBlank);
    forall v
      ensures v in trimmed <==> exists k :: 0 <= k < |jobs| && Trimmed(field(jobs[k])) == v
    {
      if v in trimmed {
        var k :| 0 <= k < |trimmed| && trimmed[k] == v;
        assert Trimmed(field(jobs[k])) == v;
      }
      if exists k :: 0 <= k < |jobs| && Trimmed(field(jobs[k])) == v {
        var k :| 0 <= k < |jobs| && Trimmed(field(jobs[k])) == v;
        assert trimmed[k] == v;
      }
    }
  }

  /** The buttons of a field (`locations`, `types`) carry one value per lower-case key,
      keys in the order of their first occurrence among the jobs. */
  lemma ButtonOrder(jobs: seq<Job>, field: Job -> Option<string>)
    ensures var vs := Collate.Uniq(FieldValues(jobs, field));
      && Collate.LowerAll(vs) == Dedupe.FirstOccurrences(Collate.LowerAll(FieldValues(jobs, field)))
      && Dedupe.Distinct(Collate.LowerAll(vs))
  {
    Collate.UniqSpec(FieldValues(jobs, field));
  }

  /** Every button value is trimmed and non-blank. */
  lemma ButtonsClean(jobs: seq<Job>, field: Job -> Option<string>)
    ensures var vs := Collate.Uniq(FieldValues(jobs, field));
      forall i :: 0 <= i < |vs| ==> vs[i] != "" && Trim(vs[i]) == vs[i]
  {
    var values := FieldValues(jobs, field);
    var vs := Collate.Uniq(values);
    Collate.UniqSpec(values);
    forall i | 0 <= i < |vs|
      ensures vs[i] != "" && Trim(vs[i]) == vs[i]
    {
      var k :| 0 <= k < |values| && values[k] == vs[i];
    }
  }

  /** Every button's key is the key of some job. */
  lemma ButtonsFromJobs(jobs: seq<Job>, field: Job -> Option<string>)
    ensures var vs := Collate.Uniq(FieldValues(jobs, field));
      forall i :: 0 <= i < |vs| ==> exists k :: 0 <= k < |jobs| && FieldKey(field(jobs[k])) == Lower(vs[i])
  {
    var values := FieldValues(jobs, field);
    var vs := Collate.Uniq(values);
    Collate.UniqSpec(values);
    FieldValuesExactly(jobs, field);
    forall i | 0 <= i < |vs|
      ensures exists k :: 0 <= k < |jobs| && FieldKey(field(jobs[k])) == Lower(vs[i])
    {
      assert vs[i] in values;
      var k :| 0 <= k < |jobs| && Trimmed(field(jobs[k])) == vs[i];
      assert FieldKey(field(jobs[k])) == Lower(vs[i]);
    }
  }

  /** Every job with a non-blank value has its key among the buttons. */
  lemma JobsHaveButtons(jobs: seq<Job>, field: Job -> Option<string>)
    ensures var vs := Collate.Uniq(FieldValues(jobs, field));
      forall k :: 0 <= k < |jobs| && Trimmed(field(jobs[k])) != "" ==>
        FieldKey(field(jobs[k])) in Collate.LowerAll(vs)
  {
    var values := FieldValues(jobs, field);
    Collate.UniqSpec(values);
    FieldValuesExactly(jobs, field);
    forall k | 0 <= k < |jobs| && Trimmed(field(jobs[k])) != ""
      ensures FieldKey(field(jobs[k])) in Collate.LowerAll(Collate.Uniq(values))
    {
      assert Trimmed(field(jobs[k])) in values;
    }
  }

  /** Pressing any location button, with nothing else selected, shows at least one job:
      `uniq` only offers locations that some job has. */
  lemma LocationButtonShowsJobs(jobs: seq<Job>, i: nat)
    requires i < |Locations(jobs)|
    ensures GalleryResults(jobs, "", Lower(Locations(jobs)[i]), "", None, None) != []
  {
    ButtonsFromJobs(jobs, JobLocation);
    var key := Lower(Locations(jobs)[i]);
    var k :| 0 <= k < |jobs| && FieldKey(JobLocation(jobs[k])) == key;
    ShownJob(jobs, "", key, "", None, None, k);
  }

  /** The same for the type buttons. */
  lemma TypeButtonShowsJobs(jobs: seq<Job>, i: nat)
    requires i < |Types(jobs)|
    ensures GalleryResults(jobs, "", "", Lower(Types(jobs)[i]), None, None) != []
  {
    ButtonsFromJobs(jobs, JobType);
    var key := Lower(Types(jobs)[i]);
    var k :| 0 <= k < |jobs| && FieldKey(JobType(jobs[k])) == key;
    ShownJob(jobs, "", "", key, None, None, k);
  }

  /** The "All" button and the location buttons carry distinct keys. */
  lemma LocationKeysDistinct(jobs: seq<Job>)
    ensures Dedupe.Distinct([""] + Collate.LowerAll(Locations(jobs)))
  {
    ButtonOrder(jobs, JobLocation);
    ButtonsClean(jobs, JobLocation);
    Collate.ButtonKeysDistinct(Locations(jobs));
  }

  // ----- The filter panels

  datatype Panel = LocationPanel | PricePanel | TypePanel

  /** `classList.toggle('hidden')` on one panel, over the set of visible panels. */
  function ToggleHidden(visible: set<Panel>, p: Panel): set<Panel> {
    if p in visible then visible - {p} else visible + {p}
  }

  /** A filter toggle as written: `hideAllPanels(); panel.classList.toggle('hidden')`.
      Hiding every panel first makes the toggle always show the panel. */
  function PanelsAfterClickAsWritten(visible: set<Panel>, p: Panel): (r: set<Panel>)
    ensures r == {p}
  {
    ToggleHidden({}, p)
  }

  /** As written, a second click on a filter toggle never closes its panel. */
  lemma AsWrittenNeverCloses(p: Panel)
    ensures PanelsAfterClickAsWritten({p}, p) == {p}
  {
  }

  /** A filter toggle as intended: hide the OTHER panels, then toggle this one. */
  function PanelsAfterClick(visible: set<Panel>, p: Panel): (r: set<Panel>)
    ensures r <= {p}
    ensures p in r <==> p !in visible
  {
    ToggleHidden(visible * {p}, p)
  }

  /** A second click on the same toggle closes the panel the first one opened, and
      reopens it when the first click closed it. */
  lemma ClickTwice(visible: set<Panel>, p: Panel)
    ensures PanelsAfterClick(PanelsAfterClick(visible, p), p) == visible * {p}
  {
  }

  // ----- The full/part-time switch

  /** The Full Time button: `true` becomes `null`, anything else `true`. */
  function FullTimeClick(s: Option<bool>): (r: Option<bool>)
    ensures r != Some(false)
    ensures r == None <==> s == Some(true)
  {
    if s == Some(true) then None else Some(true)
  }

  /** The Part Time button: `false` becomes `null`, anything else `false`. */
  function PartTimeClick(s: Option<bool>): (r: Option<bool>)
    ensures r != Some(true)
    ensures r == None <==> s == Some(false)
  {
    if s == Some(false) then None else Some(false)
  }

  /** The closure state of the gallery (`selectedLocation`, `selectedType`,
      `selectedMaxPrice`, `selectedFullTime`), the search box's text, the "active" marks
      of the five toggles, the visible panels and the jobs on display. Every handler
      that renders shows Selection(). */
  class JobFilters {
    const jobs: seq<Job>
    const sliderMax: int
    var searchText: string
    var selectedLocation: string
    var selectedType: string
    var selectedMaxPrice: real
    var selectedFullTime: Option<bool>
    var locationActive: bool
    var typeActive: bool
    var priceActive: bool
    var fullTimeActive: bool
    var partTimeActive: bool
    var visiblePanels: set<Panel>
    var shown: seq<Job>

    /** `renderGallery(searchBar.value.toLowerCase(), selectedLocation, selectedType,
        selectedMaxPrice)` with the current `selectedFullTime`. */
    function Selection(): seq<Job>
      reads this`searchText, this`selectedLocation, this`selectedType
      reads this`selectedMaxPrice, this`selectedFullTime
    {
      GalleryResults(jobs, Lower(searchText), selectedLocation, selectedType,
                     Some(selectedMaxPrice), selectedFullTime)
    }

    /** Each toggle is active exactly when its filter is in force, at most one panel is
        open and the gallery shows the current selection. */
    predicate Valid()
      reads this
      ensures Valid() ==> !(fullTimeActive && partTimeActive)
    {
      && locationActive == (selectedLocation != "")
      && typeActive == (selectedType != "")
      && priceActive == (selectedMaxPrice < sliderMax as real)
      && fullTimeActive == (selectedFullTime == Some(true))
      && partTimeActive == (selectedFullTime == Some(false))
      && |visiblePanels| <= 1
      && shown == Selection()
    }

    /** The page's set-up: nothing selected, the ceiling at the slider's maximum, every
        panel hidden, and the first `renderGallery()` showing every job. */
    constructor (jobs: seq<Job>)
      ensures Valid()
      ensures this.jobs == jobs && sliderMax == SliderMax(jobs)
      ensures searchText == "" && selectedLocation == "" && selectedType == ""
      ensures selectedMaxPrice == SliderMax(jobs) as real && selectedFullTime == None
      ensures visiblePanels == {}
      ensures shown == jobs
    {
      this.jobs := jobs;
      sliderMax := SliderMax(jobs);
      searchText := "";
      selectedLocation := "";
      selectedType := "";
      selectedMaxPrice := SliderMax(jobs) as real;
      selectedFullTime := None;
      locationActive := false;
      typeActive := false;
      priceActive := false;
      fullTimeActive := false;
      partTimeActive := false;
      visiblePanels := {};
      shown := GalleryResults(jobs, "", "", "", None, None);
      EmptySelectionShowsAll(jobs);
      SliderMaxAdmitsAll(jobs, "", "", "", None);
      assert Lower("") == "";
    }

    /** The Full Time button. Turning the filter off leaves the Part Time mark alone,
        which is already clear, so both branches end with it clear. */
    method ClickFullTime()
      requires Valid()
      modifies this
      ensures Valid()
      ensures selectedFullTime == FullTimeClick(old(selectedFullTime))
      ensures searchText == old(searchText) && selectedLocation == old(selectedLocation)
      ensures selectedType == old(selectedType) && selectedMaxPrice == old(selectedMaxPrice)
      ensures visiblePanels == old(visiblePanels)
    {
      selectedFullTime := FullTimeClick(selectedFullTime);
      fullTimeActive := selectedFullTime == Some(true);
      partTimeActive := false;
      shown := Selection();
    }

    /** The Part Time button, symmetric to ClickFullTime. */
    method ClickPartTime()
      requires Valid()
      modifies this
      ensures Valid()
      ensures selectedFullTime == PartTimeClick(old(selectedFullTime))
      ensures searchText == old(searchText) && selectedLocation == old(selectedLocation)
      ensures selectedType == old(selectedType) && selectedMaxPrice == old(selectedMaxPrice)
      ensures visiblePanels == old(visiblePanels)
    {
      selectedFullTime := PartTimeClick(selectedFullTime);
      partTimeActive := selectedFullTime == Some(false);
      fullTimeActive := false;
      shown := Selection();
    }

    /** A location button: `selectedLocation = b.dataset.value || ''`. */
    method ClickLocation(key: string)
      requires Valid()
      modifies this
      ensures Valid()
      ensures selectedLocation == key && locationActive == (key != "")
      ensures searchText == old(searchText) && selectedType == old(selectedType)
      ensures selectedMaxPrice == old(selectedMaxPrice) && selectedFullTime == old(selectedFullTime)
      ensures visiblePanels == old(visiblePanels)
    {
      selectedLocation := key;
      locationActive := selectedLocation != "";
      shown := Selection();
    }

    /** A type button: `selectedType = b.dataset.value || ''`. */
    method ClickType(key: string)
      requires Valid()
      modifies this
      ensures Valid()
      ensures selectedType == key && typeActive == (key != "")
      ensures searchText == old(searchText) && selectedLocation == old(selectedLocation)
      ensures selectedMaxPrice == old(selectedMaxPrice) && selectedFullTime == old(selectedFullTime)
      ensures visiblePanels == old(visiblePanels)
    {
      selectedType := key;
      typeActive := selectedType != "";
      shown := Selection();
    }

    /** The Job Type toggle: while a type is selected a click clears it and re-renders;
        otherwise it hides every panel and toggles the type panel, which opens it. */
    method ClickTypeToggle()
      requires Valid()
      modifies this
      ensures Valid()
      ensures old(selectedType) != "" ==> selectedType == "" && !typeActive && visiblePanels == old(visiblePanels)
      ensures old(selectedType) == "" ==>
        selectedType == "" && visiblePanels == PanelsAfterClickAsWritten(old(visiblePanels), TypePanel) &&
        shown == old(shown)
      ensures searchText == old(searchText) && selectedLocation == old(selectedLocation)
      ensures selectedMaxPrice == old(selectedMaxPrice) && selectedFullTime == old(selectedFullTime)
    {
      if selectedType != "" {
        selectedType := "";
        typeActive := false;
        shown := Selection();
      } else {
        visiblePanels := PanelsAfterClickAsWritten(visiblePanels, TypePanel);
      }
    }

    /** The Location toggle hides every panel and toggles the location panel, so the
        location panel is the one open panel afterwards. */
    method ClickLocationToggle()
      requires Valid()
      modifies this
      ensures Valid()
      ensures visiblePanels == PanelsAfterClickAsWritten(old(visiblePanels), LocationPanel)
      ensures searchText == old(searchText) && selectedLocation == old(selectedLocation)
      ensures selectedType == old(selectedType) && selectedMaxPrice == old(selectedMaxPrice)
      ensures selectedFullTime == old(selectedFullTime) && shown == old(shown)
    {
      visiblePanels := PanelsAfterClickAsWritten(visiblePanels, LocationPanel);
    }

    /** The Price Range toggle, like the Location toggle, leaves the price panel as the
        one open panel. */
    method ClickPriceToggle()
      requires Valid()
      modifies this
      ensures Valid()
      ensures visiblePanels == PanelsAfterClickAsWritten(old(visiblePanels), PricePanel)
      ensures searchText == old(searchText) && selectedLocation == old(selectedLocation)
      ensures selectedType == old(selectedType) && selectedMaxPrice == old(selectedMaxPrice)
      ensures selectedFullTime == old(selectedFullTime) && shown == old(shown)
    {
      visiblePanels := PanelsAfterClickAsWritten(visiblePanels, PricePanel);
    }

    /** Moving the slider: `selectedMaxPrice = Number(e.target.value)`; the toggle is
        active while the ceiling is below the slider's maximum. */
    method SlidePrice(value: real)
      requires Valid()
      modifies this
      ensures Valid()
      ensures selectedMaxPrice == value && priceActive == (value < sliderMax as real)
      ensures searchText == old(searchText) && selectedLocation == old(selectedLocation)
      ensures selectedType == old(selectedType) && selectedFullTime == old(selectedFullTime)
      ensures visiblePanels == old(visiblePanels)
    {
      selectedMaxPrice := value;
      priceActive := selectedMaxPrice < sliderMax as real;
      shown := Selection();
    }

    /** Typing in the search box re-renders with the new text; the selections stay. */
    method Search(text: string)
      requires Valid()
      modifies this
      ensures Valid()
      ensures searchText == text
      ensures selectedLocation == old(selectedLocation) && selectedType == old(selectedType)
      ensures selectedMaxPrice == old(selectedMaxPrice) && selectedFullTime == old(selectedFullTime)
      ensures visiblePanels == old(visiblePanels)
    {
      searchText := text;
      shown := Selection();
    }
  }

  // ----- The detail page

  datatype JobView =
    | JobGallery
    | JobNotFound(name: string)
    | JobDetail(job: Job, company: Option<Company>, similar: seq<Job>)

  /** `businesses.find(b => b.name === job.business)`; a job without `business` links
      to no company. */
  function LinkedCompany(companies: seq<Company>, job: Job): (r: Option<Company>)
    ensures job.business == None ==> r == None
    ensures job.business.Some? ==> (r == None <==> forall c :: c in companies ==> c.name != job.business.value)
    ensures r.Some? ==> exists i :: 0 <= i < |companies| && companies[i] == r.value &&
                                    Some(companies[i].name) == job.business &&
                                    forall k :: 0 <= k < i ==> Some(companies[k].name) != job.business
  {
    match job.business
    case None => None
    case Some(b) => FindCompany(companies, b)
  }

  /** `j => j.type === job.type && j.name !== job.name`; two missing types are equal. */
  function SimilarTo(job: Job): Job -> bool {
    (j: Job) => j.jobType == job.jobType && j.name != job.name
  }

  function SimilarJobs(jobs: seq<Job>, job: Job): (r: seq<Job>)
    ensures forall j :: j in r <==> j in jobs && j.jobType == job.jobType && j.name != job.name
    ensures job !in r
  {
    Seqs.FilterMembership(jobs, SimilarTo(job));
    Seqs.Filter(jobs, SimilarTo(job))
  }

  /** `renderJobPage` for the query `name`: the gallery when it is missing or empty,
      otherwise the first job of that name with its company and similar jobs. */
  function RenderJobPage(query: Option<string>, jobs: seq<Job>, companies: seq<Company>): (v: JobView)
    ensures v.JobNotFound? ==> query == Some(v.name)
    ensures v.JobDetail? ==> v.job in jobs && query == Some(v.job.name)
  {
    if query == None || query == Some("") then JobGallery
    else
      match FindJob(jobs, query.value)
      case None => JobNotFound(query.value)
      case Some(job) => JobDetail(job, LinkedCompany(companies, job), SimilarJobs(jobs, job))
  }

  /** The detail page: the gallery exactly for a missing or empty name; "not found"
      exactly when no job has the name; otherwise the first job of that name (compared
      case-sensitively), the first company named by its `business` if any, and exactly
      the other-named jobs of the same type, never the job itself. */
  lemma JobPageSpec(query: Option<string>, jobs: seq<Job>, companies: seq<Company>)
    ensures var v := RenderJobPage(query, jobs, companies);
      && (v.JobGallery? <==> query == None || query == Some(""))
      && (v.JobNotFound? <==> query != None && query != Some("") && forall j :: j in jobs ==> j.name != query.value)
      && (v.JobDetail? ==>
            && v.job == FindJob(jobs, query.value).value
            && (exists i :: 0 <= i < |jobs| && jobs[i] == v.job && jobs[i].name == query.value &&
                             forall k :: 0 <= k < i ==> jobs[k].name != query.value)
            && (v.job.business == None ==> v.company == None)
            && (v.company.Some? ==> v.company.value in companies && Some(v.company.value.name) == v.job.business)
            && (v.company.Some? ==>
                  exists i :: 0 <= i < |companies| && companies[i] == v.company.value &&
                              forall k :: 0 <= k < i ==> Some(companies[k].name) != v.job.business)
            && (v.job.business.Some? && v.company == None ==>
                  forall c :: c in companies ==> c.name != v.job.business.value)
            && (forall j :: j in v.similar <==> j in jobs && j.jobType == v.job.jobType && j.name != v.job.name)
            && v.job !in v.similar)
  {
  }
}
