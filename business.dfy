/** The company page (`business.js`): without a `name` query it shows a gallery of all
    companies with a search box and a row of location buttons; with a `name` it shows
    that company and its jobs. Both views first attach to every company its job
    count. */
module BusinessPage {
  import opened Wrappers
  import opened Text
  import opened Records
  import Seqs
  import Dedupe
  import Collate

  // ----- The location buttons

  /** `(b.location || '').trim()` for every company, in data order: one entry per
      company, none with whitespace at either end, and empty for a company without a
      location. */
  function TrimmedLocations(companies: seq<Company>): (r: seq<string>)
    ensures |r| == |companies| && forall i :: 0 <= i < |companies| ==> r[i] == Trimmed(companies[i].location)
    ensures forall i :: 0 <= i < |r| ==> Trim(r[i]) == r[i]
    ensures forall i :: 0 <= i < |companies| && companies[i].location == None ==> r[i] == ""
  {
    seq(|companies|, i requires 0 <= i < |companies| => Trimmed(companies[i].location))
  }

  /** The locations the `locMap` loop inserts: the non-blank ones among the trimmed
      locations, in data order. */
  function LocationValues(companies: seq<Company>): (r: seq<string>)
    ensures forall i :: 0 <= i < |r| ==> r[i] != "" && Trim(r[i]) == r[i]
  {
    var trimmed := TrimmedLocations(companies);
    var r := Seqs.Filter(trimmed, NonBlank);
    assert forall i :: 0 <= i < |r| ==> r[i] in trimmed;
    r
  }

  /** The location values are exactly the non-blank trimmed locations of the companies. */
  lemma LocationValuesExactly(companies: seq<Company>)
    ensures forall v :: v in LocationValues(companies) <==>
      v != "" && exists k :: 0 <= k < |companies| && Trimmed(companies[k].location) == v
  {
    var trimmed := TrimmedLocations(companies);
    Seqs.FilterMembership(trimmed, NonBlank);
    forall v
      ensures v in trimmed <==> exists k :: 0 <= k < |companies| && Trimmed(companies[k].location) == v
    {
      if v in trimmed {
        var k :| 0 <= k < |trimmed| && trimmed[k] == v;
      }
    }
  }

  /** One more company adds its trimmed location when that is not blank. */
  lemma LocationValuesSnoc(companies: seq<Company>, n: nat)
    requires n < |companies|
    ensures var raw := Trimmed(companies[n].location);
      LocationValues(companies[..n + 1]) == LocationValues(companies[..n]) + (if raw != "" then [raw] else [])
  {
    var raw := Trimmed(companies[n].location);
    assert TrimmedLocations(companies[..n + 1]) == TrimmedLocations(companies[..n]) + [raw];
    Seqs.FilterConcat(TrimmedLocations(companies[..n]), [raw], NonBlank);
    Seqs.FilterSingleton(raw, NonBlank);
  }

  /** `Array.from(locMap.values())`. */
  function Locations(companies: seq<Company>): (r: seq<string>)
    ensures forall i :: 0 <= i < |r| ==> r[i] != "" && Trim(r[i]) == r[i]
    ensures Dedupe.Distinct(Collate.LowerAll(r))
  {
    Collate.FirstSeenSpec(LocationValues(companies));
    Collate.FirstSeen(LocationValues(companies))
  }

  /** A value whose key is already in `locMap` leaves it alone; a new key is added at
      the end with this value. */
  lemma FirstSeenStep(vs: seq<string>, v: string)
    ensures var m := Dedupe.FirstWins(Collate.CaseEntries(vs));
      Dedupe.FirstWins(Collate.CaseEntries(vs + [v])) ==
        if Lower(v) in Dedupe.Keys(m) then m else m + [(Lower(v), v)]
  {
    var es := Collate.CaseEntries(vs);
    var all := Collate.CaseEntries(vs + [v]);
    assert all == es + [(Lower(v), v)];
    assert all[..|all| - 1] == es;
    Dedupe.FirstWinsSpec(es);
  }

  /** One turn of the `locMap` loop over the model of the map after `i` companies. */
  lemma LocMapStep(companies: seq<Company>, i: nat, m: seq<(string, string)>)
    requires i < |companies|
    requires m == Dedupe.FirstWins(Collate.CaseEntries(LocationValues(companies[..i])))
    ensures var raw := Trimmed(companies[i].location);
      Dedupe.FirstWins(Collate.CaseEntries(LocationValues(companies[..i + 1]))) ==
        if Lower(raw) !in Dedupe.Keys(m) && raw != "" then m + [(Lower(raw), raw)] else m
  {
    var raw := Trimmed(companies[i].location);
    var before := LocationValues(companies[..i]);
    LocationValuesSnoc(companies, i);
    if raw != "" {
      FirstSeenStep(before, raw);
    } else {
      assert LocationValues(companies[..i + 1]) == before;
    }
  }

  /** The `locMap` loop: for each company, its trimmed location `raw` under the key
      `raw.toLowerCase()` when the key is new and `raw` is not blank. */
  method BuildLocations(companies: seq<Company>) returns (locations: seq<string>)
    ensures locations == Locations(companies)
  {
    var locMap: seq<(string, string)> := [];
    var i := 0;
    while i < |companies|
      invariant 0 <= i <= |companies|
      invariant locMap == Dedupe.FirstWins(Collate.CaseEntries(LocationValues(companies[..i])))
    {
      var raw := Trimmed(companies[i].location);
      var key := Lower(raw);
      LocMapStep(companies, i, locMap);
      if key !in Dedupe.Keys(locMap) && raw != "" {
        locMap := Dedupe.MapSet(locMap, key, raw);
      }
      i := i + 1;
    }
    assert companies[..|companies|] == companies;
    locations := Dedupe.Values(locMap);
  }

  /** The location list: trimmed non-blank values, one per lower-case key, keys in the
      order of their first occurrence among the companies. */
  lemma LocationListSpec(companies: seq<Company>)
    ensures var vs := LocationValues(companies);
      var ls := Locations(companies);
      && Collate.LowerAll(ls) == Dedupe.FirstOccurrences(Collate.LowerAll(vs))
      && Dedupe.Distinct(Collate.LowerAll(ls))
      && (forall i :: 0 <= i < |ls| ==> ls[i] in vs && ls[i] != "" && Trim(ls[i]) == ls[i])
  {
    var vs := LocationValues(companies);
    var ls := Locations(companies);
    Collate.FirstSeenSpec(vs);
    forall i | 0 <= i < |ls|
      ensures ls[i] in vs && ls[i] != "" && Trim(ls[i]) == ls[i]
    {
      var k :| 0 <= k < |vs| && vs[k] == ls[i];
    }
  }

  /** The value the list shows for a key is the key's FIRST occurrence among the
      companies' locations. */
  lemma LocationListKeepsFirst(companies: seq<Company>, j: nat)
    requires var vs := LocationValues(companies);
      j < |vs| && forall i :: 0 <= i < j ==> Lower(vs[i]) != Lower(vs[j])
    ensures LocationValues(companies)[j] in Locations(companies)
  {
    Collate.FirstSeenKeepsFirst(LocationValues(companies), j);
  }

  // ----- The company gallery

  /** `!search || biz.name.toLowerCase().includes(search) ||
      biz.industry?.toLowerCase().includes(search)`: a missing industry never
      matches a non-empty search. */
  function CompanyMatchesSearch(c: Company, search: string): (r: bool)
    ensures search == "" ==> r
    ensures c.industry.None? ==> (r <==> search == "" || Includes(Lower(c.name), search))
  {
    search == "" || Includes(Lower(c.name), search) ||
    (c.industry.Some? && Includes(Lower(c.industry.value), search))
  }

  /** `!location || bizLocKey === location`: the empty key matches every company, a
      company without a location matches no other key, and otherwise its trimmed,
      lower-cased location must equal the key. */
  function CompanyMatchesLocation(c: Company, location: string): (r: bool)
    ensures location == "" ==> r
    ensures location != "" && c.location.None? ==> !r
    ensures location != "" && c.location.Some? ==> (r <==> Lower(Trim(c.location.value)) == location)
  {
    location == "" || FieldKey(c.location) == location
  }

  function CompanyFilter(search: string, location: string): Company -> bool {
    (c: Company) => CompanyMatchesSearch(c, search) && CompanyMatchesLocation(c, location)
  }

  /** `renderGallery(search, location)`: the companies it shows, in data order. */
  function CompanyResults(companies: seq<Company>, search: string, location: string): (r: seq<Company>)
    ensures |r| <= |companies|
    ensures forall c :: c in r ==> c in companies && CompanyMatchesSearch(c, search) && CompanyMatchesLocation(c, location)
  {
    Seqs.Filter(companies, CompanyFilter(search, location))
  }

  /** A company is shown exactly when it matches the search and the location. */
  lemma CompanyResultsExactly(companies: seq<Company>, search: string, location: string)
    ensures forall c :: c in CompanyResults(companies, search, location) <==>
      c in companies && CompanyMatchesSearch(c, search) && CompanyMatchesLocation(c, location)
  {
    Seqs.FilterMembership(companies, CompanyFilter(search, location));
  }

  /** The first `renderGallery()` shows every company, in data order. */
  lemma EmptySelectionShowsAllCompanies(companies: seq<Company>)
    ensures CompanyResults(companies, "", "") == companies
  {
    Seqs.FilterAllPass(companies, CompanyFilter("", ""));
  }

  /** Pressing any location button, with an empty search, shows at least one company:
      the location list only holds locations some company has. */
  lemma LocationButtonShowsCompanies(companies: seq<Company>, i: nat)
    requires i < |Locations(companies)|
    ensures CompanyResults(companies, "", Lower(Locations(companies)[i])) != []
  {
    var vs := LocationValues(companies);
    var key := Lower(Locations(companies)[i]);
    LocationListSpec(companies);
    LocationValuesExactly(companies);
    var k :| 0 <= k < |companies| && Trimmed(companies[k].location) == Locations(companies)[i];
    assert CompanyFilter("", key)(companies[k]);
    CompanyResultsExactly(companies, "", key);
    assert companies[k] in CompanyResults(companies, "", key);
  }

  /** The gallery's closure state: the location list and the keys of its buttons, the
      search box's text, `selectedLocation` and the companies on display. */
  class CompanyBrowser {
    const companies: seq<Company>
    const locations: seq<string>
    const buttonKeys: seq<string>
    var searchText: string
    var selectedLocation: string
    var shown: seq<Company>

    /** `renderGallery(searchBar.value.toLowerCase(), selectedLocation)`. */
    function Selection(): seq<Company>
      reads this`searchText, this`selectedLocation
    {
      CompanyResults(companies, Lower(searchText), selectedLocation)
    }

    /** The selected location is the key of one of the buttons and the gallery shows
        the current selection. */
    predicate Valid()
      reads this
    {
      selectedLocation in buttonKeys && shown == Selection()
    }

    /** The gallery's set-up: the location list, the "All" button (key `''`) followed by
        one button per location (key: its lower-case form), nothing selected, and the
        first `renderGallery()` showing every company. */
    constructor (companies: seq<Company>)
      ensures Valid()
      ensures this.companies == companies && locations == Locations(companies)
      ensures buttonKeys == [""] + Collate.LowerAll(locations)
      ensures searchText == "" && selectedLocation == ""
      ensures shown == companies
    {
      var ls := BuildLocations(companies);
      var keys := Collate.ButtonKeys(ls);
      this.companies := companies;
      locations := ls;
      buttonKeys := keys;
      searchText := "";
      selectedLocation := "";
      shown := CompanyResults(companies, "", "");
      EmptySelectionShowsAllCompanies(companies);
      assert Lower("") == "";
      assert keys[0] == "";
    }

    /** Button `b` of the row: `selectedLocation = btn.dataset.location || ''`, then a
        render with the search box's text. */
    method ClickLocation(b: nat)
      requires Valid() && b < |buttonKeys|
      modifies this`selectedLocation, this`shown
      ensures Valid()
      ensures selectedLocation == buttonKeys[b] && searchText == old(searchText)
    {
      selectedLocation := buttonKeys[b];
      shown := Selection();
    }

    /** Typing in the search box re-renders with the new text and the same location. */
    method Search(text: string)
      requires Valid()
      modifies this`searchText, this`shown
      ensures Valid()
      ensures searchText == text && selectedLocation == old(selectedLocation)
    {
      searchText := text;
      shown := Selection();
    }
  }

  // ----- The detail page

  datatype CompanyView =
    | CompanyGallery
    | CompanyNotFound(name: string)
    | CompanyDetail(company: Company, jobs: seq<Job>)

  /** `renderCompanyPage` for the query `name`: the gallery when it is missing or empty,
      otherwise the first company of that name and `bizJobs`. */
  function RenderCompanyPage(query: Option<string>, companies: seq<Company>, jobs: seq<Job>): (v: CompanyView)
    ensures v.CompanyNotFound? ==> query == Some(v.name)
    ensures v.CompanyDetail? ==> v.company in companies && query == Some(v.company.name)
  {
    if query == None || query == Some("") then CompanyGallery
    else
      match FindCompany(companies, query.value)
      case None => CompanyNotFound(query.value)
      case Some(biz) => CompanyDetail(biz, JobsAt(jobs, biz.name))
  }

  /** The detail page: the gallery exactly for a missing or empty name; "not found"
      exactly when no company has the name; otherwise the first company of that name
      (compared case-sensitively) and exactly the jobs whose `business` is its name. */
  lemma CompanyPageSpec(query: Option<string>, companies: seq<Company>, jobs: seq<Job>)
    ensures var v := RenderCompanyPage(query, companies, jobs);
      && (v.CompanyGallery? <==> query == None || query == Some(""))
      && (v.CompanyNotFound? <==>
            query != None && query != Some("") && forall c :: c in companies ==> c.name != query.value)
      && (v.CompanyDetail? ==>
            && (exists i :: 0 <= i < |companies| && companies[i] == v.company && companies[i].name == query.value &&
                             forall k :: 0 <= k < i ==> companies[k].name != query.value)
            && (forall j :: j in v.jobs <==> j in jobs && j.business == Some(query.value)))
  {
    var v := RenderCompanyPage(query, companies, jobs);
    if v.CompanyDetail? {
      JobsAtExactly(jobs, v.company.name);
    }
  }

  /** Once the counts are attached, the jobs listed on a company's page are as many as
      its `jobs` count says. */
  lemma DetailMatchesCount(query: Option<string>, companies: seq<Company>, jobs: seq<Job>)
    requires Counted(companies, jobs)
    ensures var v := RenderCompanyPage(query, companies, jobs);
      v.CompanyDetail? ==> v.company.jobCount == Some(|v.jobs|)
  {
    var v := RenderCompanyPage(query, companies, jobs);
    if v.CompanyDetail? {
      var i :| 0 <= i < |companies| && companies[i] == v.company;
    }
  }

  /** `renderCompanyPage` after loading: the counts are attached to the records in
      place, then the page for the query is built from the counted records. */
  method ShowCompanyPage(companies: array<Company>, jobs: seq<Job>, query: Option<string>)
    returns (view: CompanyView)
    modifies companies
    ensures forall i :: 0 <= i < companies.Length ==>
      companies[i] == old(companies[i]).(jobCount := Some(|JobsAt(jobs, old(companies[i]).name)|))
    ensures Counted(companies[..], jobs)
    ensures view == RenderCompanyPage(query, companies[..], jobs)
    ensures view.CompanyDetail? ==> view.company.jobCount == Some(|view.jobs|)
  {
    AttachJobCounts(companies, jobs);
    view := RenderCompanyPage(query, companies[..], jobs);
    DetailMatchesCount(query, companies[..], jobs);
  }
}
