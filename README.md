# Job board filter and join engine

A model of the logic inside the three browser scripts of a small job board: the job
page (`jobs.js`), the company page (`business.js`) and the landing page
(`filemanager.js`). Each page loads two record lists, companies (`business.json`)
and jobs (`jobs.json`). The company and landing pages attach to every company the
number of jobs naming it. The job and company pages show a filterable gallery or,
given a `name` query, the detail view of one record. The landing page shows three
totals and a preview of at most ten companies and ten jobs.

The model covers:

- the value normalisers: `isFullTime`, `parseSalary`, ASCII `toLowerCase` and
  `trim`;
- the two case-insensitive distinct-value builders: `uniq` on the job page and the
  `locMap` loop on the company page;
- the three gallery filters;
- the landing preview with its ten-item caps and its mode dispatch;
- the job-count join, the placements count and the first-match detail lookups;
- the closure state of the job page filters (location, type, salary ceiling,
  full/part-time switch, panels, "active" marks);
- the closure state of the company page location buttons.

Module layout:

| module | holds |
|---|---|
| `Wrappers` | `Option` |
| `Text` | lower case, trim, `includes` |
| `Seqs` | `filter`, `slice(0, n)`, `find` as sequence functions |
| `Dedupe` | the JavaScript `Map` as a sequence of entries: `new Map(entries)`, and "set only when absent" |
| `JsValues` | the loosely typed `fulltime` and `placement` members |
| `Salary` | `parseSalary` |
| `Collate` | `uniq` and the `locMap` values |
| `Records` | the two record types, the job-count loop and the lookups |
| `JobsPage` | `jobs.js` |
| `BusinessPage` | `business.js` |
| `Landing` | `filemanager.js` |

The closure variables the handlers reassign are the fields of two classes,
`JobsPage.JobFilters` and `BusinessPage.CompanyBrowser`. The counting loops
update an `array<Company>` in place. The text of the search box is the field
`searchText`; every re-render lower-cases it, as each handler does with
`searchBar.value.toLowerCase()`.

The two distinct-value lists differ in the casing they show. `uniq` (`jobs.js:58`)
builds `new Map(arr.map(v => [v.toLowerCase(), v]))`, so a later value overwrites an
earlier one: each key keeps its first position but shows the casing of its LAST
occurrence (`Collate.UniqKeepsLast`). The company page's `locMap` (`business.js:41-47`)
sets a key only when it is absent, so it keeps the FIRST casing
(`Collate.FirstSeenKeepsFirst`; `Collate.CasingExample` shows both on
`["Remote", "remote"]`).

The filter toggles follow the code as written: each hides every panel and then
toggles its own, so its panel is always open afterwards (see "## Findings").

## Model

| member | source | states |
|---|---|---|
| JsValues.IsFullTime | bubbahubba/jobs.js:22-27 | a value reads as full-time only when it is `true`, the number 1 or a four-character string; `true`, 1 and "true" do |
| JsValues.Truthy | bubbahubba/filemanager.js:24 | a value is falsy exactly when it is `false`, "", 0 or absent |
| JsValues.IsFullTimeString | bubbahubba/jobs.js:22-27 | a string is full-time exactly when it is "true" in any mix of upper and lower case |
| JsValues.IsFullTimeExamples | bubbahubba/jobs.js:22-27 | booleans are kept; "true", "TRUE" and "True" are full-time; "1", "yes", "false", " true" and "" are not; of the numbers only 1 is; absent values and objects are not |
| Text.Lower | bubbahubba/jobs.js:191 | lower-casing keeps the length, leaves no upper-case letter, turns each upper-case letter into the same letter in lower case, and keeps every other character in place |
| Text.LowerIdempotent | bubbahubba/jobs.js:191 | lower-casing twice is lower-casing once |
| Text.Trim | bubbahubba/jobs.js:59 | the trimmed string is no longer than the input and neither starts nor ends with white space |
| Text.TrimIsSlice | bubbahubba/jobs.js:59 | the trimmed string is the slice of the input after its leading white space, and everything outside that slice is white space |
| Text.TrimIdempotent | bubbahubba/jobs.js:59 | trimming twice is trimming once |
| Text.IncludesEmpty | bubbahubba/filemanager.js:47 | every string includes the empty string |
| Text.IncludesAt | bubbahubba/jobs.js:191 | `s.includes(sub)` holds exactly when `sub` starts at some position of `s` |
| Seqs.Filter | bubbahubba/jobs.js:190 | the result is no longer than the input and holds only input elements that pass |
| Seqs.FilterMembership | bubbahubba/jobs.js:190 | an element is kept exactly when it is in the input and passes |
| Seqs.FilterConcat | bubbahubba/jobs.js:190 | filtering a concatenation is concatenating the filtered parts, so the input order is kept |
| Seqs.FilterFilter | bubbahubba/jobs.js:199-203 | two filters in a row are one filter by both tests |
| Seqs.FilterAllPass | bubbahubba/jobs.js:190 | when every element passes, the filter returns its input |
| Seqs.FilterCount | bubbahubba/business.js:23 | the filter's length is the number of input positions that pass |
| Seqs.Take | bubbahubba/filemanager.js:49 | `slice(0, n)` is the prefix of length min(n, length) |
| Seqs.Find | bubbahubba/jobs.js:238 | `find` is empty exactly when no element passes, and otherwise returns the element at the first passing position |
| Dedupe.MapSet | bubbahubba/jobs.js:58 | `map.set`: an existing key keeps its place and takes the new value, a new key is appended, and every other key keeps its value |
| Dedupe.MapFromEntries | bubbahubba/jobs.js:58 | `new Map(entries)` has no more entries than it was given, and the last entry's key holds the last entry's value |
| Dedupe.LastWins | bubbahubba/jobs.js:58 | `new Map(entries)` has the distinct keys in first-seen order, and each holds the value of its last entry |
| Dedupe.FirstWins | bubbahubba/business.js:42-46 | inserting only absent keys keeps at most as many entries as were given, each one of them |
| Dedupe.FirstWinsSpec | bubbahubba/business.js:42-46 | inserting only absent keys gives the distinct keys in first-seen order, and each holds the value of its first entry |
| Salary.ParseDecimalPrefix | bubbahubba/jobs.js:66-67 | `parseFloat` on digits and periods is NaN exactly when no digit comes before the second period; otherwise the result is not negative |
| Salary.ParseSalary | bubbahubba/jobs.js:63-68 | a missing or empty salary is unparsable, and a parsed salary is never negative |
| Salary.CleanSalary | bubbahubba/jobs.js:65 | the cleaned salary is no longer than the input and holds only the input's digits and periods |
| Salary.CleanKeepsEveryDigit | bubbahubba/jobs.js:65 | cleaning keeps every digit and period of the input |
| Salary.CleanKeeps | bubbahubba/jobs.js:65 | a string of digits and periods is already clean |
| Salary.CleanDrops | bubbahubba/jobs.js:65 | a string with no digit and no period cleans to the empty string |
| Salary.CleanConcat | bubbahubba/jobs.js:65 | cleaning works piece by piece |
| Salary.NoDigitUnparsable | bubbahubba/jobs.js:63-68 | a salary without any digit is unparsable |
| Salary.ParseWhole | bubbahubba/jobs.js:66 | a run of digits reads as its decimal value |
| Salary.ParseWithFraction | bubbahubba/jobs.js:66 | digits, a period and digits read as the whole part plus the fraction |
| Salary.ParseWholeThenRest | bubbahubba/jobs.js:66 | a run of digits followed by anything but a digit or a period reads as the digits' value; the rest is ignored |
| Salary.ParseFractionThenRest | bubbahubba/jobs.js:66 | digits, a period and digits, with either side possibly empty but not both, followed by anything but a digit, read as the whole part plus the fraction; a second period and what follows it are ignored |
| Salary.ParseEmptySideExamples | bubbahubba/jobs.js:66 | "5." reads as 5, ".5" as 0.5, and "." is NaN |
| Salary.CleanGrouped | bubbahubba/jobs.js:65 | a number written with comma thousands separators cleans to a non-empty digit string of the same value |
| Salary.ParseFormattedSalary | bubbahubba/jobs.js:63-68 | "$" followed by any whole number written with thousands separators reads as that number |
| Salary.ParseFormattedSalaryWithFraction | bubbahubba/jobs.js:63-68 | "$", a separated whole number, a period and digits read as the number plus the fraction ("$1,200.50" gives 1200.5) |
| Salary.GroupedExample | bubbahubba/jobs.js:65 | 1200 is written "1,200" |
| Salary.ParseSalaryThousandsSuffix | bubbahubba/jobs.js:63-68 | "50k" reads as 50, not 50000 |
| Salary.ParseSalaryWords | bubbahubba/jobs.js:63-68 | "competitive" is unparsable |
| Collate.Uniq | bubbahubba/jobs.js:58 | `uniq` returns at most as many values as it is given (UniqSpec states which) |
| Collate.UniqSpec | bubbahubba/jobs.js:58 | `uniq` has one value per lower-case key, keys in first-occurrence order, every input key present; each value is an input value, namely the last one given for its key |
| Collate.UniqKeepsLast | bubbahubba/jobs.js:58 | a value matched by no later value is the one `uniq` shows |
| Collate.FirstSeen | bubbahubba/business.js:41-47 | the `locMap` values are at most as many as the inputs, and each is an input value |
| Collate.FirstSeenSpec | bubbahubba/business.js:41-47 | the `locMap` values have one value per key, keys in first-occurrence order; each is the first value given for its key |
| Collate.FirstSeenKeepsFirst | bubbahubba/business.js:45 | a value matched by no earlier value is the one `locMap` keeps |
| Collate.CasingExample | bubbahubba/jobs.js:58 | on "Remote" then "remote", `uniq` gives ["remote"] and `locMap` gives ["Remote"] |
| Collate.ButtonKeys | bubbahubba/jobs.js:77-88 | the button row's keys are "" for "All", then each value's lower-case form in list order |
| Collate.ButtonKeysDistinct | bubbahubba/business.js:54-61 | with distinct non-blank keys, the whole row of button keys is distinct |
| Records.Trimmed | bubbahubba/business.js:43 | `(x \|\| '').trim()` is already trimmed |
| Records.JobsAt | bubbahubba/business.js:128 | the jobs listed for a company are no more than all jobs, and each is a job whose `business` is the company name |
| Records.JobsAtExactly | bubbahubba/business.js:128 | a job belongs to a company exactly when its `business` equals the company name, compared case-sensitively |
| Records.JobsAtCount | bubbahubba/business.js:23 | a company's job count is the number of job positions naming it |
| Records.AttachJobCounts | bubbahubba/business.js:22-24 | each company record gets `jobs` equal to the count of jobs naming it, in place, and nothing else changes |
| Records.FindJob | bubbahubba/jobs.js:238 | none exactly when no job has the name; otherwise the first job with exactly that name |
| Records.FindCompany | bubbahubba/business.js:118 | none exactly when no company has the name; otherwise the first company with exactly that name |
| Records.FindIsCaseSensitive | bubbahubba/business.js:118 | "acme" does not find "Acme"; "Acme" does |
| JobsPage.MatchesSearch | bubbahubba/jobs.js:191 | the empty search matches every job; a job without `business` matches exactly when its lower-cased name contains the search |
| JobsPage.MatchesKey | bubbahubba/jobs.js:192-193 | the empty key matches every job; a missing field matches no other key; otherwise the trimmed, lower-cased field must equal the key |
| JobsPage.PricePasses | bubbahubba/jobs.js:194-195 | the price test fails exactly when a ceiling is set and the salary reads as a number above it |
| JobsPage.PassesFilters | bubbahubba/jobs.js:190-197 | with nothing selected every job passes, and a passing job passes the search, location, type and price tests |
| JobsPage.WorkPasses | bubbahubba/jobs.js:199-203 | no switch lets every job through; `true` exactly the full-time jobs, `false` exactly the others |
| JobsPage.GalleryResults | bubbahubba/jobs.js:187-204 | the gallery is no longer than the job list, and every job it shows is a job that passes the four tests and the full/part-time switch |
| JobsPage.GalleryIsOneFilter | bubbahubba/jobs.js:187-204 | the filter followed by the full/part-time post-filter is one filter by every test, in data order |
| JobsPage.GalleryExactly | bubbahubba/jobs.js:187-204 | a job is shown exactly when it passes search, location, type, price and the full/part-time switch |
| JobsPage.ShownJob | bubbahubba/jobs.js:187-204 | one job passing every test makes the gallery non-empty |
| JobsPage.EmptySelectionShowsAll | bubbahubba/jobs.js:230 | the first render, with nothing selected, shows every job in order |
| JobsPage.PriceCeilingMonotone | bubbahubba/jobs.js:194-195 | raising the ceiling never hides a job |
| JobsPage.UnparsableSalaryAlwaysPasses | bubbahubba/jobs.js:195 | a job without a readable salary passes every ceiling |
| JobsPage.SalaryNumbers | bubbahubba/jobs.js:69 | one entry per job, its parsed salary; no entry is a negative number, and a job with a missing or empty salary gives NaN |
| JobsPage.ReadableComplete | bubbahubba/jobs.js:69 | every salary that parses is among the readable salaries |
| JobsPage.ReadableSound | bubbahubba/jobs.js:69 | every readable salary comes from some job's salary |
| JobsPage.ParsedSalariesExactly | bubbahubba/jobs.js:69 | the readable salaries are exactly the parsed salaries of the jobs, none negative |
| JobsPage.ParsedSalariesNonNegative | bubbahubba/jobs.js:69 | no readable salary is negative |
| JobsPage.MinOf | bubbahubba/jobs.js:70 | `Math.min` of a non-empty list is in the list and at most every element |
| JobsPage.MaxOf | bubbahubba/jobs.js:71 | `Math.max` of a non-empty list is in the list and at least every element |
| JobsPage.Floor | bubbahubba/jobs.js:94 | `Math.floor(r)` is the integer f with f <= r < f + 1 |
| JobsPage.Ceil | bubbahubba/jobs.js:95 | `Math.ceil(r)` is the integer c with c - 1 < r <= c |
| JobsPage.LowestFloor | bubbahubba/jobs.js:70-94 | the slider minimum is 0 without salaries; otherwise at most every salary and within 1 of the smallest; never negative for non-negative salaries |
| JobsPage.HighestCeil | bubbahubba/jobs.js:71-95 | the slider maximum is at least every salary; 10000 when every salary is 0 or there is none; otherwise within 1 of the largest; at least 1 |
| JobsPage.SliderMin | bubbahubba/jobs.js:94 | the slider minimum is never negative |
| JobsPage.SliderMax | bubbahubba/jobs.js:95 | the slider maximum is at least 1 |
| JobsPage.SliderBoundsOrdered | bubbahubba/jobs.js:94-95 | the slider minimum never exceeds the maximum |
| JobsPage.SliderMaxAdmitsAll | bubbahubba/jobs.js:96-102 | with the ceiling at the slider maximum, the gallery equals the unbounded one |
| JobsPage.FieldValues | bubbahubba/jobs.js:59-60 | the mapped, filtered field values are trimmed and non-blank |
| JobsPage.FieldValuesExactly | bubbahubba/jobs.js:59-60 | they are exactly the non-blank trimmed field values of the jobs |
| JobsPage.Locations | bubbahubba/jobs.js:59 | the location list holds trimmed, non-blank values with distinct lower-case keys |
| JobsPage.Types | bubbahubba/jobs.js:60 | the type list holds trimmed, non-blank values with distinct lower-case keys |
| JobsPage.ButtonOrder | bubbahubba/jobs.js:58-60 | the location and type lists have one value per lower-case key, in order of first occurrence |
| JobsPage.ButtonsClean | bubbahubba/jobs.js:59-60 | every listed value is trimmed and non-blank |
| JobsPage.ButtonsFromJobs | bubbahubba/jobs.js:58-60 | every listed value's key is some job's key |
| JobsPage.JobsHaveButtons | bubbahubba/jobs.js:58-60 | every job with a non-blank value has its key in the list |
| JobsPage.LocationButtonShowsJobs | bubbahubba/jobs.js:159-166 | any location button, with nothing else selected, shows at least one job |
| JobsPage.TypeButtonShowsJobs | bubbahubba/jobs.js:168-175 | any type button, with nothing else selected, shows at least one job |
| JobsPage.LocationKeysDistinct | bubbahubba/jobs.js:77-83 | the "All" key and the location keys are distinct |
| JobsPage.PanelsAfterClickAsWritten | bubbahubba/jobs.js:110-111 | as written, after a toggle click its panel is the only one open, whatever was open before |
| JobsPage.AsWrittenNeverCloses | bubbahubba/jobs.js:110 | as written, clicking the toggle of an open panel leaves it open |
| JobsPage.PanelsAfterClick | bubbahubba/jobs.js:110-111 | corrected toggle: at most the clicked panel is open afterwards, and it is open exactly when it was closed |
| JobsPage.ClickTwice | bubbahubba/jobs.js:110-111 | corrected toggle: two clicks on the same toggle leave only that panel, open exactly when it was open before |
| JobsPage.FullTimeClick | bubbahubba/jobs.js:127-139 | the Full Time button never selects part-time, and clears the switch exactly when it was set to full-time |
| JobsPage.PartTimeClick | bubbahubba/jobs.js:140-152 | the Part Time button never selects full-time, and clears the switch exactly when it was set to part-time |
| JobsPage.JobFilters.Valid | bubbahubba/jobs.js:127-152 | in a consistent state the Full Time and Part Time marks are never both on |
| JobsPage.JobFilters.constructor | bubbahubba/jobs.js:94-103 | nothing selected, the ceiling at the slider maximum, every panel hidden, and the first render shows every job |
| JobsPage.JobFilters.ClickFullTime | bubbahubba/jobs.js:127-139 | the switch follows FullTimeClick, the marks match the switch, the rest of the state is kept and the gallery shows the selection |
| JobsPage.JobFilters.ClickPartTime | bubbahubba/jobs.js:140-152 | the switch follows PartTimeClick, the marks match the switch, the rest of the state is kept and the gallery shows the selection |
| JobsPage.JobFilters.ClickLocation | bubbahubba/jobs.js:159-166 | the location becomes the button's key, its mark is on exactly for a non-empty key, and the gallery shows the selection |
| JobsPage.JobFilters.ClickType | bubbahubba/jobs.js:168-175 | the type becomes the button's key, its mark is on exactly for a non-empty key, and the gallery shows the selection |
| JobsPage.JobFilters.ClickTypeToggle | bubbahubba/jobs.js:113-123 | with a type selected, a click clears it and re-renders; otherwise every panel is hidden and the type panel toggled, which leaves it the one open panel, and the gallery is unchanged |
| JobsPage.JobFilters.ClickLocationToggle | bubbahubba/jobs.js:110 | every panel is hidden and the location panel toggled, which leaves it the one open panel; nothing else changes |
| JobsPage.JobFilters.ClickPriceToggle | bubbahubba/jobs.js:111 | every panel is hidden and the price panel toggled, which leaves it the one open panel; nothing else changes |
| JobsPage.JobFilters.SlidePrice | bubbahubba/jobs.js:177-184 | the ceiling takes the slider's value, its mark is on exactly below the slider maximum, and the gallery shows the selection |
| JobsPage.JobFilters.Search | bubbahubba/jobs.js:232-234 | typing keeps every selection and shows the gallery for the lower-cased text |
| JobsPage.LinkedCompany | bubbahubba/jobs.js:244 | no company without `business`; otherwise none exactly when no company has that name, and else the company at the first position with that name |
| JobsPage.SimilarJobs | bubbahubba/jobs.js:259 | a job is similar exactly when it is in the list, has the same type and another name; the job itself never is |
| JobsPage.RenderJobPage | bubbahubba/jobs.js:238-259 | a "not found" page names the query, and a detail page shows a job of the list with the queried name |
| JobsPage.JobPageSpec | bubbahubba/jobs.js:238-259 | the gallery exactly for a missing or empty name; not found exactly when no job has it; otherwise the first exact match, the company at the first position named by its `business` if any (none without `business`), and exactly the other-named jobs of the same type |
| BusinessPage.TrimmedLocations | bubbahubba/business.js:43 | one location per company, in order, with no white space at either end, and empty for a company without a location |
| BusinessPage.LocationValues | bubbahubba/business.js:43-45 | the values the loop can insert are trimmed and non-blank |
| BusinessPage.LocationValuesExactly | bubbahubba/business.js:43-45 | they are exactly the non-blank trimmed company locations |
| BusinessPage.Locations | bubbahubba/business.js:41-47 | the location list holds trimmed, non-blank values with distinct lower-case keys |
| BusinessPage.BuildLocations | bubbahubba/business.js:41-47 | the `locMap` loop yields, after the last company, the first-seen distinct list of the trimmed non-blank locations |
| BusinessPage.LocationListSpec | bubbahubba/business.js:41-47 | the location list has one value per lower-case key, in order of first occurrence; every value is a trimmed, non-blank company location |
| BusinessPage.LocationListKeepsFirst | bubbahubba/business.js:45 | the value shown for a key is its first occurrence among the companies |
| BusinessPage.CompanyMatchesSearch | bubbahubba/business.js:77 | the empty search matches every company; one without an industry matches exactly when its lower-cased name contains the search |
| BusinessPage.CompanyMatchesLocation | bubbahubba/business.js:78-79 | the empty key matches every company; one without a location matches no other key; otherwise its trimmed, lower-cased location must equal the key |
| BusinessPage.CompanyResults | bubbahubba/business.js:73-82 | the gallery is no longer than the company list, and each company it shows matches the search and the location |
| BusinessPage.CompanyResultsExactly | bubbahubba/business.js:76-81 | a company is shown exactly when it matches the search and the location |
| BusinessPage.EmptySelectionShowsAllCompanies | bubbahubba/business.js:114 | the first render shows every company in order |
| BusinessPage.LocationButtonShowsCompanies | bubbahubba/business.js:97-104 | any location button, with an empty search, shows at least one company |
| BusinessPage.CompanyBrowser.constructor | bubbahubba/business.js:41-61 | the location list, the "All" key "" then each location's lower-case key, nothing selected, and the first render shows every company |
| BusinessPage.CompanyBrowser.ClickLocation | bubbahubba/business.js:97-104 | the selected location becomes the clicked button's key, the search text stays, and the gallery shows the selection |
| BusinessPage.CompanyBrowser.Search | bubbahubba/business.js:108-111 | typing keeps the location and shows the gallery for the lower-cased text |
| BusinessPage.RenderCompanyPage | bubbahubba/business.js:118-128 | a "not found" page names the query, and a detail page shows a company of the list with the queried name |
| BusinessPage.CompanyPageSpec | bubbahubba/business.js:118-128 | the gallery exactly for a missing or empty name; not found exactly when no company has it; otherwise the first exact match and exactly the jobs naming it |
| BusinessPage.DetailMatchesCount | bubbahubba/business.js:23-128 | once counted, the jobs listed on a company's page are as many as its `jobs` count |
| BusinessPage.ShowCompanyPage | bubbahubba/business.js:22-128 | the counts are attached in place, then the page is built from the counted records, and a detail page's list length equals its count |
| Landing.Placed | bubbahubba/filemanager.js:24 | a job is placed unless its `placement` is `false`, "", 0 or absent |
| Landing.PlacementCount | bubbahubba/filemanager.js:24 | the placements total is at most the number of jobs |
| Landing.PlacementCountSpec | bubbahubba/filemanager.js:24 | the placements total is the number of jobs with a truthy `placement` |
| Landing.CompanyHit | bubbahubba/filemanager.js:46-47 | the empty search matches every company; one without an industry matches exactly when its lower-cased name contains the search |
| Landing.JobHit | bubbahubba/filemanager.js:52-53 | the empty search matches every job; one without `business` matches exactly when its lower-cased name contains the search |
| Landing.CompanyPreview | bubbahubba/filemanager.js:45-48 | at most ten companies, each a company of the data whose name or industry contains the search |
| Landing.JobPreview | bubbahubba/filemanager.js:51-54 | at most ten jobs, each a job of the data whose name or company contains the search |
| Landing.RenderGallery | bubbahubba/filemanager.js:41-68 | every company thumbnail is a company of the data containing the search, and every job thumbnail a job of the data containing the search |
| Landing.PreviewsAreCappedPrefixes | bubbahubba/filemanager.js:45-66 | each preview is the start of the list of all hits, of length min(10, number of hits), and that number is the count of matching records |
| Landing.GalleryShape | bubbahubba/filemanager.js:41-68 | "companies" shows only companies and "jobs" only jobs, ten at most; any other mode shows at most twenty items, every company before every job |
| Landing.EmptySearchShowsFirst | bubbahubba/filemanager.js:41-68 | with the empty search the previews are the first ten companies and the first ten jobs |
| Landing.HitsAgreeWithGallerySearch | bubbahubba/filemanager.js:47-48 | the landing tests, which lack `!search \|\|`, agree with the search tests of the company and job galleries |
| Landing.OnEvent | bubbahubba/filemanager.js:30-37 | the toggles show the first ten of their kind (both kinds for "All"); typing shows both previews for the lower-cased text |
| Landing.LoadData | bubbahubba/filemanager.js:16-27 | counts attached in place; totals of jobs, companies and placements; the first gallery is the first ten companies then the first ten jobs |

## Left out

- Network and start-up: `fetchJSON`, `Promise.all`, `async`/`await` and `window.onload`. The two record lists are inputs.
- `getQueryParam` and `URLSearchParams`. The `name` query is an `Option<string>` input.
- Everything the DOM does: HTML templates, `innerHTML`, `createElement`/`appendChild`, `classList` other than the five toggle marks and the panel visibility, `setActive`/`setActiveButton` highlighting of the pressed button, `encodeURIComponent` links, the thumbnail renderers, the "no results" message and the `priceValue` label.
- The stats line's DOM text: the three totals are returned as `Landing.Stats`.
- IEEE-754 numbers. Salaries and `fulltime` numbers are exact reals. `NaN` is `None`, and `Infinity` as the default ceiling is `None`. `Number(e.target.value)` is the real the slider reports.
- The range input's own behaviour. The `step="50"` snapping and the clamping of a value to `min`/`max` are not modelled. `JobsPage.JobFilters.constructor` therefore starts the ceiling exactly at the computed slider maximum. In a browser the snapping is visible: when `ceil(max) - floor(min)` is not a multiple of 50 the value snaps below the maximum, so salaries of 18.50 and 25 give a slider of 18..25 whose value is 18, and once a handler re-renders with that ceiling the job paying 25 is hidden. The model's ceiling admits every job at the start (`JobsPage.SliderMaxAdmitsAll`).
- Unicode case mapping and JavaScript's full white-space set. `Text.Lower` maps only ASCII letters, and `Text.Trim` strips space, tab, line feed, carriage return, vertical tab and form feed.
- Dynamic typing beyond `Option` fields and the `JsValue` union. `name` is always a string, and `business`, `location`, `type`, `industry` and `salary` are strings or absent.
- The panel set-up loops that create the buttons. Only the keys they store (`dataset.value`, `dataset.location`) are modelled.
- JobsPage.JobFilters.ClickLocation: the clicked button's `dataset.value` is passed in as the key; the class does not hold the rendered buttons.
- JobsPage.JobFilters.ClickType: the clicked button's `dataset.value` is passed in as the key, as for locations.

## Findings

| source | as written | input that shows it | evidently intended | confidence | as-written member | corrected member |
|---|---|---|---|---|---|---|
| bubbahubba/jobs.js:110-121 | each filter toggle runs `hideAllPanels()` and then `classList.toggle('hidden')` on its panel, so the panel is always hidden before the toggle and the toggle always shows it | the location panel is open and the Location toggle is clicked again: the panel stays open | a second click closes the panel, as the comment "toggle panels" and the use of `toggle` suggest; the other panels are hidden first; the class's toggle methods keep the behaviour as written | not executed | JobsPage.PanelsAfterClickAsWritten, JobsPage.AsWrittenNeverCloses | JobsPage.PanelsAfterClick, JobsPage.ClickTwice |
