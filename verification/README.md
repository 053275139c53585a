# Veeva job scraper: extraction, filtering and grouping

A Dafny model of the data path of the Veeva careers mobile app (`veeva_simple_mobile.py`).
The app fetches the careers page, takes the JavaScript literal assigned to `allJobs`, decodes
it as JSON, and keeps the Product Support jobs in Asia Pacific. Each kept job becomes a
five-field record. The app then groups these records by city and lists the cities in
ascending order, numbering the jobs of each city from 1.

Modules:

- `Results` (`results.dfy`): `Option` and `Result`.
- `Text` (`text.dfy`): `str.lower` on ASCII letters, `str.strip`, substring search, and Python's order on strings.
- `Json` (`json.dfy`): the values `json.loads` yields, `dict.get`, and `str()`/`repr()` of those values (an f-string inserts `str()`).
- `Capture` (`capture.dfy`): the search `re.search(r'let allJobs = (\[.*?\]);', html, re.DOTALL)`, written as two substring searches. Beside it is a predicate stating what the regular expression engine reports: the leftmost start, then the shortest match from it.
- `Filter` (`filter.dfy`): the keep test and the projection. `ExtractJobs` specifies `extract_jobs_from_html`, and the method `ExtractJobsFromHtml` runs its loop. Any exception gives the empty list.
- `FilterFacts` (`filter.dfy`): what the extraction promises.
- `Display` (`display.dfy`): the data part of `display_jobs`. It covers the city key, the grouping loop over a dict, the sort of the keys, the numbering and the remote flag, and the proof that the grouping partitions the jobs.

`json.loads` is the parameter `parse: string -> Option<JsonValue>`. `None` stands for a decode error. The model decides nothing about which texts decode.

Three consequences of the code are worth stating outright:
- When `remote` is absent, the extracted record holds `"N/A"` (line 160).
- Filtering the extracted records again is not idempotent. An extracted record has no `city` or `country`, so it is kept again but its location becomes `"N/A, N/A"` (`FilterFacts.FilterTwiceLosesLocation`). The idempotence that does hold is that of the keep test on the raw records (`FilterFacts.FilterIdempotent`).
- The `"N/A"` defaults for `team` and `region` at lines 157 and 159 never apply: a kept record always has a string `team` and `region` (`FilterFacts.KeptFields`).

## Model

| member | source | states |
|---|---|---|
| Text.Find | veeva_simple_mobile.py:139 | the result is the leftmost occurrence at or after the start index; None means there is no occurrence there at all |
| Text.Lower | veeva_simple_mobile.py:151-152 | `lower()` keeps the length and leaves no upper-case ASCII letter |
| Text.LowerMatches | veeva_simple_mobile.py:151-154 | comparing `s.lower()` with a lower-case target succeeds exactly when `s` spells the target up to ASCII case |
| Text.Strip | veeva_simple_mobile.py:193 | `strip()`; what it cuts and keeps is stated by `Text.StripBounds` |
| Text.StripBounds | veeva_simple_mobile.py:193 | `strip()` gives a contiguous piece of its input; only whitespace is cut on either side; the result neither starts nor ends with whitespace |
| Text.TrimStartShape | veeva_simple_mobile.py:193 | the leading-whitespace cut keeps a suffix; everything dropped is whitespace; the rest does not start with whitespace |
| Text.TrimEndShape | veeva_simple_mobile.py:193 | the trailing-whitespace cut keeps a prefix; everything dropped is whitespace; the rest does not end with whitespace |
| Text.BelowTotal | veeva_simple_mobile.py:199 | Python's string order is total on distinct strings, as `sorted` on dict keys needs |
| Text.Below | veeva_simple_mobile.py:199 | Python's `<` on str, which `sorted` uses: code-point lexicographic order with a proper prefix first; `Text.BelowIrreflexive`, `Text.BelowTransitive` and `Text.BelowTotal` state that it is a strict total order |
| Json.Get | veeva_simple_mobile.py:151-161 | `dict.get(key, default)`: the value bound to the key, else the default; `Json.LookupAbsent` and `Json.LookupLast` state which binding that is |
| Json.Lookup | veeva_simple_mobile.py:146-161 | the binding `dict.get` sees in the dict `json.loads` builds; `Json.LookupAbsent` and `Json.LookupLast` state which one |
| Json.LookupAbsent | veeva_simple_mobile.py:151-161 | a key bound nowhere in the dict is not found, so `get` falls back to its default |
| Json.LookupLast | veeva_simple_mobile.py:146-161 | the last binding of a key is the one found, as in the dict `json.loads` builds from an object with a repeated key |
| Json.Str | veeva_simple_mobile.py:158 | what the f-string inserts: a string as itself, anything else as its `repr` |
| Json.Repr | veeva_simple_mobile.py:158 | `repr()` of None, booleans, integers, strings, lists and dicts, which the f-string inserts for a non-string city or country |
| Json.StrReprQuotes | veeva_simple_mobile.py:158 | `repr` of a string is wrapped in matching quotes: double quotes exactly when the text holds a single quote and no double quote |
| Capture.MatchSpan | veeva_simple_mobile.py:139 | `re.search`: when it reports a span, the pattern matches there (marker, then `];` after the bracket) |
| Capture.AllJobsLiteral | veeva_simple_mobile.py:145 | `match.group(1)`: when present, it is at least two characters long, starts with `[` and ends with `]` |
| Capture.MatchSpanIsSearch | veeva_simple_mobile.py:138-142 | when the search finds no marker and terminator, the pattern matches nowhere; when it finds them, the span is the leftmost match and, the group being lazy, the shortest one from that start |
| Capture.LiteralShape | veeva_simple_mobile.py:138-145 | a capture exists iff the pattern matches somewhere; it is group 1 of the reported match; it starts with `[` and ends with `]`; it contains no `];` |
| Capture.StopsAtFirstTerminator | veeva_simple_mobile.py:138-139 | the lazy group ends at the first `];` even when it lies inside a JSON string: on `let allJobs = ["a];b"];` the capture is `["a]` |
| Filter.ExtractJobsFromHtml | veeva_simple_mobile.py:134-167 | the append loop with early exit on the first exception returns exactly the specified result for every page and every decoder |
| Filter.Elements | veeva_simple_mobile.py:150 | what `for job in all_jobs` visits: it raises exactly for values that are not a list, dict or string; for a dict or a string every element visited is a string |
| Filter.Verdict | veeva_simple_mobile.py:151-154 | the keep test raises exactly when the element is not a dict, or its `team` or `region` is present but not a string |
| Filter.Keeps | veeva_simple_mobile.py:154 | the decision to append: the keep test passes without raising; `FilterFacts.KeepsIff` and `FilterFacts.KeepsIgnoringCase` state when |
| Filter.Project | veeva_simple_mobile.py:155-161 | the appended record keeps a present `team` and `region` as they are; with neither `city` nor `country` its location is "N/A, N/A" |
| Filter.Selected | veeva_simple_mobile.py:149-161 | the projected kept elements, in input order; never more records than elements |
| Filter.ExtractJobs | veeva_simple_mobile.py:134-167 | a non-empty result needs a match, a successful decode and a decoded list, and has at most as many records as the list has elements |
| FilterFacts.NoMatchNoJobs | veeva_simple_mobile.py:138-142 | a page on which the pattern matches nowhere gives the empty list, and nothing is raised |
| FilterFacts.FailureGivesNothing | veeva_simple_mobile.py:136-167 | all or nothing: a decode failure, or one element that is not a dict or has a non-string `team`/`region`, empties the whole result, whatever matched before it |
| FilterFacts.NotAListGivesNothing | veeva_simple_mobile.py:146-167 | a decoded value that is not a list gives the empty list: a dict's keys and a string's characters have no `get`, and other values cannot be iterated |
| FilterFacts.ListGivesSelected | veeva_simple_mobile.py:146-163 | a decoded list whose elements all pass the test without raising gives exactly the selected projections |
| FilterFacts.KeptIndices | veeva_simple_mobile.py:149-154 | lists, in increasing order, exactly the positions of the elements the test keeps |
| FilterFacts.SelectedIsSubsequence | veeva_simple_mobile.py:149-161 | the output is an order-preserving subsequence of the projected input: its k-th record is the projection of the k-th kept element, and its length is the number of kept elements |
| FilterFacts.SelectedAll | veeva_simple_mobile.py:149-161 | the output is as long as the input list exactly when every element is kept |
| FilterFacts.KeepsIff | veeva_simple_mobile.py:151-154 | an element is kept iff it is a dict whose `team` is present and lower-cases to "product support" and whose `region` is present and lower-cases to "asia pacific"; a missing field never matches |
| FilterFacts.KeepsIgnoringCase | veeva_simple_mobile.py:151-154 | an element is kept iff it is a dict whose `team` spells "product support" and whose `region` spells "asia pacific", each up to ASCII case |
| FilterFacts.KeptFields | veeva_simple_mobile.py:155-161 | each output record holds the original `team` and `region` strings (original case); `job_title` and `remote` are the element's values or "N/A"; `location` is city-or-"N/A" + ", " + country-or-"N/A" |
| FilterFacts.FilterIdempotent | veeva_simple_mobile.py:149-154 | keeping the kept records again changes nothing, and selecting from them gives the same output as selecting from all records |
| FilterFacts.ReprojectionLosesLocation | veeva_simple_mobile.py:149-161 | a record with a matching `team` and `region`, fed back as the dict the code builds, is kept again with location "N/A, N/A" and its other fields unchanged |
| FilterFacts.FilterTwiceLosesLocation | veeva_simple_mobile.py:149-161 | every extracted record, filtered a second time, comes back with location "N/A, N/A" |
| FilterFacts.KeptItemsKeep | veeva_simple_mobile.py:149-154 | every record that survives the keep test passes it |
| FilterFacts.TokyoExample | veeva_simple_mobile.py:149-161 | one Product Support job in Asia Pacific, in Tokyo, Japan, yields one record located "Tokyo, Japan" with its other fields unchanged |
| FilterFacts.CaseExamples | veeva_simple_mobile.py:151-154 | "Product Support" in "ASIA PACIFIC" is kept; a "sales" job in "asia pacific" is not |
| Display.BeforeFirstCommaShape | veeva_simple_mobile.py:193 | `split(',')[0]` is the longest comma-free prefix of the location |
| Display.BeforeFirstComma | veeva_simple_mobile.py:193 | `split(',')[0]`; `Display.BeforeFirstCommaShape` states it is the longest comma-free prefix |
| Display.CityKeyShape | veeva_simple_mobile.py:193 | the city key is the text before the first comma with only surrounding whitespace removed; it holds no comma and has no whitespace at either end |
| Display.CityKey | veeva_simple_mobile.py:193 | `location.split(',')[0].strip()`; its shape is stated by `Display.CityKeyShape` |
| Display.CityKeyOfExtractedJob | veeva_simple_mobile.py:193 | a record built by the extraction is grouped under its stripped city, unless the city text itself contains a comma |
| Display.GroupByCity | veeva_simple_mobile.py:191-196 | the dict's keys are exactly the city keys of the jobs; each key maps to the jobs with that key in input order; the key list has each key once |
| Display.CityIndices | veeva_simple_mobile.py:192-196 | the positions grouped under a city, in increasing order, each with that key |
| Display.JobsIn | veeva_simple_mobile.py:194-196 | the list a city key collects; `Display.GroupInInputOrder` states which jobs and in what order |
| Display.GroupInInputOrder | veeva_simple_mobile.py:192-196 | a city's group holds exactly the jobs with that key, in the order they came in |
| Display.Insert | veeva_simple_mobile.py:199 | inserting a new key into an ascending list keeps it ascending and adds exactly that key |
| Display.SortCities | veeva_simple_mobile.py:199 | `sorted` on the keys yields an ascending permutation of them |
| Display.AscendingDistinct | veeva_simple_mobile.py:199 | the sorted keys are strictly ascending between any two positions, so no key repeats |
| Display.Partition | veeva_simple_mobile.py:191-199 | listing every city's group once shows each job exactly as often as it occurs: the groups partition the jobs |
| Display.RemoteOnlyForStringOne | veeva_simple_mobile.py:218 | a kept job is shown as remote iff its record's `remote` is the string "1"; absent ("N/A"), the number 1 and every other value mean not remote |
| Display.IsRemote | veeva_simple_mobile.py:218 | the remote flag: whether `remote` is the string "1"; `Display.RemoteOnlyForStringOne` ties it to the raw record |
| Display.Numbered | veeva_simple_mobile.py:212-218 | the lines of `enumerate(city_jobs, 1)`; stated by `Display.NumberedLines` |
| Display.NumberedLines | veeva_simple_mobile.py:212-218 | the lines of a city list its jobs in order, numbered 1..n, each flagged remote iff `remote == "1"` |
| Display.NumberJobs | veeva_simple_mobile.py:212-218 | the `enumerate(city_jobs, 1)` loop builds exactly those lines |
| Display.LayoutSections | veeva_simple_mobile.py:199-212 | one section per listed city, in that order, holding that city's numbered jobs |
| Display.Layout | veeva_simple_mobile.py:199-212 | the city sections over a list of keys; stated by `Display.LayoutSections` and `Display.LayoutShown` |
| Display.LayoutShown | veeva_simple_mobile.py:199-212 | the sections together show the cities' groups one after another |
| Display.BuildSections | veeva_simple_mobile.py:199-212 | the loop over the sorted items builds exactly those sections |
| Display.LayoutOfSortedCities | veeva_simple_mobile.py:191-218 | laid out over the sorted keys, the headings are strictly ascending and cover every city; each section lists its city's numbered jobs; every job is shown exactly as often as it occurs |
| Display.DisplayJobs | veeva_simple_mobile.py:188-218 | group, sort, then number: strictly ascending headings covering every city; each section is its city's group numbered from 1; the sections together are a permutation of the jobs |

## Left out

- Kivy user interface: `build`, `start_search`, `update_ui` (including its popup when no job is found), `show_error`, `show_popup`, and the Label widgets, their texts and their styling in `display_jobs`. These are presentation only.
- The worker thread and the `Clock.schedule_once` hand-off back to the UI thread. There is one fire-and-forget task and nothing shared.
- The HTTP request with its fixed URL, query and User-Agent, gzip decompression and UTF-8 decoding. These are network I/O and library calls; the model takes the page as a string.
- `json.loads`. It is the parameter `parse`; which texts decode to which values is not part of this model.
- The `print` of the exception message on failure. The model names why the loop stops (`NotIterable`, `NoGet`, `NoLower` in `Filter.Failure`; a decode error is `parse` returning None), but the result is the empty list in every case.
- JSON numbers with a fraction or exponent. Numbers are integers, so `str()` of a float city or country is not modelled.
- Text.Lower: lower-cases ASCII letters only, where Python's `str.lower` covers all of Unicode.
- Json.StrRepr: escapes ASCII control characters but not the non-ASCII characters Python also escapes as non-printable.
- Json.Repr: with a repeated key, a JSON object prints once per binding; Python's dict keeps only one binding.
- The `'Unknown'` default of `job.get('location', 'Unknown')` (line 193). Every job from the extraction has a location, and `Filter.Job` always carries one.
